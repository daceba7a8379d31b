/**
 * The second model-backed extractor (ai_extractor_old_v2.py): a header call
 * and a deep call for the list fields, the three-stage parse shared with
 * ai_extractor_old.py over ten patterns, a type-guarded post-processing, and
 * a two-pass merge (the regex value wins on the header fields, the model
 * value wins on the list fields).
 */
module AiExtractorOldV2 {
  import opened Text
  import opened Json
  import opened Calendar
  import opened Utils
  import opened AiExtractorOld
  import AiExtractor

  /** The ten stage-3 patterns: skills and working_experience take a bracketed group. */
  const V2Patterns: seq<FieldPattern> :=
    [Quoted("name"), Quoted("name_japanese"), Quoted("name_english"), Quoted("email"),
     Quoted("phone"), Quoted("date_of_birth"), Bracketed("skills"), Bracketed("working_experience"),
     Quoted("location"), Quoted("school_university")]

  // ---------------------------------------------------------------------------
  // List fields: comma split and flattening
  // ---------------------------------------------------------------------------

  predicate IsDoubleQuote(c: char) { c == '"' }

  /** s.strip().strip('"') */
  function CleanPiece(s: string): (r: string)
    ensures |r| <= |s|
  {
    StripBy(Strip(s), IsDoubleQuote)
  }

  /** Every piece cleaned. */
  function Cleaned(xs: seq<string>): (r: seq<string>)
    ensures |r| == |xs|
    ensures forall i :: 0 <= i < |xs| ==> r[i] == CleanPiece(xs[i])
  {
    seq(|xs|, i requires 0 <= i < |xs| => CleanPiece(xs[i]))
  }

  /** `[s for s in xs if s]` */
  function NonEmpty(xs: seq<string>): (r: seq<string>)
    ensures |r| <= |xs|
    ensures forall k :: 0 <= k < |r| ==> r[k] != []
    decreases |xs|
  {
    if xs == [] then []
    else NonEmpty(xs[..|xs| - 1]) + (if xs[|xs| - 1] != [] then [xs[|xs| - 1]] else [])
  }

  /** Dropping empty strings from a list that has none changes nothing. */
  lemma {:induction false} NonEmptyKeepsAll(xs: seq<string>)
    requires forall k :: 0 <= k < |xs| ==> xs[k] != []
    ensures NonEmpty(xs) == xs
    decreases |xs|
  {
    if xs != [] {
      NonEmptyKeepsAll(xs[..|xs| - 1]);
      assert xs[..|xs| - 1] + [xs[|xs| - 1]] == xs;
    }
  }

  /** A string list field: its comma-separated pieces, each stripped of whitespace and then of quotes, empty ones dropped. */
  function CommaItems(raw: string): (r: seq<string>)
    ensures forall k :: 0 <= k < |r| ==> r[k] != []
  {
    NonEmpty(Cleaned(SplitOn(raw, ',')))
  }

  /**
   * When no piece is empty or padded, the items are the pieces and joining
   * them with commas gives back the text.
   */
  lemma CommaItemsJoin(raw: string)
    requires forall k :: 0 <= k < |SplitOn(raw, ',')| ==>
               SplitOn(raw, ',')[k] != [] && CleanPiece(SplitOn(raw, ',')[k]) == SplitOn(raw, ',')[k]
    ensures CommaItems(raw) == SplitOn(raw, ',')
    ensures Join(",", CommaItems(raw)) == raw
  {
    var xs := SplitOn(raw, ',');
    assert Cleaned(xs) == xs;
    NonEmptyKeepsAll(xs);
    SplitOnJoin(raw, ',');
  }

  /** The strings of a nested list, stripped; other values skipped. */
  function SubStrings(sub: seq<Value>): (r: seq<string>)
    ensures forall k :: 0 <= k < |r| ==> Strip(r[k]) == r[k]
    decreases |sub|
  {
    if sub == [] then []
    else
      var last := sub[|sub| - 1];
      if last.Str? then
        StripIdempotent(last.s);
        SubStrings(sub[..|sub| - 1]) + [Strip(last.s)]
      else SubStrings(sub[..|sub| - 1])
  }

  /** What one item of a list field contributes: a string stripped, a nested list's strings, nothing else. */
  function ItemStrings(v: Value): (r: seq<string>)
    ensures forall k :: 0 <= k < |r| ==> Strip(r[k]) == r[k]
  {
    match v
    case Str(s) => StripIdempotent(s); [Strip(s)]
    case List(sub) => SubStrings(sub)
    case _ => []
  }

  /** The strings of a list field, one level of nesting flattened, in order. */
  function Flattened(items: seq<Value>): (r: seq<string>)
    ensures forall k :: 0 <= k < |r| ==> Strip(r[k]) == r[k]
    decreases |items|
  {
    if items == [] then [] else Flattened(items[..|items| - 1]) + ItemStrings(items[|items| - 1])
  }

  /** The flattening loop of _post_process_results. */
  method FlattenStrings(items: seq<Value>) returns (out: seq<string>)
    ensures out == Flattened(items)
  {
    out := [];
    var i := 0;
    while i < |items|
      invariant 0 <= i <= |items|
      invariant out == Flattened(items[..i])
    {
      FlattenedSnoc(items, i);
      var item := items[i];
      if item.Str? {
        out := out + [Strip(item.s)];
      } else if item.List? {
        var sub := NestedStrings(item.items);
        out := out + sub;
      }
      i := i + 1;
    }
    assert items[..i] == items;
  }

  lemma FlattenedSnoc(items: seq<Value>, i: nat)
    requires i < |items|
    ensures Flattened(items[..i + 1]) == Flattened(items[..i]) + ItemStrings(items[i])
  {
    assert items[..i + 1][..i] == items[..i];
  }

  /** The inner loop over a nested list: its strings, stripped, in order. */
  method NestedStrings(sub: seq<Value>) returns (out: seq<string>)
    ensures out == SubStrings(sub)
  {
    out := [];
    var j := 0;
    while j < |sub|
      invariant 0 <= j <= |sub|
      invariant out == SubStrings(sub[..j])
    {
      assert sub[..j + 1][..j] == sub[..j];
      if sub[j].Str? {
        out := out + [Strip(sub[j].s)];
      }
      j := j + 1;
    }
    assert sub[..j] == sub;
  }

  /** The texts of a list of strings. */
  function Texts(items: seq<Value>): (r: seq<string>)
    requires forall k :: 0 <= k < |items| ==> items[k].Str?
    ensures |r| == |items|
    ensures forall k :: 0 <= k < |items| ==> r[k] == items[k].s
    decreases |items|
  {
    if items == [] then [] else Texts(items[..|items| - 1]) + [items[|items| - 1].s]
  }

  /** A list of strings that are already stripped comes out as those strings. */
  lemma {:induction false} FlattenedStrings(items: seq<Value>)
    requires forall k :: 0 <= k < |items| ==> items[k].Str? && Strip(items[k].s) == items[k].s
    ensures Flattened(items) == Texts(items)
    decreases |items|
  {
    if items != [] {
      var init, last := items[..|items| - 1], items[|items| - 1];
      assert forall k :: 0 <= k < |init| ==> init[k] == items[k];
      FlattenedStrings(init);
    }
  }

  /** The skills / working_experience step on a truthy value: a list flattened, a string split on commas, empty items dropped. */
  function ListField(raw: Value): (r: seq<string>)
    ensures forall k :: 0 <= k < |r| ==> r[k] != []
  {
    NonEmpty(if raw.List? then Flattened(raw.items) else if raw.Str? then Cleaned(SplitOn(raw.s, ',')) else [])
  }

  /** Dropping empty items keeps every item a stripped string. */
  lemma {:induction false} NonEmptyTrimmed(xs: seq<string>)
    requires forall k :: 0 <= k < |xs| ==> Strip(xs[k]) == xs[k]
    ensures forall k :: 0 <= k < |NonEmpty(xs)| ==> Strip(NonEmpty(xs)[k]) == NonEmpty(xs)[k]
    decreases |xs|
  {
    if xs != [] {
      NonEmptyTrimmed(xs[..|xs| - 1]);
    }
  }

  method ListFieldItems(raw: Value) returns (items: seq<string>)
    ensures items == ListField(raw)
  {
    var pieces: seq<string> := [];
    if raw.List? {
      pieces := FlattenStrings(raw.items);
    } else if raw.Str? {
      pieces := Cleaned(SplitOn(raw.s, ','));
    }
    items := NonEmpty(pieces);
  }

  /**
   * A list field never holds an empty item; from a list every item is
   * stripped, and a list of clean strings is kept as it is.
   */
  lemma ListFieldFacts(raw: Value)
    ensures raw.List? ==> forall k :: 0 <= k < |ListField(raw)| ==> Strip(ListField(raw)[k]) == ListField(raw)[k]
    ensures raw.List? && (forall k :: 0 <= k < |raw.items| ==>
              raw.items[k].Str? && raw.items[k].s != [] && Strip(raw.items[k].s) == raw.items[k].s) ==>
              |ListField(raw)| == |raw.items| && forall k :: 0 <= k < |raw.items| ==> ListField(raw)[k] == raw.items[k].s
  {
    if raw.List? {
      NonEmptyTrimmed(Flattened(raw.items));
      if forall k :: 0 <= k < |raw.items| ==>
           raw.items[k].Str? && raw.items[k].s != [] && Strip(raw.items[k].s) == raw.items[k].s {
        FlattenedStrings(raw.items);
        NonEmptyKeepsAll(Flattened(raw.items));
      }
    }
  }

  // ---------------------------------------------------------------------------
  // _post_process_results
  // ---------------------------------------------------------------------------

  /** The phone step: a string normalized, a non-empty list by its first item (null unless a string), else dropped. */
  function PhoneEntry(v: Value): (r: Option<Value>)
    ensures !Truthy(v) ==> r.None?
    ensures Truthy(v) && v.Str? ==> r.Some? && PhoneResult(r.value, v.s)
    ensures Truthy(v) && v.List? ==> r.Some? && (v.items[0].Str? ==> PhoneResult(r.value, v.items[0].s))
    ensures !v.Str? && !v.List? ==> r.None?
  {
    if !Truthy(v) then None
    else if v.Str? then Some(PhoneValue(v.s))
    else if v.List? then Some(if v.items[0].Str? then PhoneValue(v.items[0].s) else Null)
    else None
  }

  /** The date step: like the phone step, with standardize_date as the normalizer. */
  function DateEntry(today: Date, v: Value): (r: Option<Value>)
    requires Valid(today)
    ensures !Truthy(v) ==> r.None?
    ensures Truthy(v) && (v.Str? || v.List?) ==> r.Some? && (r.value == Null || (r.value.Str? && IsoShape(r.value.s)))
    ensures !v.Str? && !v.List? ==> r.None?
  {
    if !Truthy(v) then None
    else if v.Str? then Some(DateValue(today, v.s))
    else if v.List? then Some(if v.items[0].Str? then DateValue(today, v.items[0].s) else Null)
    else None
  }

  /** A location or school value: a string stripped, a list's first item as str() and stripped. */
  function FirstStripped(v: Value): (r: Option<Value>)
    requires Truthy(v)
  {
    if v.Str? then Some(Str(Strip(v.s)))
    else if v.List? then Some(Str(Strip(PyStr(v.items[0]))))
    else None
  }

  const V2Keys: set<string> :=
    {"name", "name_japanese", "email", "phone", "date_of_birth", "skills", "working_experience",
     "location", "school_university"}

  /** The Japanese-name step: a truthy name cleaned of honorifics. */
  function JapaneseEntry(jp: Value): (r: Option<Value>)
    requires !NonString(jp)
    ensures r.Some? <==> Truthy(jp)
  {
    if Truthy(jp) then Some(Str(CleanNameOld(jp.s))) else None
  }

  /** The email step: only a string is considered, kept when it holds an '@'. */
  function EmailEntry(email: Value): (r: Option<Value>)
    ensures r.Some? ==> email.Str? && r.value.Str? && Contains(r.value.s, "@")
  {
    if email.Str? && KeptEmail(email).Some? then Some(Str(KeptEmail(email).value)) else None
  }

  /** The list-field step: a truthy value becomes its list of non-empty strings. */
  function ListEntry(v: Value): (r: Option<Value>)
    ensures r.Some? <==> Truthy(v)
    ensures r.Some? ==> r.value == StrList(ListField(v))
  {
    if Truthy(v) then Some(StrList(ListField(v))) else None
  }

  /** The header half of _post_process_results: names, email, phone and date of birth. */
  function HeaderEntries(today: Date, results: Dict): (r: Dict)
    requires Valid(today)
    requires !NonString(Get(results, "name")) && !NonString(Get(results, "name_japanese"))
    ensures r.Keys <= {"name", "name_japanese", "email", "phone", "date_of_birth"}
    ensures "name" in r <==>
              (Truthy(Get(results, "name")) || Truthy(Get(results, "name_japanese")) || Truthy(Get(results, "name_english")))
    ensures "email" in r ==> Get(results, "email").Str? && r["email"].Str? && Contains(r["email"].s, "@")
    ensures var phone := Get(results, "phone");
            (Truthy(phone) && phone.Str? ==> "phone" in r && PhoneResult(r["phone"], phone.s)) &&
            (Truthy(phone) && !phone.Str? && !phone.List? ==> "phone" !in r)
    ensures var dob := Get(results, "date_of_birth");
            Truthy(dob) && dob.Str? ==>
              ("date_of_birth" in r &&
               (r["date_of_birth"] == Null || (r["date_of_birth"].Str? && IsoShape(r["date_of_birth"].s))))
  {
    OldKeysApart();
    ContactEntries(today, NamesOld(results), results)
  }

  /** Email, phone and date of birth added to the name entries m, each guarded by its type. */
  function ContactEntries(today: Date, m: Dict, results: Dict): (r: Dict)
    requires Valid(today) && m.Keys <= {"name", "name_japanese"}
    ensures r.Keys <= m.Keys + {"email", "phone", "date_of_birth"}
    ensures "name" in r <==> "name" in m
    ensures "email" in r ==> Get(results, "email").Str? && r["email"].Str? && Contains(r["email"].s, "@")
    ensures var phone := Get(results, "phone");
            (Truthy(phone) && phone.Str? ==> "phone" in r && PhoneResult(r["phone"], phone.s)) &&
            (Truthy(phone) && !phone.Str? && !phone.List? ==> "phone" !in r)
    ensures var dob := Get(results, "date_of_birth");
            Truthy(dob) && dob.Str? ==>
              ("date_of_birth" in r &&
               (r["date_of_birth"] == Null || (r["date_of_birth"].Str? && IsoShape(r["date_of_birth"].s))))
  {
    OldKeysApart();
    var m3 := Put(m, "email", EmailEntry(Get(results, "email")));
    var m4 := Put(m3, "phone", PhoneEntry(Get(results, "phone")));
    Put(m4, "date_of_birth", DateEntry(today, Get(results, "date_of_birth")))
  }

  const ListKeys: set<string> := {"skills", "working_experience", "location", "school_university"}

  /** The list half of _post_process_results: skills, working experience, location and school added to m. */
  function ListEntries(m: Dict, results: Dict): (r: Dict)
    ensures r.Keys <= m.Keys + ListKeys
    ensures forall j :: j in m && j !in ListKeys ==>
              j in r && r[j] == m[j]
    ensures "skills" in r <==> "skills" in m || Truthy(Get(results, "skills"))
    ensures Truthy(Get(results, "skills")) ==> r["skills"] == StrList(ListField(Get(results, "skills")))
    ensures "working_experience" in r <==> "working_experience" in m || Truthy(Get(results, "working_experience"))
    ensures Truthy(Get(results, "working_experience")) ==>
              r["working_experience"] == StrList(ListField(Get(results, "working_experience")))
  {
    ListKeysApart();
    PlaceEntries(SkillEntries(m, results), results)
  }

  lemma ListKeysApart()
    ensures "skills" != "working_experience" && "skills" != "location" && "skills" != "school_university"
    ensures "working_experience" != "location" && "working_experience" != "school_university"
    ensures "location" != "school_university"
  {
    assert |"skills"| == 6 && |"location"| == 8 && |"school_university"| == 17 && |"working_experience"| == 18;
  }

  /** Every list key has at least six characters. */
  lemma ShortNotListKey(k: string)
    requires |k| < 6
    ensures k !in ListKeys
  {
    assert |"skills"| == 6 && |"location"| == 8 && |"school_university"| == 17 && |"working_experience"| == 18;
  }

  /** Skills and working experience, each flattened into a list of strings when truthy. */
  function SkillEntries(m: Dict, results: Dict): (r: Dict)
    ensures r.Keys <= m.Keys + {"skills", "working_experience"}
    ensures forall j :: j in m && j != "skills" && j != "working_experience" ==> j in r && r[j] == m[j]
    ensures "skills" in r <==> "skills" in m || Truthy(Get(results, "skills"))
    ensures Truthy(Get(results, "skills")) ==> r["skills"] == StrList(ListField(Get(results, "skills")))
    ensures "working_experience" in r <==> "working_experience" in m || Truthy(Get(results, "working_experience"))
    ensures Truthy(Get(results, "working_experience")) ==>
              r["working_experience"] == StrList(ListField(Get(results, "working_experience")))
  {
    ListKeysApart();
    var m6 := Put(m, "skills", ListEntry(Get(results, "skills")));
    Put(m6, "working_experience", ListEntry(Get(results, "working_experience")))
  }

  /** Location and school, each the first stripped string when truthy. */
  function PlaceEntries(m: Dict, results: Dict): (r: Dict)
    ensures r.Keys <= m.Keys + {"location", "school_university"}
    ensures forall j :: j in m && j != "location" && j != "school_university" ==> j in r && r[j] == m[j]
  {
    ListKeysApart();
    var loc, school := Get(results, "location"), Get(results, "school_university");
    var m8 := Put(m, "location", if Truthy(loc) then FirstStripped(loc) else None);
    Put(m8, "school_university", if Truthy(school) then FirstStripped(school) else None)
  }

  /**
   * _post_process_results: the names as in the first extractor; every
   * other field guarded by its type, so that only a name that is not a
   * string raises.
   */
  function PostProcessedV2(today: Date, results: Dict): (r: Outcome<Dict>)
    requires Valid(today)
  {
    if NonString(Get(results, "name")) || NonString(Get(results, "name_japanese")) then Raised("AttributeError")
    else Returned(ListEntries(HeaderEntries(today, results), results))
  }

  /** The list-field step as the method runs it, through the flattening loop. */
  method ListEntryOf(v: Value) returns (r: Option<Value>)
    ensures r == ListEntry(v)
  {
    r := None;
    if Truthy(v) {
      var items := ListFieldItems(v);
      r := Some(StrList(items));
    }
  }

  /** The header half of the post-processing method. */
  method FillHeader(today: Date, results: Dict) returns (processed: Dict)
    requires Valid(today)
    requires !NonString(Get(results, "name")) && !NonString(Get(results, "name_japanese"))
    ensures processed == HeaderEntries(today, results)
  {
    var name, jp, en := Get(results, "name"), Get(results, "name_japanese"), Get(results, "name_english");
    processed := map[];
    processed := Put(processed, "name", NameChoice(name, jp, en));
    processed := Put(processed, "name_japanese", JapaneseEntry(jp));
    processed := Put(processed, "email", EmailEntry(Get(results, "email")));
    processed := Put(processed, "phone", PhoneEntry(Get(results, "phone")));
    processed := Put(processed, "date_of_birth", DateEntry(today, Get(results, "date_of_birth")));
  }

  /** The list half of the post-processing method. */
  method FillLists(header: Dict, results: Dict) returns (processed: Dict)
    ensures processed == ListEntries(header, results)
  {
    processed := header;
    var skills := ListEntryOf(Get(results, "skills"));
    processed := Put(processed, "skills", skills);
    var work := ListEntryOf(Get(results, "working_experience"));
    processed := Put(processed, "working_experience", work);
    var loc := Get(results, "location");
    if Truthy(loc) {
      processed := Put(processed, "location", FirstStripped(loc));
    }
    var school := Get(results, "school_university");
    if Truthy(school) {
      processed := Put(processed, "school_university", FirstStripped(school));
    }
  }

  /** The post-processing method, filling the result field by field. */
  method PostProcessV2(today: Date, results: Dict) returns (r: Outcome<Dict>)
    requires Valid(today)
    ensures r == PostProcessedV2(today, results)
  {
    if NonString(Get(results, "name")) || NonString(Get(results, "name_japanese")) {
      return Raised("AttributeError");
    }
    var header := FillHeader(today, results);
    var processed := FillLists(header, results);
    return Returned(processed);
  }

  /**
   * Only a name that is not a string raises; the keys are those of the
   * post-processed fields, and a list field is present exactly when its
   * raw value is truthy, as a list of non-empty strings.
   */
  lemma PostProcessedV2Facts(today: Date, results: Dict)
    requires Valid(today)
    ensures PostProcessedV2(today, results).Raised? <==>
              NonString(Get(results, "name")) || NonString(Get(results, "name_japanese"))
    ensures var r := PostProcessedV2(today, results);
            r.Returned? ==>
              r.value.Keys <= V2Keys &&
              ("name" in r.value <==> Truthy(Get(results, "name")) || Truthy(Get(results, "name_japanese")) ||
                                      Truthy(Get(results, "name_english"))) &&
              ("skills" in r.value <==> Truthy(Get(results, "skills"))) &&
              ("skills" in r.value ==> r.value["skills"] == StrList(ListField(Get(results, "skills")))) &&
              ("working_experience" in r.value <==> Truthy(Get(results, "working_experience"))) &&
              ("working_experience" in r.value ==>
                 r.value["working_experience"] == StrList(ListField(Get(results, "working_experience"))))
  {
    if !(NonString(Get(results, "name")) || NonString(Get(results, "name_japanese"))) {
      var h := HeaderEntries(today, results);
      var r := ListEntries(h, results);
      assert PostProcessedV2(today, results) == Returned(r);
      ShortNotListKey("name");
    }
  }

  /**
   * An email is kept only as a string holding an '@'; a string phone is
   * normalized by standardize_phone_number, a list phone by its first item,
   * and a phone of any other type is dropped; a string date becomes an ISO
   * date or null.
   */
  lemma PostProcessedV2Values(today: Date, results: Dict)
    requires Valid(today)
    ensures var r := PostProcessedV2(today, results);
            r.Returned? ==>
              ("email" in r.value ==> Get(results, "email").Str? && r.value["email"].Str? &&
                                      Contains(r.value["email"].s, "@")) &&
              (var phone := Get(results, "phone");
               (Truthy(phone) && phone.Str? ==> "phone" in r.value && PhoneResult(r.value["phone"], phone.s)) &&
               (Truthy(phone) && !phone.Str? && !phone.List? ==> "phone" !in r.value)) &&
              (var dob := Get(results, "date_of_birth");
               Truthy(dob) && dob.Str? ==>
                 ("date_of_birth" in r.value &&
                  (r.value["date_of_birth"] == Null ||
                   (r.value["date_of_birth"].Str? && IsoShape(r.value["date_of_birth"].s)))))
  {
    if !(NonString(Get(results, "name")) || NonString(Get(results, "name_japanese"))) {
      var h := HeaderEntries(today, results);
      var r := ListEntries(h, results);
      assert PostProcessedV2(today, results) == Returned(r);
      ShortNotListKey("name");
      ShortNotListKey("email");
      ShortNotListKey("phone");
      assert "date_of_birth" !in ListKeys by {
        assert "date_of_birth"[0] == 'd';
      }
    }
  }

  // ---------------------------------------------------------------------------
  // extract_all_fields and extract_deep_fields
  // ---------------------------------------------------------------------------

  /** extract_all_fields: {} when unavailable, on a failed call or parse, or when post-processing raises. */
  function AllFieldsV2(available: bool, today: Date, reply: Option<string>, loads: string -> Option<Dict>): (r: Dict)
    requires Valid(today)
  {
    if !available || reply.None? then map[]
    else match ParseLadder(reply.value, loads, V2Patterns)
      case None => map[]
      case Some(d) =>
        if d == map[] then map[]
        else match PostProcessedV2(today, d)
          case Raised(_) => map[]
          case Returned(p) => p
  }

  /** The header fields hold only post-processed keys, and an email always has its '@'. */
  lemma AllFieldsV2Facts(available: bool, today: Date, reply: Option<string>, loads: string -> Option<Dict>)
    requires Valid(today)
    ensures !available ==> AllFieldsV2(available, today, reply, loads) == map[]
    ensures AllFieldsV2(available, today, reply, loads).Keys <= V2Keys
    ensures var r := AllFieldsV2(available, today, reply, loads);
            "email" in r ==> r["email"].Str? && Contains(r["email"].s, "@")
  {
    if available && reply.Some? {
      match ParseLadder(reply.value, loads, V2Patterns)
      case None =>
      case Some(d) =>
        PostProcessedV2Facts(today, d);
        PostProcessedV2Values(today, d);
    }
  }

  const DeepFields: seq<string> := ["skills", "working_experience", "school_university"]

  /** `[p for p in xs if p.strip()]` */
  function Unblank(xs: seq<string>): (r: seq<string>)
    ensures |r| <= |xs|
    ensures forall k :: 0 <= k < |r| ==> Strip(r[k]) != []
    decreases |xs|
  {
    if xs == [] then []
    else Unblank(xs[..|xs| - 1]) + (if Strip(xs[|xs| - 1]) != [] then [xs[|xs| - 1]] else [])
  }

  /**
   * The deep call's string coercion: blank pieces are dropped before the
   * quotes are stripped, so the items are cleaned but may be empty.
   */
  function DeepItems(raw: string): seq<string> {
    Cleaned(Unblank(SplitOn(raw, ',')))
  }

  /** A piece made only of quotes passes the blank test and comes out empty. */
  lemma DeepItemsQuotesOnly()
    ensures DeepItems("\"\"") == [""]
  {
    var q := "\"\"";
    assert SplitOn(q, ',') == [q];
    QuotesOnlyPiece(q);
  }

  /** A piece of quotes only is not blank, and cleaning it leaves nothing. */
  lemma QuotesOnlyPiece(q: string)
    requires q == "\"\""
    ensures Unblank([q]) == [q] && CleanPiece(q) == ""
  {
    assert Strip(q) == q;
    assert [q][..0] == [];
    assert StripBy(q, IsDoubleQuote) == "";
  }

  /** The coercion of one deep value: a string split into items, a null an empty list, anything else kept. */
  function Coerced(v: Value): (r: Value)
    ensures v.Str? ==> r == StrList(DeepItems(v.s))
    ensures v == Null ==> r == List([])
    ensures !v.Str? && v != Null ==> r == v
  {
    if v.Str? then StrList(DeepItems(v.s)) else if v == Null then List([]) else v
  }

  /** The coercion loop over the fields fs, in order. */
  function CoercedFields(d: Dict, fs: seq<string>): Dict
    decreases |fs|
  {
    if fs == [] then d
    else var m := CoercedFields(d, fs[..|fs| - 1]); m[fs[|fs| - 1] := Coerced(Get(m, fs[|fs| - 1]))]
  }

  lemma CoercedFieldsSnoc(d: Dict, fs: seq<string>, i: nat)
    requires i < |fs|
    ensures var m := CoercedFields(d, fs[..i]); CoercedFields(d, fs[..i + 1]) == m[fs[i] := Coerced(Get(m, fs[i]))]
  {
    assert fs[..i + 1][..i] == fs[..i];
  }

  /** After the coercion each listed field holds its coerced value; every other key is as it was. */
  lemma {:induction false} CoercedFieldsAt(d: Dict, fs: seq<string>, k: string)
    requires forall i, j :: 0 <= i < j < |fs| ==> fs[i] != fs[j]
    ensures k in fs ==> k in CoercedFields(d, fs) && CoercedFields(d, fs)[k] == Coerced(Get(d, k))
    ensures k !in fs ==> Get(CoercedFields(d, fs), k) == Get(d, k)
    decreases |fs|
  {
    if fs != [] {
      var init, g := fs[..|fs| - 1], fs[|fs| - 1];
      CoercedFieldsAt(d, init, k);
      if k != g {
        assert k in fs ==> k in init;
      } else {
        assert forall j :: 0 <= j < |init| ==> init[j] == fs[j] != fs[|fs| - 1];
      }
    }
  }

  /** Writing back the value a key already holds changes nothing. */
  lemma UpdateSame(r: Dict, key: string)
    requires key in r
    ensures r[key := r[key]] == r
  {
  }

  /** The coercion loop of extract_deep_fields. */
  method CoerceDeepLists(d: Dict) returns (r: Dict)
    ensures r == CoercedFields(d, DeepFields)
  {
    r := d;
    var i := 0;
    while i < |DeepFields|
      invariant 0 <= i <= |DeepFields|
      invariant r == CoercedFields(d, DeepFields[..i])
    {
      CoercedFieldsSnoc(d, DeepFields, i);
      var key := DeepFields[i];
      var v := Get(r, key);
      if v.Str? {
        r := r[key := StrList(DeepItems(v.s))];
      } else if v == Null {
        r := r[key := List([])];
      } else {
        UpdateSame(r, key);
      }
      i := i + 1;
    }
    assert DeepFields[..i] == DeepFields;
  }

  /**
   * extract_deep_fields: {} when unavailable or on a failed call; None
   * when nothing parses; otherwise the parsed fields with the three list
   * fields coerced.
   */
  function DeepFieldsV2(available: bool, reply: Option<string>, loads: string -> Option<Dict>): Option<Dict> {
    if !available || reply.None? then Some(map[])
    else match ParseLadder(reply.value, loads, V2Patterns)
      case None => None
      case Some(d) => Some(if d == map[] then d else CoercedFields(d, DeepFields))
  }

  /**
   * A deep result is absent only when nothing parses; a non-empty one
   * holds each list field, a string turned into its items and a null or
   * missing field into [].
   */
  lemma DeepFieldsV2Facts(available: bool, reply: Option<string>, loads: string -> Option<Dict>, f: string)
    requires f in DeepFields
    ensures !available ==> DeepFieldsV2(available, reply, loads) == Some(map[])
    ensures DeepFieldsV2(available, reply, loads).None? <==>
              available && reply.Some? && ParseLadder(reply.value, loads, V2Patterns).None?
    ensures var r := DeepFieldsV2(available, reply, loads);
            available && reply.Some? && r.Some? && r.value != map[] ==>
              var raw := Get(ParseLadder(reply.value, loads, V2Patterns).value, f);
              f in r.value &&
              (raw.Str? ==> r.value[f] == StrList(DeepItems(raw.s))) &&
              (raw == Null ==> r.value[f] == List([])) &&
              (!raw.Str? && raw != Null ==> r.value[f] == raw)
  {
    if available && reply.Some? {
      match ParseLadder(reply.value, loads, V2Patterns)
      case None =>
      case Some(d) =>
        if d != map[] {
          CoercedFieldsAt(d, DeepFields, f);
        }
    }
  }

  // ---------------------------------------------------------------------------
  // validate_and_enhance: regex first on the header, the deep call first on the lists
  // ---------------------------------------------------------------------------

  const V2HeaderFields: seq<string> := ["name", "email", "phone", "date_of_birth", "location"]

  /** One list field of the second pass: a truthy deep value wins ("AI_Deep"); a non-empty existing list stays ("Regex"); else []. */
  function DeepStep(m: Dict, deep: Dict, f: string): Dict {
    if Truthy(Get(deep, f)) then m[f := deep[f]][f + "_source" := Str("AI_Deep")]
    else if Truthy(Get(m, f)) && m[f].List? then m[f + "_source" := Str("Regex")]
    else m[f := List([])]
  }

  /** The second merge loop over the fields fs, in order. */
  function DeepMerged(m: Dict, deep: Dict, fs: seq<string>): Dict
    decreases |fs|
  {
    if fs == [] then m else DeepStep(DeepMerged(m, deep, fs[..|fs| - 1]), deep, fs[|fs| - 1])
  }

  /** The second merge loop of validate_and_enhance. */
  method MergeDeep(filled: Dict, deep: Dict, fs: seq<string>) returns (m: Dict)
    ensures m == DeepMerged(filled, deep, fs)
  {
    m := filled;
    var j := 0;
    while j < |fs|
      invariant 0 <= j <= |fs|
      invariant m == DeepMerged(filled, deep, fs[..j])
    {
      m := DeepStep(m, deep, fs[j]);
      DeepMergedSnoc(filled, deep, fs, j);
      j := j + 1;
    }
    assert fs[..j] == fs;
  }

  lemma DeepMergedSnoc(m: Dict, deep: Dict, fs: seq<string>, j: nat)
    requires j < |fs|
    ensures DeepMerged(m, deep, fs[..j + 1]) == DeepStep(DeepMerged(m, deep, fs[..j]), deep, fs[j])
  {
    assert fs[..j + 1][..j] == fs[..j];
  }

  /** A key that is neither a field of fs nor a field's tag is left as it was. */
  lemma {:induction false} DeepMergedUntouched(m: Dict, deep: Dict, fs: seq<string>, k: string)
    requires k !in fs && forall g :: g in fs ==> k != g + "_source"
    ensures Get(DeepMerged(m, deep, fs), k) == Get(m, k)
    decreases |fs|
  {
    if fs != [] {
      DeepMergedUntouched(m, deep, fs[..|fs| - 1], k);
      assert fs[|fs| - 1] in fs;
    }
  }

  /**
   * After the second pass a list field holds the truthy deep value tagged
   * "AI_Deep", else a non-empty existing list tagged "Regex", else [] with
   * its tag as it was.
   */
  lemma {:induction false} DeepMergedAt(m: Dict, deep: Dict, fs: seq<string>, f: string)
    requires f in fs && MergeFields(fs)
    ensures Truthy(Get(deep, f)) ==>
              Get(DeepMerged(m, deep, fs), f) == deep[f] &&
              Get(DeepMerged(m, deep, fs), f + "_source") == Str("AI_Deep")
    ensures !Truthy(Get(deep, f)) && Truthy(Get(m, f)) && m[f].List? ==>
              Get(DeepMerged(m, deep, fs), f) == m[f] &&
              Get(DeepMerged(m, deep, fs), f + "_source") == Str("Regex")
    ensures !Truthy(Get(deep, f)) && !(Truthy(Get(m, f)) && m[f].List?) ==>
              Get(DeepMerged(m, deep, fs), f) == List([]) &&
              Get(DeepMerged(m, deep, fs), f + "_source") == Get(m, f + "_source")
    decreases |fs|
  {
    var init := fs[..|fs| - 1];
    var g := fs[|fs| - 1];
    var r := DeepMerged(m, deep, init);
    assert DeepMerged(m, deep, fs) == DeepStep(r, deep, g);
    assert MergeFields(init);
    if f != g {
      assert f in init;
      DeepMergedAt(m, deep, init, f);
      var j :| 0 <= j < |init| && init[j] == f;
      assert fs[j] == f;
      AiExtractor.SuffixApart(f, g, "_source");
      DeepStepOther(r, deep, g, f);
    } else {
      forall h | h in init
        ensures f != h && f != h + "_source" && f + "_source" != h && f + "_source" != h + "_source"
      {
        var j :| 0 <= j < |init| && init[j] == h;
        assert fs[j] == h;
        AiExtractor.SuffixApart(f, h, "_source");
      }
      DeepMergedUntouched(m, deep, init, f);
      DeepMergedUntouched(m, deep, init, f + "_source");
      DeepStepOwn(r, m, deep, f);
    }
  }

  /** The step for another field g leaves f and its tag alone. */
  lemma DeepStepOther(r: Dict, deep: Dict, g: string, f: string)
    requires f != g && f + "_source" != g && g + "_source" != f
    ensures Get(DeepStep(r, deep, g), f) == Get(r, f)
    ensures Get(DeepStep(r, deep, g), f + "_source") == Get(r, f + "_source")
  {
    AiExtractor.SuffixApart(f, g, "_source");
  }

  /** The step for f itself, from a dictionary that holds f and its tag as m does. */
  lemma DeepStepOwn(r: Dict, m: Dict, deep: Dict, f: string)
    requires Get(r, f) == Get(m, f) && Get(r, f + "_source") == Get(m, f + "_source")
    ensures Truthy(Get(deep, f)) ==>
              Get(DeepStep(r, deep, f), f) == deep[f] &&
              Get(DeepStep(r, deep, f), f + "_source") == Str("AI_Deep")
    ensures !Truthy(Get(deep, f)) && Truthy(Get(m, f)) && m[f].List? ==>
              Get(DeepStep(r, deep, f), f) == m[f] &&
              Get(DeepStep(r, deep, f), f + "_source") == Str("Regex")
    ensures !Truthy(Get(deep, f)) && !(Truthy(Get(m, f)) && m[f].List?) ==>
              Get(DeepStep(r, deep, f), f) == List([]) &&
              Get(DeepStep(r, deep, f), f + "_source") == Get(m, f + "_source")
  {
    assert |f + "_source"| != |f|;
  }

  lemma HeaderFieldsDistinct()
    ensures MergeFields(V2HeaderFields)
  {
    forall i, j | 0 <= i < |V2HeaderFields| && 0 <= j < |V2HeaderFields|
      ensures V2HeaderFields[i] + "_source" != V2HeaderFields[j]
    {
      assert |V2HeaderFields[i] + "_source"| != |V2HeaderFields[j]|;
    }
  }

  lemma DeepFieldsDistinct()
    ensures MergeFields(DeepFields)
  {
    forall i, j | 0 <= i < |DeepFields| && 0 <= j < |DeepFields|
      ensures DeepFields[i] + "_source" != DeepFields[j]
    {
      assert |DeepFields[i] + "_source"| != |DeepFields[j]|;
    }
  }

  /** Header fields and list fields begin with different letters, and so do their tags. */
  lemma HeaderDeepApart()
    ensures forall h :: h in V2HeaderFields ==> h !in DeepFields && (h + "_source") !in DeepFields
    ensures forall h, g :: h in V2HeaderFields && g in DeepFields ==> h != g + "_source" && h + "_source" != g + "_source"
  {
    forall h, g | h in V2HeaderFields && g in DeepFields
      ensures h != g && h != g + "_source" && h + "_source" != g + "_source" && h + "_source" != g
    {
      assert h[0] != g[0];
      assert (h + "_source")[0] == h[0] && (g + "_source")[0] == g[0];
    }
  }

  /** Both passes of the merge. */
  function MergedV2(regex: Dict, header: Dict, deep: Dict): Dict {
    DeepMerged(Filled(regex, header, V2HeaderFields), deep, DeepFields)
  }

  /**
   * validate_and_enhance as written: a missing deep result fails on
   * `.get`, and the name comparison reads `ai_results`, a name defined
   * nowhere in the method, so every merged result with a name raises
   * NameError.
   */
  function EnhancedV2AsWritten(available: bool, regex: Dict, header: Dict, deep: Option<Dict>): Outcome<Dict> {
    if !available then Returned(regex)
    else if deep.None? then Raised("AttributeError")
    else
      var m := MergedV2(regex, header, deep.value);
      if Truthy(Get(m, "name")) then Raised("NameError") else Returned(m["ai_enhanced" := Bool(true)])
  }

  /** The merged name is the regex name when there is one, else the header name when there is one. */
  lemma MergedV2Name(regex: Dict, header: Dict, deep: Dict)
    ensures Truthy(Get(regex, "name")) ==> Get(MergedV2(regex, header, deep), "name") == Get(regex, "name")
    ensures !Truthy(Get(regex, "name")) && Truthy(Get(header, "name")) ==>
              Get(MergedV2(regex, header, deep), "name") == header["name"]
    ensures !Truthy(Get(regex, "name")) && !Truthy(Get(header, "name")) ==>
              !Truthy(Get(MergedV2(regex, header, deep), "name"))
  {
    HeaderFieldsDistinct();
    HeaderDeepApart();
    FilledAt(regex, header, V2HeaderFields, "name");
    DeepMergedUntouched(Filled(regex, header, V2HeaderFields), deep, DeepFields, "name");
  }

  /**
   * As written, whenever either the regex results or the header call found
   * a name, the enhancement raises NameError instead of returning.
   */
  lemma EnhancedV2AsWrittenRaises(regex: Dict, header: Dict, deep: Dict)
    ensures EnhancedV2AsWritten(true, regex, header, Some(deep)) == Raised("NameError") <==>
              Truthy(Get(regex, "name")) || Truthy(Get(header, "name"))
  {
    MergedV2Name(regex, header, deep);
  }

  /** A concrete input: a regex name "Taro" and nothing from the model. */
  lemma EnhancedV2AsWrittenExample()
    ensures EnhancedV2AsWritten(true, map["name" := Str("Taro")], map[], Some(map[])) == Raised("NameError")
  {
    EnhancedV2AsWrittenRaises(map["name" := Str("Taro")], map[], map[]);
  }

  /**
   * validate_and_enhance as intended: the name comparison reads the header
   * call's results, as in the first extractor, and so raises only when a
   * name is not a string.
   */
  function EnhancedV2(available: bool, regex: Dict, header: Dict, deep: Option<Dict>): Outcome<Dict> {
    if !available then Returned(regex)
    else if deep.None? then Raised("AttributeError")
    else
      var m := MergedV2(regex, header, deep.value);
      if NameCheckRaises(m, header) then Raised("AttributeError") else Returned(m["ai_enhanced" := Bool(true)])
  }

  /**
   * The corrected enhancement returns whenever both names are strings (or
   * absent) and the deep call produced a result; it raises only on a
   * missing deep result or a non-string name.
   */
  lemma EnhancedV2Returns(regex: Dict, header: Dict, deep: Option<Dict>)
    ensures EnhancedV2(false, regex, header, deep) == Returned(regex)
    ensures EnhancedV2(true, regex, header, deep).Raised? <==>
              deep.None? || NameCheckRaises(MergedV2(regex, header, deep.value), header)
    ensures deep.Some? && !NonString(Get(regex, "name")) && !NonString(Get(header, "name")) ==>
              EnhancedV2(true, regex, header, deep).Returned?
  {
    if deep.Some? {
      MergedV2Name(regex, header, deep.value);
    }
  }

  /** A returned enhancement is the merge with ai_enhanced set. */
  lemma EnhancedV2Value(regex: Dict, header: Dict, deep: Dict, k: string)
    requires k != "ai_enhanced"
    ensures var r := EnhancedV2(true, regex, header, Some(deep));
            r.Returned? ==> Get(r.value, k) == Get(MergedV2(regex, header, deep), k) &&
                            Get(r.value, "ai_enhanced") == Bool(true)
  {
  }

  /** On a header field the regex value wins under "Regex", and the header call fills a gap under "AI". */
  lemma EnhancedV2HeaderFacts(regex: Dict, header: Dict, deep: Dict, f: string)
    requires f in V2HeaderFields
    ensures var r := EnhancedV2(true, regex, header, Some(deep));
            r.Returned? ==>
              Get(r.value, "ai_enhanced") == Bool(true) &&
              (Truthy(Get(regex, f)) ==>
                 Get(r.value, f) == regex[f] && Get(r.value, f + "_source") == Str("Regex")) &&
              (!Truthy(Get(regex, f)) && Truthy(Get(header, f)) ==>
                 Get(r.value, f) == header[f] && Get(r.value, f + "_source") == Str("AI"))
  {
    MergedV2HeaderAt(regex, header, deep, f);
    assert (f + "_source")[0] == f[0] != 'a';
    EnhancedV2Value(regex, header, deep, f);
    EnhancedV2Value(regex, header, deep, f + "_source");
  }

  /** Both passes on a header field: the first pass decides it and the second leaves it alone. */
  lemma MergedV2HeaderAt(regex: Dict, header: Dict, deep: Dict, f: string)
    requires f in V2HeaderFields
    ensures var r := MergedV2(regex, header, deep);
            (Truthy(Get(regex, f)) ==>
               Get(r, f) == regex[f] && Get(r, f + "_source") == Str("Regex")) &&
            (!Truthy(Get(regex, f)) && Truthy(Get(header, f)) ==>
               Get(r, f) == header[f] && Get(r, f + "_source") == Str("AI"))
  {
    HeaderFieldsDistinct();
    HeaderDeepApart();
    var m := Filled(regex, header, V2HeaderFields);
    FilledAt(regex, header, V2HeaderFields, f);
    DeepMergedUntouched(m, deep, DeepFields, f);
    DeepMergedUntouched(m, deep, DeepFields, f + "_source");
  }

  /**
   * On a list field a truthy deep value wins under "AI_Deep", a non-empty
   * regex list stays under "Regex", and otherwise the field is [].
   */
  lemma EnhancedV2DeepFacts(regex: Dict, header: Dict, deep: Dict, f: string)
    requires f in DeepFields
    ensures var r := EnhancedV2(true, regex, header, Some(deep));
            r.Returned? ==>
              (Truthy(Get(deep, f)) ==>
                 Get(r.value, f) == deep[f] && Get(r.value, f + "_source") == Str("AI_Deep")) &&
              (!Truthy(Get(deep, f)) && Truthy(Get(regex, f)) && regex[f].List? ==>
                 Get(r.value, f) == regex[f] && Get(r.value, f + "_source") == Str("Regex")) &&
              (!Truthy(Get(deep, f)) && !(Truthy(Get(regex, f)) && regex[f].List?) ==>
                 Get(r.value, f) == List([]))
  {
    MergedV2DeepAt(regex, header, deep, f);
    assert f[0] != 'a' && (f + "_source")[0] == f[0];
    EnhancedV2Value(regex, header, deep, f);
    EnhancedV2Value(regex, header, deep, f + "_source");
  }

  /** Both passes on a list field: the first pass leaves it alone and the second decides it. */
  lemma MergedV2DeepAt(regex: Dict, header: Dict, deep: Dict, f: string)
    requires f in DeepFields
    ensures var r := MergedV2(regex, header, deep);
            (Truthy(Get(deep, f)) ==>
               Get(r, f) == deep[f] && Get(r, f + "_source") == Str("AI_Deep")) &&
            (!Truthy(Get(deep, f)) && Truthy(Get(regex, f)) && regex[f].List? ==>
               Get(r, f) == regex[f] && Get(r, f + "_source") == Str("Regex")) &&
            (!Truthy(Get(deep, f)) && !(Truthy(Get(regex, f)) && regex[f].List?) ==>
               Get(r, f) == List([]))
  {
    DeepFieldsDistinct();
    HeaderDeepApart();
    var m := Filled(regex, header, V2HeaderFields);
    FilledUntouched(regex, header, V2HeaderFields, f);
    DeepMergedAt(m, deep, DeepFields, f);
  }

  /** validate_and_enhance with the name check corrected: the header loop, then the list loop. */
  method ValidateAndEnhanceV2(available: bool, regex: Dict, today: Date, headerReply: Option<string>,
                              deepReply: Option<string>, loads: string -> Option<Dict>) returns (r: Outcome<Dict>)
    requires Valid(today)
    ensures r == EnhancedV2(available, regex, AllFieldsV2(available, today, headerReply, loads),
                            DeepFieldsV2(available, deepReply, loads))
  {
    if !available {
      return Returned(regex);
    }
    var header := AllFieldsV2(available, today, headerReply, loads);
    var deep := DeepFieldsV2(available, deepReply, loads);
    var m := FillFields(regex, header, V2HeaderFields);
    if deep.None? {
      return Raised("AttributeError");
    }
    m := MergeDeep(m, deep.value, DeepFields);
    if NameCheckRaises(m, header) {
      return Raised("AttributeError");
    }
    return Returned(m["ai_enhanced" := Bool(true)]);
  }
}
