/**
 * The evaluation framework (evaluator.py): the four contact fields of an
 * extraction are compared with the labelled ground truth, each classed as
 * exact, fuzzy, partial, wrong, missing or without ground truth, and the
 * classes are counted per field into accuracy figures.
 *
 * fuzz.ratio is the oracle `similarity`; loading the dataset, running the
 * extractor and printing the report are outside the model.
 */
module Evaluator {
  import opened Text
  import opened Json
  import opened Calendar

  const EvalFields: seq<string> := ["name", "email", "phone", "date_of_birth"]

  datatype MatchType = Exact | Fuzzy | Partial | Wrong | Missing | NoGroundTruth

  /** The 'correct' flag of a comparison: exact and fuzzy matches. */
  predicate Correct(m: MatchType) {
    m == Exact || m == Fuzzy
  }

  // ---------------------------------------------------------------------------
  // _normalize_value
  // ---------------------------------------------------------------------------

  /** The alternatives of `\b(Mr|Ms|Mrs|Dr|様|さん|氏)`, lower-cased, in the order they are written. */
  const HonorificsAsWritten: seq<string> := ["mr", "ms", "mrs", "dr", "\U{69D8}", "\U{3055}\U{3093}", "\U{6C0F}"]

  /** The same alternatives with "mrs" tried before its prefix "mr". */
  const Honorifics: seq<string> := ["mrs", "mr", "ms", "dr", "\U{69D8}", "\U{3055}\U{3093}", "\U{6C0F}"]

  /** The length of the first alternative from k on that matches at i, ignoring ASCII case. */
  function AltAt(s: string, i: nat, alts: seq<string>, k: nat): (r: Option<nat>)
    requires i <= |s| && k <= |alts|
    ensures r.Some? ==> 0 < r.value && i + r.value <= |s| && Lower(s[i..i + r.value]) in alts[k..]
    decreases |alts| - k
  {
    if k == |alts| then None
    else if alts[k] != [] && i + |alts[k]| <= |s| && Lower(s[i..i + |alts[k]|]) == alts[k] then Some(|alts[k]|)
    else AltAt(s, i, alts, k + 1)
  }

  /**
   * `\b(alts)\.?\s*` at i: where the match ends. Every alternative starts
   * with a word character, so the boundary means no word character before i.
   */
  function HonorificEnd(s: string, i: nat, alts: seq<string>): (r: Option<nat>)
    requires i <= |s|
    ensures r.Some? ==> i < r.value <= |s|
  {
    if 0 < i && IsWordChar(s[i - 1]) then None
    else
      var a := AltAt(s, i, alts, 0);
      if a.None? then None
      else
        var p := i + a.value;
        var q := if p < |s| && s[p] == '.' then p + 1 else p;
        Some(SkipLeft(s, q, IsSpace))
  }

  /** re.sub of the honorific pattern with '' on s[i..]; the boundary looks at the original text. */
  function StripHonorifics(s: string, i: nat, alts: seq<string>): (r: string)
    requires i <= |s|
    ensures |r| <= |s| - i
    decreases |s| - i
  {
    if i == |s| then []
    else
      var e := HonorificEnd(s, i, alts);
      if e.Some? then StripHonorifics(s, e.value, alts)
      else [s[i]] + StripHonorifics(s, i + 1, alts)
  }

  /**
   * _normalize_value with the given honorific alternatives: whitespace runs
   * collapsed; an email lower-cased; a name stripped of honorifics and
   * collapsed again. The result is always in collapsed form.
   */
  function NormalizeWith(field: string, value: string, alts: seq<string>): (r: string)
    ensures value == [] ==> r == []
    ensures Collapsed(r)
    ensures value != [] && field == "email" ==> r == Lower(Collapse(value))
    ensures value != [] && field != "email" && field != "name" ==> r == Collapse(value)
  {
    if value == [] then []
    else
      var n := Collapse(value);
      CollapseCollapsed(value);
      if field == "email" then
        LowerCollapsed(n);
        StripCollapsed(Lower(n));
        Strip(Lower(n))
      else if field == "name" then
        var c := Collapse(StripHonorifics(n, 0, alts));
        CollapseCollapsed(StripHonorifics(n, 0, alts));
        StripCollapsed(c);
        Strip(c)
      else
        StripCollapsed(n);
        Strip(n)
  }

  /** A name: its honorifics removed from the collapsed text, collapsed again. */
  lemma NormalizeName(value: string, alts: seq<string>)
    requires value != []
    ensures NormalizeWith("name", value, alts) == Strip(Collapse(StripHonorifics(Collapse(value), 0, alts)))
  {
  }

  /** _normalize_value with "Mrs" recognised. */
  function NormalizeValue(field: string, value: string): string {
    NormalizeWith(field, value, Honorifics)
  }

  /** Normalizing an email, phone or date a second time changes nothing. */
  lemma NormalizeIdempotent(field: string, value: string)
    requires field != "name"
    ensures NormalizeValue(field, NormalizeValue(field, value)) == NormalizeValue(field, value)
  {
    var r := NormalizeValue(field, value);
    if r != [] {
      CollapseFixpoint(r);
      if field == "email" {
        LowerIdempotent(Collapse(value));
      }
    }
  }

  /** Text that differs only in its whitespace runs normalizes the same way. */
  lemma NormalizeIgnoresSpacing(field: string, a: string, b: string, alts: seq<string>)
    requires a != [] && b != [] && Collapse(a) == Collapse(b)
    ensures NormalizeWith(field, a, alts) == NormalizeWith(field, b, alts)
  {
  }

  /** No alternative matches at i when none starts with the lower-cased character there. */
  lemma {:induction false} AltNeedsInitial(s: string, i: nat, alts: seq<string>, k: nat)
    requires i < |s| && k <= |alts|
    requires forall j :: k <= j < |alts| && alts[j] != [] ==> alts[j][0] != LowerChar(s[i])
    ensures AltAt(s, i, alts, k).None?
    decreases |alts| - k
  {
    if k < |alts| {
      if alts[k] != [] && i + |alts[k]| <= |s| {
        assert Lower(s[i..i + |alts[k]|])[0] == LowerChar(s[i]);
      }
      AltNeedsInitial(s, i, alts, k + 1);
    }
  }

  /** No honorific starts with "i". */
  lemma HonorificInitials()
    ensures forall j :: 0 <= j < |HonorificsAsWritten| && HonorificsAsWritten[j] != [] ==> HonorificsAsWritten[j][0] != 'i'
    ensures forall j :: 0 <= j < |Honorifics| && Honorifics[j] != [] ==> Honorifics[j][0] != 'i'
  {
  }

  /** "Ito" after a space, then its last two letters: nothing to strip. */
  lemma StripIto(s: string, i: nat, alts: seq<string>)
    requires i + 3 == |s| && s[i..] == "Ito" && (i == 0 || s[i - 1] == ' ')
    requires forall j :: 0 <= j < |alts| && alts[j] != [] ==> alts[j][0] != 'i'
    ensures StripHonorifics(s, i, alts) == "Ito"
  {
    assert s[i] == 'I' && s[i + 1] == 't' && s[i + 2] == 'o';
    AltNeedsInitial(s, i, alts, 0);
    assert HonorificEnd(s, i, alts).None?;
    assert HonorificEnd(s, i + 1, alts).None?;
    assert HonorificEnd(s, i + 2, alts).None?;
    assert StripHonorifics(s, i + 3, alts) == [];
    assert StripHonorifics(s, i + 2, alts) == "o";
    assert StripHonorifics(s, i + 1, alts) == "to";
  }

  /** As written, "Mr" matches first and the "s" stays: "Mrs Ito" becomes "s Ito". */
  lemma StripMrsAsWritten()
    ensures StripHonorifics("Mrs Ito", 0, HonorificsAsWritten) == "s Ito"
  {
    var s := "Mrs Ito";
    var alts := HonorificsAsWritten;
    HonorificInitials();
    assert Lower(s[0..2]) == "mr";
    assert AltAt(s, 0, alts, 0) == Some(2);
    assert SkipLeft(s, 2, IsSpace) == 2;
    assert HonorificEnd(s, 0, alts) == Some(2);
    StripIto(s, 4, alts);
    assert s[1] == 'r' && s[2] == 's';
    assert IsWordChar(s[1]) && IsWordChar(s[2]);
    assert HonorificEnd(s, 3, alts).None?;
    assert HonorificEnd(s, 2, alts).None?;
    assert StripHonorifics(s, 3, alts) == " Ito";
  }

  /** With "Mrs" first, "Mrs Ito" becomes "Ito". */
  lemma StripMrs()
    ensures StripHonorifics("Mrs Ito", 0, Honorifics) == "Ito"
  {
    var s := "Mrs Ito";
    var alts := Honorifics;
    HonorificInitials();
    assert Lower(s[0..3]) == "mrs";
    assert AltAt(s, 0, alts, 0) == Some(3);
    assert SkipLeft(s, 3, IsSpace) == 4;
    assert HonorificEnd(s, 0, alts) == Some(4);
    StripIto(s, 4, alts);
  }

  /** Two words joined by one space are in collapsed form. */
  lemma TwoWordsCollapse(a: string, b: string)
    requires a != [] && b != [] && NoSpace(a) && NoSpace(b)
    ensures Collapse(a + " " + b) == a + " " + b
  {
    JoinWordsCollapsed([a, b]);
    assert Join(" ", [a, b]) == a + " " + b;
    CollapseFixpoint(a + " " + b);
  }

  /** One word is in collapsed form. */
  lemma OneWordCollapse(a: string)
    requires a != [] && NoSpace(a)
    ensures Collapse(a) == a
  {
    JoinWordsCollapsed([a]);
    CollapseFixpoint(a);
  }

  /** The sample names are already in collapsed form. */
  lemma MrsItoCollapsed()
    ensures Collapse("Mrs Ito") == "Mrs Ito"
  {
    assert NoSpace("Mrs") && NoSpace("Ito");
    TwoWordsCollapse("Mrs", "Ito");
    assert "Mrs" + " " + "Ito" == "Mrs Ito";
  }

  lemma SItoCollapsed()
    ensures Collapse("s Ito") == "s Ito"
  {
    assert NoSpace("s") && NoSpace("Ito");
    TwoWordsCollapse("s", "Ito");
    assert "s" + " " + "Ito" == "s Ito";
  }

  lemma ItoCollapsed()
    ensures Collapse("Ito") == "Ito"
  {
    assert NoSpace("Ito");
    OneWordCollapse("Ito");
  }

  /** As written, "Mrs Ito" normalizes to "s Ito", so it never equals the normalized "Ito". */
  lemma MrsAsWritten()
    ensures NormalizeWith("name", "Mrs Ito", HonorificsAsWritten) == "s Ito"
  {
    NormalizeName("Mrs Ito", HonorificsAsWritten);
    MrsItoCollapsed();
    SItoCollapsed();
    StripMrsAsWritten();
    StripUnspaced("s Ito");
  }

  /** With "Mrs" recognised, "Mrs Ito" normalizes to "Ito", as "Ito" itself does. */
  lemma MrsRecognised()
    ensures NormalizeValue("name", "Mrs Ito") == NormalizeValue("name", "Ito") == "Ito"
  {
    HonorificInitials();
    NormalizeName("Mrs Ito", Honorifics);
    NormalizeName("Ito", Honorifics);
    MrsItoCollapsed();
    ItoCollapsed();
    StripMrs();
    StripIto("Ito", 0, Honorifics);
    StripUnspaced("Ito");
  }

  // ---------------------------------------------------------------------------
  // _parse_date
  // ---------------------------------------------------------------------------

  /**
   * _parse_date: "" gives None; text already shaped YYYY-MM-DD is returned
   * as it is; otherwise the first year-first date (year, month, day) and
   * then the first year-last date, read month first; else None.
   */
  function ParseDate(s: string): (r: Option<string>)
    ensures s == [] ==> r.None?
    ensures s != [] && IsoShape(s) ==> r == Some(s)
    ensures r.Some? ==> IsoShape(r.value)
  {
    if s == [] then None
    else if IsoShape(s) then Some(s)
    else
      var ymd := YmdSearch(s, 0, "/-", "/-");
      if ymd.Some? then
        var g := ymd.value;
        DashedShape(g.g1, TwoDigits(g.g2), TwoDigits(g.g3));
        Some(g.g1 + "-" + TwoDigits(g.g2) + "-" + TwoDigits(g.g3))
      else
        var mdy := MdySearch(s, 0, "/-");
        if mdy.Some? then
          var g := mdy.value;
          DashedShape(g.g3, TwoDigits(g.g1), TwoDigits(g.g2));
          Some(g.g3 + "-" + TwoDigits(g.g1) + "-" + TwoDigits(g.g2))
        else None
  }

  /** A parsed date parses to itself, so comparing parsed dates is comparing canonical forms. */
  lemma ParseDateIdempotent(s: string)
    requires ParseDate(s).Some?
    ensures ParseDate(ParseDate(s).value) == ParseDate(s)
  {
  }

  /**
   * The numbers a rewritten date spells are the numbers found in the text:
   * year, month, day for a year-first date; for a year-last date the first
   * number is read as the month and the second as the day.
   */
  lemma ParseDateFields(s: string)
    requires ParseDate(s).Some? && !IsoShape(s)
    ensures var d := IsoFields(ParseDate(s).value);
            var ymd := YmdSearch(s, 0, "/-", "/-");
            var mdy := MdySearch(s, 0, "/-");
            (ymd.Some? ==> d == Date(DigitsValue(ymd.value.g1), DigitsValue(ymd.value.g2), DigitsValue(ymd.value.g3))) &&
            (ymd.None? ==> mdy.Some? && d == Date(DigitsValue(mdy.value.g3), DigitsValue(mdy.value.g1), DigitsValue(mdy.value.g2)))
  {
    var ymd := YmdSearch(s, 0, "/-", "/-");
    if ymd.Some? {
      var g := ymd.value;
      DashedShape(g.g1, TwoDigits(g.g2), TwoDigits(g.g3));
    } else {
      var g := MdySearch(s, 0, "/-").value;
      DashedShape(g.g3, TwoDigits(g.g1), TwoDigits(g.g2));
    }
  }

  // ---------------------------------------------------------------------------
  // _determine_match_quality
  // ---------------------------------------------------------------------------

  /**
   * The phone branch as written: the same digits are a fuzzy match, and
   * digits found inside the truth's digits a partial one, which an empty
   * digit string always is.
   */
  function PhoneMatchAsWritten(ex: string, gt: string): (r: MatchType)
    ensures r == Fuzzy || r == Partial || r == Wrong
    ensures r == Fuzzy <==> Digits(ex) == Digits(gt)
  {
    var ed := Digits(ex);
    var gd := Digits(gt);
    if ed == gd then Fuzzy
    else if gd != [] && Contains(gd, ed) then Partial
    else Wrong
  }

  /** As written, an extracted value with no digit at all is a partial match for any number. */
  lemma NoDigitsPartialAsWritten(ex: string, gt: string)
    requires Digits(ex) == [] && Digits(gt) != []
    ensures PhoneMatchAsWritten(ex, gt) == Partial
  {
    assert OccursAt(Digits(gt), [], 0);
  }

  /** "N/A" has no digit: as written it is a partial match for "03-1234-5678". */
  lemma NotAvailablePartialAsWritten()
    ensures PhoneMatchAsWritten("N/A", "03-1234-5678") == Partial
  {
    DigitsOfNonDigits("N/A");
    var t := "03-1234-5678";
    assert t == "0" + t[1..];
    DigitsAppend("0", t[1..]);
    NoDigitsPartialAsWritten("N/A", t);
  }

  /** With the correction, an extracted phone with no digit is never a partial match. */
  lemma NoDigitsNotPartial(ex: string, gt: string, similarity: (string, string) -> int)
    requires Digits(ex) == []
    ensures MatchQuality("phone", ex, gt, similarity) != Partial
  {
  }

  /** The phone branch with an extracted value that has digits of its own required for a partial match. */
  function PhoneMatch(ex: string, gt: string): (r: MatchType)
    ensures r == Fuzzy || r == Partial || r == Wrong
    ensures r == Fuzzy <==> Digits(ex) == Digits(gt)
    ensures r == Partial ==> 0 < |Digits(ex)| < |Digits(gt)| && exists k :: OccursAt(Digits(gt), Digits(ex), k)
    ensures r == Partial <==> Digits(ex) != Digits(gt) && Digits(ex) != [] && Contains(Digits(gt), Digits(ex))
  {
    var ed := Digits(ex);
    var gd := Digits(gt);
    if ed == gd then Fuzzy
    else if ed != [] && gd != [] && Contains(gd, ed) then
      var k := Find(gd, ed);
      assert gd[k..k + |ed|] == ed;
      assert gd[0..|gd|] == gd;
      Partial
    else Wrong
  }

  /**
   * _determine_match_quality for two non-None values: missing when either
   * is empty; exact when they normalize the same; otherwise by field: a
   * name by its similarity score (90 fuzzy, 70 partial), a phone by its
   * digits, a date by its parsed form; anything else is wrong.
   */
  function MatchQuality(field: string, ex: string, gt: string, similarity: (string, string) -> int): (r: MatchType)
    ensures r != NoGroundTruth
    ensures r == Missing <==> ex == [] || gt == []
    ensures r == Exact <==> ex != [] && gt != [] && NormalizeValue(field, ex) == NormalizeValue(field, gt)
    ensures field == "email" ==> r == Exact || r == Wrong || r == Missing
  {
    if ex == [] || gt == [] then Missing
    else
      var en := NormalizeValue(field, ex);
      var gn := NormalizeValue(field, gt);
      if en == gn then Exact
      else if field == "name" then
        var sim := similarity(Lower(en), Lower(gn));
        if sim >= 90 then Fuzzy else if sim >= 70 then Partial else Wrong
      else if field == "email" then
        LowerIdempotent(Collapse(ex));
        LowerIdempotent(Collapse(gt));
        if Lower(en) == Lower(gn) then Exact else Wrong
      else if field == "phone" then PhoneMatch(ex, gt)
      else if field == "date_of_birth" then
        var ed := ParseDate(ex);
        var gd := ParseDate(gt);
        if ed.Some? && gd.Some? && ed == gd then Fuzzy else Wrong
      else Wrong
  }

  /** Phone numbers written with the same digits are counted correct, whatever their punctuation. */
  lemma SameDigitsCorrect(ex: string, gt: string, similarity: (string, string) -> int)
    requires ex != [] && gt != [] && Digits(ex) == Digits(gt)
    ensures Correct(MatchQuality("phone", ex, gt, similarity))
  {
  }

  /** Dates that parse to the same YYYY-MM-DD are counted correct, whatever their format. */
  lemma SameDateCorrect(ex: string, gt: string, similarity: (string, string) -> int)
    requires ParseDate(ex).Some? && ParseDate(ex) == ParseDate(gt)
    ensures Correct(MatchQuality("date_of_birth", ex, gt, similarity))
  {
  }

  /** Outside names, whether a match is correct does not depend on which side is the truth. */
  lemma CorrectSymmetric(field: string, a: string, b: string, similarity: (string, string) -> int)
    requires field != "name"
    ensures Correct(MatchQuality(field, a, b, similarity)) <==> Correct(MatchQuality(field, b, a, similarity))
  {
  }

  /** A value differing from the truth only in its whitespace runs is an exact match. */
  lemma SpacingExact(field: string, ex: string, gt: string, similarity: (string, string) -> int)
    requires ex != [] && gt != [] && Collapse(ex) == Collapse(gt)
    ensures MatchQuality(field, ex, gt, similarity) == Exact
  {
    NormalizeIgnoresSpacing(field, ex, gt, Honorifics);
  }

  // ---------------------------------------------------------------------------
  // _compare_extraction
  // ---------------------------------------------------------------------------

  /** The four ground-truth values of a labelled sample, None (Null) where it gives none. */
  datatype Truth = Truth(name: Value, email: Value, phone: Value, dob: Value)

  function TruthOf(t: Truth, field: string): Value {
    if field == "name" then t.name
    else if field == "email" then t.email
    else if field == "phone" then t.phone
    else if field == "date_of_birth" then t.dob
    else Null
  }

  /** `x[0] if x else None` on a contact_info entry: the first item of a list, the first character of a string. */
  function FirstOf(v: Value): (r: Outcome<Value>)
    ensures !Truthy(v) ==> r == Returned(Null)
    ensures v.List? && v.items != [] ==> r == Returned(v.items[0])
    ensures r.Raised? <==> Truthy(v) && !v.List? && !v.Str?
  {
    if !Truthy(v) then Returned(Null)
    else match v
      case List(xs) => Returned(xs[0])
      case Str(t) => Returned(Str([t[0]]))
      case Obj(_) => Raised("KeyError")
      case _ => Raised("TypeError")
  }

  /**
   * The ground truth of a sample: the first element when the output is a
   * non-empty list; its candidate_name; the first email and phone of its
   * contact_info and the date_of_birth there. Reading a field of something
   * that is not a dictionary raises.
   */
  function GroundTruth(gt: Value): (r: Outcome<Truth>)
    ensures r.Returned? ==> var d := if gt.List? && gt.items != [] then gt.items[0] else gt;
              d.Obj? && r.value.name == Get(d.fields, "candidate_name")
  {
    var d := if gt.List? && gt.items != [] then gt.items[0] else gt;
    if !d.Obj? then Raised("AttributeError")
    else
      var ci := GetOr(d.fields, "contact_info", Obj(map[]));
      if !ci.Obj? then Raised("AttributeError")
      else
        var e := FirstOf(Get(ci.fields, "email"));
        if e.Raised? then Raised(e.error)
        else
          var p := FirstOf(Get(ci.fields, "phone"));
          if p.Raised? then Raised(p.error)
          else Returned(Truth(Get(d.fields, "candidate_name"), e.value, p.value, Get(ci.fields, "date_of_birth")))
  }

  /** A labelled sample in the dataset's format, bare or as the only element of a list. */
  function Sample(name: string, email: string, phone: string, dob: string): Value {
    Obj(map["candidate_name" := Str(name),
            "contact_info" := Obj(map["email" := List([Str(email)]), "phone" := List([Str(phone)]),
                                      "date_of_birth" := Str(dob)])])
  }

  /** A sample reads back as its four values, whether or not it is wrapped in a list. */
  lemma SampleTruth(name: string, email: string, phone: string, dob: string)
    ensures GroundTruth(Sample(name, email, phone, dob)) == Returned(Truth(Str(name), Str(email), Str(phone), Str(dob)))
    ensures GroundTruth(List([Sample(name, email, phone, dob)])) == GroundTruth(Sample(name, email, phone, dob))
  {
    var ci := map["email" := List([Str(email)]), "phone" := List([Str(phone)]), "date_of_birth" := Str(dob)];
    assert "email" in ci && "phone" in ci && "date_of_birth" in ci;
    assert ci["email"] == List([Str(email)]) && ci["phone"] == List([Str(phone)]);
  }

  /**
   * One field of _compare_extraction: no ground truth when the truth is
   * None; missing when nothing was extracted or either side is empty; else
   * the match quality, which raises on a ground truth that is not a string.
   */
  function CompareField(field: string, ex: Option<string>, gt: Value, similarity: (string, string) -> int)
    : (r: Outcome<MatchType>)
    ensures r == Returned(NoGroundTruth) <==> gt == Null
    ensures gt != Null && ex.None? ==> r == Returned(Missing)
    ensures gt.Str? && ex.Some? ==> r == Returned(MatchQuality(field, ex.value, gt.s, similarity))
    ensures r.Raised? ==> Truthy(gt) && !gt.Str?
  {
    if gt == Null then Returned(NoGroundTruth)
    else if ex.None? then Returned(Missing)
    else if ex.value == [] || !Truthy(gt) then Returned(Missing)
    else if gt.Str? then Returned(MatchQuality(field, ex.value, gt.s, similarity))
    else Raised("AttributeError")
  }

  /** The match types of one sample, by field. */
  type Comparison = map<string, MatchType>

  /** extracted.get(field) */
  function ExValue(ex: map<string, Option<string>>, field: string): Option<string> {
    if field in ex then ex[field] else None
  }

  /** The comparison of the first k fields, or the first error raised. */
  function CompareUpTo(ex: map<string, Option<string>>, t: Truth, similarity: (string, string) -> int, k: nat)
    : (r: Outcome<Comparison>)
    requires k <= |EvalFields|
    ensures r.Returned? ==> r.value.Keys == set j | 0 <= j < k :: EvalFields[j]
    ensures r.Returned? ==> forall j :: 0 <= j < k ==>
              CompareField(EvalFields[j], ExValue(ex, EvalFields[j]), TruthOf(t, EvalFields[j]), similarity)
                == Returned(r.value[EvalFields[j]])
  {
    if k == 0 then Returned(map[])
    else
      var prev := CompareUpTo(ex, t, similarity, k - 1);
      var f := EvalFields[k - 1];
      var c := CompareField(f, ExValue(ex, f), TruthOf(t, f), similarity);
      if prev.Raised? then prev
      else if c.Raised? then Raised(c.error)
      else Returned(prev.value[f := c.value])
  }

  /** Once a field has raised, the comparison raises that error whatever the later fields hold. */
  lemma {:induction false} CompareUpToRaised(ex: map<string, Option<string>>, t: Truth, similarity: (string, string) -> int,
                                            k: nat, n: nat)
    requires k <= n <= |EvalFields| && CompareUpTo(ex, t, similarity, k).Raised?
    ensures CompareUpTo(ex, t, similarity, n) == CompareUpTo(ex, t, similarity, k)
    decreases n - k
  {
    if k < n {
      CompareUpToRaised(ex, t, similarity, k, n - 1);
    }
  }

  /** One more field compared: its error, or its result added to the comparison so far. */
  lemma CompareUpToStep(ex: map<string, Option<string>>, t: Truth, similarity: (string, string) -> int,
                        i: nat, comparison: Comparison, c: Outcome<MatchType>)
    requires i < |EvalFields| && CompareUpTo(ex, t, similarity, i) == Returned(comparison)
    requires c == CompareField(EvalFields[i], ExValue(ex, EvalFields[i]), TruthOf(t, EvalFields[i]), similarity)
    ensures CompareUpTo(ex, t, similarity, i + 1)
              == if c.Raised? then Raised(c.error) else Returned(comparison[EvalFields[i] := c.value])
  {
  }

  /** _compare_extraction as a value: the ground truth read, then every field compared. */
  function Comparisons(ex: map<string, Option<string>>, gt: Value, similarity: (string, string) -> int)
    : Outcome<Comparison>
  {
    var t := GroundTruth(gt);
    if t.Raised? then Raised(t.error) else CompareUpTo(ex, t.value, similarity, |EvalFields|)
  }

  /** _compare_extraction: the fields compared in order; the first error ends it. */
  method CompareExtraction(ex: map<string, Option<string>>, gt: Value, similarity: (string, string) -> int)
    returns (r: Outcome<Comparison>)
    ensures r == Comparisons(ex, gt, similarity)
  {
    var t := GroundTruth(gt);
    if t.Raised? {
      return Raised(t.error);
    }
    var comparison: Comparison := map[];
    var i := 0;
    while i < |EvalFields|
      invariant 0 <= i <= |EvalFields|
      invariant CompareUpTo(ex, t.value, similarity, i) == Returned(comparison)
    {
      var f := EvalFields[i];
      var c := CompareField(f, ExValue(ex, f), TruthOf(t.value, f), similarity);
      CompareUpToStep(ex, t.value, similarity, i, comparison, c);
      if c.Raised? {
        CompareUpToRaised(ex, t.value, similarity, i + 1, |EvalFields|);
        return Raised(c.error);
      }
      comparison := comparison[f := c.value];
      i := i + 1;
    }
    return Returned(comparison);
  }

  /**
   * A comparison covers the four fields; a field has no ground truth
   * exactly when its truth is None, and is missing when the extractor gave
   * nothing for a field that has a truth.
   */
  lemma ComparisonsFacts(ex: map<string, Option<string>>, gt: Value, similarity: (string, string) -> int, f: string)
    requires Comparisons(ex, gt, similarity).Returned? && f in EvalFields
    ensures var c := Comparisons(ex, gt, similarity).value;
            var t := GroundTruth(gt).value;
            c.Keys == set g | g in EvalFields &&
            (c[f] == NoGroundTruth <==> TruthOf(t, f) == Null) &&
            (TruthOf(t, f) != Null && ExValue(ex, f).None? ==> c[f] == Missing)
  {
    var c := Comparisons(ex, gt, similarity).value;
    var j :| 0 <= j < |EvalFields| && EvalFields[j] == f;
    assert (set j | 0 <= j < |EvalFields| :: EvalFields[j]) == set g | g in EvalFields;
  }

  // ---------------------------------------------------------------------------
  // _calculate_metrics
  // ---------------------------------------------------------------------------

  /** The counters of one field; accuracy is a percentage, exact here where Python rounds to a float. */
  datatype FieldStats = FieldStats(total: nat, correct: nat, exact: nat, fuzzy: nat, partial: nat,
                                   wrong: nat, missing: nat, accuracy: real)

  const NoStats := FieldStats(0, 0, 0, 0, 0, 0, 0, 0.0)

  /** comp.get(field, {}).get('match_type'): None when the comparison lacks the field. */
  function TypeIn(c: Comparison, f: string): Option<MatchType> {
    if f in c then Some(c[f]) else None
  }

  /** One result counted: skipped without ground truth, else one more in total and in its bucket; None counts as wrong. */
  function CountOne(st: FieldStats, m: Option<MatchType>): FieldStats {
    if m == Some(NoGroundTruth) then st
    else
      var s1 := st.(total := st.total + 1);
      if m == Some(Exact) then s1.(exact := s1.exact + 1, correct := s1.correct + 1)
      else if m == Some(Fuzzy) then s1.(fuzzy := s1.fuzzy + 1, correct := s1.correct + 1)
      else if m == Some(Partial) then s1.(partial := s1.partial + 1)
      else if m == Some(Missing) then s1.(missing := s1.missing + 1)
      else s1.(wrong := s1.wrong + 1)
  }

  /** The counters of one field over the results, before the accuracy is filled in. */
  function Tally(results: seq<Comparison>, f: string): (r: FieldStats)
    ensures r.total == r.exact + r.fuzzy + r.partial + r.wrong + r.missing
    ensures r.correct == r.exact + r.fuzzy
    ensures r.total <= |results|
    ensures r.accuracy == 0.0
  {
    if results == [] then NoStats
    else CountOne(Tally(results[..|results| - 1], f), TypeIn(results[|results| - 1], f))
  }

  /** The buckets, as classes of match types. */
  datatype Bucket = Graded | CorrectOnes | ExactOnes | FuzzyOnes | PartialOnes | MissingOnes | WrongOnes

  predicate InBucket(m: Option<MatchType>, b: Bucket) {
    match b
    case Graded => m != Some(NoGroundTruth)
    case CorrectOnes => m == Some(Exact) || m == Some(Fuzzy)
    case ExactOnes => m == Some(Exact)
    case FuzzyOnes => m == Some(Fuzzy)
    case PartialOnes => m == Some(Partial)
    case MissingOnes => m == Some(Missing)
    case WrongOnes => m == None || m == Some(Wrong)
  }

  /** The number of results whose type for f lies in bucket b. */
  function NumberOf(results: seq<Comparison>, f: string, b: Bucket): nat {
    if results == [] then 0
    else NumberOf(results[1..], f, b) + (if InBucket(TypeIn(results[0], f), b) then 1 else 0)
  }

  lemma {:induction false} NumberOfSnoc(results: seq<Comparison>, c: Comparison, f: string, b: Bucket)
    ensures NumberOf(results + [c], f, b) == NumberOf(results, f, b) + (if InBucket(TypeIn(c, f), b) then 1 else 0)
  {
    if results != [] {
      assert (results + [c])[1..] == results[1..] + [c];
      NumberOfSnoc(results[1..], c, f, b);
    }
  }

  /** The counter a bucket is kept in. */
  function Counter(st: FieldStats, b: Bucket): nat {
    match b
    case Graded => st.total
    case CorrectOnes => st.correct
    case ExactOnes => st.exact
    case FuzzyOnes => st.fuzzy
    case PartialOnes => st.partial
    case MissingOnes => st.missing
    case WrongOnes => st.wrong
  }

  lemma CountOneCounter(st: FieldStats, m: Option<MatchType>, b: Bucket)
    ensures Counter(CountOne(st, m), b) == Counter(st, b) + (if InBucket(m, b) then 1 else 0)
  {
    match m
    case None =>
    case Some(t) =>
      match t
      case Exact =>
      case Fuzzy =>
      case Partial =>
      case Wrong =>
      case Missing =>
      case NoGroundTruth =>
  }

  /**
   * Each counter counts exactly its samples: total the samples with a
   * ground truth, correct the exact and fuzzy ones, and each bucket its
   * own match type (an absent one among the wrong).
   */
  lemma {:induction false} TallyCounts(results: seq<Comparison>, f: string, b: Bucket)
    ensures Counter(Tally(results, f), b) == NumberOf(results, f, b)
  {
    if results != [] {
      var init := results[..|results| - 1];
      var c := results[|results| - 1];
      assert results == init + [c];
      TallyCounts(init, f, b);
      NumberOfSnoc(init, c, f, b);
      CountOneCounter(Tally(init, f), TypeIn(c, f), b);
    }
  }

  /** correct / total * 100, or 0 when nothing was counted. */
  function Accuracy(correct: nat, total: nat): real {
    if total > 0 then (correct as real / total as real) * 100.0 else 0.0
  }

  /** An accuracy lies between 0 and 100, and is 100 exactly when every counted sample is correct. */
  lemma AccuracyRange(correct: nat, total: nat)
    requires correct <= total
    ensures 0.0 <= Accuracy(correct, total) <= 100.0
    ensures Accuracy(correct, total) == 100.0 <==> total > 0 && correct == total
    ensures Accuracy(correct, total) == 0.0 <==> correct == 0
  {
    if total > 0 {
      var q := correct as real / total as real;
      assert q * total as real == correct as real;
      assert q <= 1.0;
    }
  }

  /** A field's counters with their accuracy. */
  function WithAccuracy(st: FieldStats): FieldStats {
    st.(accuracy := Accuracy(st.correct, st.total))
  }

  /** Sums of the totals and of the correct counts over the given fields. */
  function TotalOver(results: seq<Comparison>, fs: seq<string>): nat {
    if fs == [] then 0 else TotalOver(results, fs[..|fs| - 1]) + Tally(results, fs[|fs| - 1]).total
  }

  function CorrectOver(results: seq<Comparison>, fs: seq<string>): (r: nat)
    ensures r <= TotalOver(results, fs)
  {
    if fs == [] then 0 else CorrectOver(results, fs[..|fs| - 1]) + Tally(results, fs[|fs| - 1]).correct
  }

  /** Extending the fields by one adds that field's counts to both sums. */
  lemma OverStep(results: seq<Comparison>, fs: seq<string>, k: nat)
    requires k < |fs|
    ensures TotalOver(results, fs[..k + 1]) == TotalOver(results, fs[..k]) + Tally(results, fs[k]).total
    ensures CorrectOver(results, fs[..k + 1]) == CorrectOver(results, fs[..k]) + Tally(results, fs[k]).correct
  {
    assert fs[..k + 1][..k] == fs[..k];
  }

  datatype Metrics = Metrics(totalSamples: nat, fieldMetrics: map<string, FieldStats>, overall: real)

  /** The inner loop of _calculate_metrics: one field's counters over all results, with its accuracy. */
  method TallyField(results: seq<Comparison>, f: string) returns (st: FieldStats)
    ensures st == WithAccuracy(Tally(results, f))
  {
    st := NoStats;
    var i := 0;
    while i < |results|
      invariant 0 <= i <= |results|
      invariant st == Tally(results[..i], f)
    {
      assert results[..i + 1][..i] == results[..i];
      var matchType := TypeIn(results[i], f);
      if matchType != Some(NoGroundTruth) {
        st := st.(total := st.total + 1);
        if matchType == Some(Exact) {
          st := st.(exact := st.exact + 1, correct := st.correct + 1);
        } else if matchType == Some(Fuzzy) {
          st := st.(fuzzy := st.fuzzy + 1, correct := st.correct + 1);
        } else if matchType == Some(Partial) {
          st := st.(partial := st.partial + 1);
        } else if matchType == Some(Missing) {
          st := st.(missing := st.missing + 1);
        } else {
          st := st.(wrong := st.wrong + 1);
        }
      }
      i := i + 1;
    }
    assert results[..|results|] == results;
    if st.total > 0 {
      st := st.(accuracy := (st.correct as real / st.total as real) * 100.0);
    }
  }

  /**
   * _calculate_metrics: for each field the results are counted into its
   * buckets and its accuracy set; the overall accuracy pools the four
   * fields' correct counts over their totals.
   */
  method CalculateMetrics(results: seq<Comparison>) returns (m: Metrics)
    ensures m.totalSamples == |results|
    ensures m.fieldMetrics.Keys == set f | f in EvalFields
    ensures forall f :: f in m.fieldMetrics ==> m.fieldMetrics[f] == WithAccuracy(Tally(results, f))
    ensures m.overall == Accuracy(CorrectOver(results, EvalFields), TotalOver(results, EvalFields))
  {
    var fieldMetrics: map<string, FieldStats> := map[];
    var k := 0;
    while k < |EvalFields|
      invariant 0 <= k <= |EvalFields|
      invariant fieldMetrics.Keys == set f | f in EvalFields[..k]
      invariant forall f :: f in fieldMetrics ==> fieldMetrics[f] == WithAccuracy(Tally(results, f))
    {
      var f := EvalFields[k];
      assert EvalFields[..k + 1] == EvalFields[..k] + [f];
      var st := TallyField(results, f);
      fieldMetrics := fieldMetrics[f := st];
      k := k + 1;
    }
    assert EvalFields[..|EvalFields|] == EvalFields;
    var totalFields := 0;
    var totalCorrect := 0;
    k := 0;
    while k < |EvalFields|
      invariant 0 <= k <= |EvalFields|
      invariant totalFields == TotalOver(results, EvalFields[..k])
      invariant totalCorrect == CorrectOver(results, EvalFields[..k])
    {
      OverStep(results, EvalFields, k);
      assert EvalFields[k] in fieldMetrics;
      totalFields := totalFields + fieldMetrics[EvalFields[k]].total;
      totalCorrect := totalCorrect + fieldMetrics[EvalFields[k]].correct;
      k := k + 1;
    }
    assert EvalFields[..|EvalFields|] == EvalFields;
    var overall := 0.0;
    if totalFields > 0 {
      overall := (totalCorrect as real / totalFields as real) * 100.0;
    }
    m := Metrics(|results|, fieldMetrics, overall);
  }

  /** Every accuracy the metrics report, per field and overall, lies between 0 and 100. */
  lemma MetricsInRange(results: seq<Comparison>)
    ensures forall f :: 0.0 <= WithAccuracy(Tally(results, f)).accuracy <= 100.0
    ensures 0.0 <= Accuracy(CorrectOver(results, EvalFields), TotalOver(results, EvalFields)) <= 100.0
  {
    forall f
      ensures 0.0 <= WithAccuracy(Tally(results, f)).accuracy <= 100.0
    {
      AccuracyRange(Tally(results, f).correct, Tally(results, f).total);
    }
    AccuracyRange(CorrectOver(results, EvalFields), TotalOver(results, EvalFields));
  }
}
