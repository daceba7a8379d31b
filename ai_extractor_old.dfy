/**
 * The first model-backed extractor (ai_extractor_old.py): one model call for
 * the header fields, a three-stage parse of its reply, post-processing with
 * the shared normalizers, and a merge in which the regex value wins and the
 * model only fills gaps.
 *
 * ai_extractor_old_v2.py defines its own _clean_name, _standardize_phone,
 * _standardize_date and parse ladder with the same text as the ones here,
 * so the model of that file reuses these definitions.
 */
module AiExtractorOld {
  import opened Text
  import opened Json
  import opened Calendar
  import opened Utils
  import MainExtractor
  import AiExtractor

  // ---------------------------------------------------------------------------
  // _clean_name
  // ---------------------------------------------------------------------------

  /** The alternatives of `^(Mr\.|Ms\.|Mrs\.|Dr\.|様|さん|氏)\s*`, in order. */
  const HonorificPrefixes: seq<string> :=
    ["Mr.", "Ms.", "Mrs.", "Dr.", "\U{69D8}", "\U{3055}\U{3093}", "\U{6C0F}"]

  /** The alternatives of `\s*(様|さん|氏)$`, in order. */
  const HonorificSuffixes: seq<string> := ["\U{69D8}", "\U{3055}\U{3093}", "\U{6C0F}"]

  /** The honorific prefix and the whitespace after it removed (case-sensitive). */
  function DropHonorificPrefix(s: string): (r: string)
    ensures |r| <= |s| && r == s[|s| - |r|..]
  {
    match AiExtractor.WordAt(s, 0, HonorificPrefixes)
    case None => s
    case Some(i) => s[SkipLeft(s, |HonorificPrefixes[i]|, IsSpace)..]
  }

  /** Index of the first alternative among ws that s ends with, if any. */
  function EndingWith(s: string, ws: seq<string>): (r: Option<nat>)
    ensures r.Some? ==> r.value < |ws| && EndsWith(s, ws[r.value])
    ensures r.None? ==> forall i :: 0 <= i < |ws| ==> !EndsWith(s, ws[i])
  {
    if ws == [] then None
    else if EndsWith(s, ws[0]) then Some(0)
    else match EndingWith(s, ws[1..])
      case None => None
      case Some(i) => Some(i + 1)
  }

  /**
   * The honorific suffix and the whitespace before it removed. The text has
   * no trailing whitespace, so `$` can only match at its very end.
   */
  function DropHonorificSuffix(s: string): (r: string)
    requires s == [] || !IsSpace(s[|s| - 1])
    ensures |r| <= |s| && r == s[..|r|]
  {
    match EndingWith(s, HonorificSuffixes)
    case None => s
    case Some(i) => s[..SkipRight(s, |s| - |HonorificSuffixes[i]|, IsSpace)]
  }

  /** _clean_name: stripped, then one honorific prefix and one honorific suffix removed. */
  function CleanNameOld(name: string): (r: string)
    ensures |r| <= |name|
  {
    var t := DropHonorificPrefix(Strip(name));
    DropHonorificSuffix(t)
  }

  /** A name with an honorific before it and one after it comes out bare. */
  lemma {:induction false} CleanNameOldDropsHonorifics(p: string, name: string, q: string)
    requires p in HonorificPrefixes && q in HonorificSuffixes
    requires name != [] && !IsSpace(name[0]) && !IsSpace(name[|name| - 1])
    ensures CleanNameOld(p + " " + name + " " + q) == name
  {
    var s := p + " " + name + " " + q;
    var rest := name + " " + q;
    assert s == p + " " + rest;
    assert s[0] == p[0] && s[|s| - 1] == q[|q| - 1];
    StripOfTrimmed(s);
    DropPrefixBefore(p, " ", rest);
    DropSuffixAfter(name, " ", q);
    assert DropHonorificPrefix(Strip(s)) == rest;
  }

  /** An honorific, whitespace, then a text starting with a non-space: the text is what remains. */
  lemma {:induction false} DropPrefixBefore(p: string, spaces: string, rest: string)
    requires p in HonorificPrefixes && rest != [] && !IsSpace(rest[0])
    requires forall k :: 0 <= k < |spaces| ==> IsSpace(spaces[k])
    ensures DropHonorificPrefix(p + spaces + rest) == rest
  {
    var s := p + spaces + rest;
    var n := |p| + |spaces|;
    assert s[..|p|] == p;
    assert s[n] == rest[0];
    assert forall k :: |p| <= k < n ==> s[k] == spaces[k - |p|];
    DropPrefixAt(s, p, n);
    assert s[n..] == rest;
  }

  /** A text that begins with an honorific and whitespace up to n loses exactly that much. */
  lemma DropPrefixAt(s: string, p: string, n: nat)
    requires p in HonorificPrefixes && |p| <= n < |s| && s[..|p|] == p
    requires forall k :: |p| <= k < n ==> IsSpace(s[k])
    requires !IsSpace(s[n])
    ensures DropHonorificPrefix(s) == s[n..]
  {
    var m := AiExtractor.WordAt(s, 0, HonorificPrefixes);
    assert OccursAt(s, p, 0);
    var j :| 0 <= j < |HonorificPrefixes| && HonorificPrefixes[j] == p;
    assert m.Some?;
    var w := HonorificPrefixes[m.value];
    assert s == p + s[|p|..];
    PrefixesApart(w, p, s[|p|..]);
    SkipLeftTo(s, |p|, n);
  }

  /** Whitespace from i up to a non-space at n is skipped to n. */
  lemma SkipLeftTo(s: string, i: nat, n: nat)
    requires i <= n < |s|
    requires forall k :: i <= k < n ==> IsSpace(s[k])
    requires !IsSpace(s[n])
    ensures SkipLeft(s, i, IsSpace) == n
    decreases n - i
  {
    if i < n {
      SkipLeftTo(s, i + 1, n);
    }
  }

  /** Two honorific prefixes both found at the start of a text are the same one. */
  lemma PrefixesApart(w: string, p: string, tail: string)
    requires w in HonorificPrefixes && p in HonorificPrefixes
    requires OccursAt(p + tail, w, 0)
    ensures w == p
  {
    var i :| 0 <= i < |HonorificPrefixes| && HonorificPrefixes[i] == w;
    var j :| 0 <= j < |HonorificPrefixes| && HonorificPrefixes[j] == p;
    if |w| <= |p| {
      assert w == (p + tail)[..|w|] == p[..|w|];
      PrefixFree(i, j);
    } else {
      assert w[..|p|] == (p + tail)[..|p|] == p;
      PrefixFree(j, i);
    }
  }

  /** No honorific prefix begins another one. */
  lemma PrefixFree(i: nat, j: nat)
    requires i < |HonorificPrefixes| && j < |HonorificPrefixes|
    requires |HonorificPrefixes[i]| <= |HonorificPrefixes[j]|
    requires HonorificPrefixes[j][..|HonorificPrefixes[i]|] == HonorificPrefixes[i]
    ensures HonorificPrefixes[i] == HonorificPrefixes[j]
  {
    var a, b := HonorificPrefixes[i], HonorificPrefixes[j];
    assert a[0] == b[0];
    if |a| >= 3 {
      assert a[2] == b[2];
    }
  }

  /** A text ending on a non-space, whitespace, then an honorific: the text is what remains. */
  lemma {:induction false} DropSuffixAfter(name: string, spaces: string, q: string)
    requires q in HonorificSuffixes && name != [] && !IsSpace(name[|name| - 1])
    requires forall k :: 0 <= k < |spaces| ==> IsSpace(spaces[k])
    ensures DropHonorificSuffix(name + spaces + q) == name
  {
    var s := name + spaces + q;
    var n := |name|;
    assert s[|s| - |q|..] == q;
    assert s[n - 1] == name[n - 1];
    assert forall k :: n <= k < n + |spaces| ==> s[k] == spaces[k - n];
    DropSuffixAt(s, q, n);
    assert s[..n] == name;
  }

  /** A text that ends in whitespace from n and then an honorific is cut back to n. */
  lemma DropSuffixAt(s: string, q: string, n: nat)
    requires q in HonorificSuffixes && 0 < n <= |s| - |q| && s[|s| - |q|..] == q
    requires !IsSpace(s[n - 1])
    requires forall k :: n <= k < |s| - |q| ==> IsSpace(s[k])
    ensures DropHonorificSuffix(s) == s[..n]
  {
    assert EndsWith(s, q);
    var m := EndingWith(s, HonorificSuffixes);
    assert m.Some?;
    var w := HonorificSuffixes[m.value];
    SuffixesApart(s, w, q);
    SkipRightTo(s, |s| - |q|, n);
  }

  /** Two honorific suffixes that both end a text are the same one. */
  lemma SuffixesApart(s: string, w: string, q: string)
    requires w in HonorificSuffixes && q in HonorificSuffixes
    requires EndsWith(s, w) && EndsWith(s, q)
    ensures w == q
  {
    assert w[|w| - 1] == s[|s| - 1] == q[|q| - 1];
  }

  /** Whitespace back from j down to a non-space just before n is skipped to n. */
  lemma SkipRightTo(s: string, j: nat, n: nat)
    requires 0 < n <= j <= |s|
    requires forall k :: n <= k < j ==> IsSpace(s[k])
    requires !IsSpace(s[n - 1])
    ensures SkipRight(s, j, IsSpace) == n
    decreases j - n
  {
    if n < j {
      SkipRightTo(s, j - 1, n);
    }
  }

  // ---------------------------------------------------------------------------
  // _standardize_phone
  // ---------------------------------------------------------------------------

  /**
   * _standardize_phone: full-width digits narrowed (the part of NFKC that a
   * phone number meets), then laid out by the count and lead of its digits;
   * anything else is returned as normalized.
   */
  function StandardizePhoneOld(phone: string): (r: string)
  {
    var p := MainExtractor.NarrowDigits(phone);
    var d := Digits(p);
    if |d| == 11 && d[0] == '0' then MainExtractor.Dash3(d, 3, 4)
    else if |d| == 10 && d[0] == '0' then MainExtractor.Dash3(d, 2, 4)
    else if StartsWith(d, "81") then "81-" + Slice(d, 2, 4) + "-" + Slice(d, 4, 8) + "-" + Slice(d, 8, |d|)
    else p
  }

  /**
   * Every layout keeps the digits of the normalized number, in order; an
   * 11-digit number starting with 0 is laid out 3-4-4 and a 10-digit one
   * 2-4-4.
   */
  lemma StandardizePhoneOldKeepsDigits(phone: string)
    ensures Digits(StandardizePhoneOld(phone)) == Digits(MainExtractor.NarrowDigits(phone))
    ensures var d := Digits(MainExtractor.NarrowDigits(phone));
            |d| == 11 && d[0] == '0' ==>
              StandardizePhoneOld(phone) == d[..3] + "-" + d[3..7] + "-" + d[7..]
    ensures var d := Digits(MainExtractor.NarrowDigits(phone));
            |d| == 10 && d[0] == '0' ==>
              StandardizePhoneOld(phone) == d[..2] + "-" + d[2..6] + "-" + d[6..]
  {
    var p := MainExtractor.NarrowDigits(phone);
    var d := Digits(p);
    var r := StandardizePhoneOld(phone);
    if |d| == 11 && d[0] == '0' {
      MainExtractor.Dash3Digits(d, 3, 4);
    } else if |d| == 10 && d[0] == '0' {
      MainExtractor.Dash3Digits(d, 2, 4);
    } else if StartsWith(d, "81") {
      CountryLayoutDigits(d);
    }
  }

  /** The "81-xx-xxxx-rest" layout keeps the digits. */
  lemma CountryLayoutDigits(d: string)
    requires AllDigits(d) && StartsWith(d, "81")
    ensures Digits("81-" + Slice(d, 2, 4) + "-" + Slice(d, 4, 8) + "-" + Slice(d, 8, |d|)) == d
  {
    var a, b, c := Slice(d, 2, 4), Slice(d, 4, 8), Slice(d, 8, |d|);
    SlicesCover(d);
    SeparatorsDigits();
    DigitsOfFormat3("81-", a, "-", b, "-", c);
    var digits := Digits("81-" + a + "-" + b + "-" + c);
    assert digits == "81" + a + [] + b + [] + c;
    assert digits == "81" + (a + b + c);
    assert d == d[..2] + d[2..];
  }

  /** The three clamped slices after the country code cover the rest of the digits. */
  lemma SlicesCover(d: string)
    requires |d| >= 2 && AllDigits(d)
    ensures Slice(d, 2, 4) + Slice(d, 4, 8) + Slice(d, 8, |d|) == d[2..]
    ensures AllDigits(Slice(d, 2, 4)) && AllDigits(Slice(d, 4, 8)) && AllDigits(Slice(d, 8, |d|))
  {
    var a, b, c := Slice(d, 2, 4), Slice(d, 4, 8), Slice(d, 8, |d|);
    if |d| <= 4 {
      assert a == d[2..] && b == [] && c == [];
    } else if |d| <= 8 {
      assert a == d[2..4] && b == d[4..] && c == [];
      assert d[2..] == d[2..4] + d[4..];
    } else {
      assert a == d[2..4] && b == d[4..8] && c == d[8..];
      assert d[2..] == d[2..4] + d[4..8] + d[8..];
    }
  }

  lemma SeparatorsDigits()
    ensures Digits("81-") == "81" && Digits("-") == [] && Digits("") == []
  {
    assert "81-"[1..] == "1-";
    assert "1-"[1..] == "-";
  }

  // ---------------------------------------------------------------------------
  // _standardize_date
  // ---------------------------------------------------------------------------

  /** The year-first pattern of _standardize_date: `/` or 年 after the year, `/` or 月 after the month. */
  const KanjiSep1: string := "/\U{5E74}"
  const KanjiSep2: string := "/\U{6708}"

  /**
   * _standardize_date: text matching `^\d{4}-\d{2}-\d{2}$` is returned as it
   * is; else the first year-first date, then the first m/d/yyyy date, is
   * rebuilt as year-month-day with a two-digit month and day. No calendar
   * or age check is applied.
   */
  function StandardizeDateOld(s: string): (r: Option<string>)
    ensures IsoShape(s) ==> r == Some(s)
  {
    if IsoShape(s) then Some(s)
    else match YmdSearch(s, 0, KanjiSep1, KanjiSep2)
      case Some(g) =>
        Some(NatToString(DigitsValue(g.g1)) + "-" + Pad(DigitsValue(g.g2), 2) + "-" + Pad(DigitsValue(g.g3), 2))
      case None =>
        match MdySearch(s, 0, "/")
        case Some(g) =>
          Some(NatToString(DigitsValue(g.g3)) + "-" + Pad(DigitsValue(g.g1), 2) + "-" + Pad(DigitsValue(g.g2), 2))
        case None => None
  }

  /** A date written with 年, 月 and 日 is rebuilt year first with a padded month and day. */
  lemma KanjiDateRebuilt(y: string, m: string, d: string)
    requires |y| == 4 && AllDigits(y)
    requires 1 <= |m| <= 2 && AllDigits(m) && 1 <= |d| <= 2 && AllDigits(d)
    ensures StandardizeDateOld(y + "\U{5E74}" + m + "\U{6708}" + d + "\U{65E5}") ==
            Some(NatToString(DigitsValue(y)) + "-" + Pad(DigitsValue(m), 2) + "-" + Pad(DigitsValue(d), 2))
  {
    var s := y + "\U{5E74}" + m + "\U{6708}" + d + "\U{65E5}";
    KanjiDateMatches(y, m, d);
    assert YmdSearch(s, 0, KanjiSep1, KanjiSep2) == Some(Groups(y, m, d));
  }

  /** The year-first pattern matches such a date at its start, with its three numbers as groups. */
  lemma KanjiDateMatches(y: string, m: string, d: string)
    requires |y| == 4 && AllDigits(y)
    requires 1 <= |m| <= 2 && AllDigits(m) && 1 <= |d| <= 2 && AllDigits(d)
    ensures var s := y + "\U{5E74}" + m + "\U{6708}" + d + "\U{65E5}";
            !IsoShape(s) && YmdAt(s, 0, KanjiSep1, KanjiSep2) == Some(Groups(y, m, d))
  {
    var s := y + "\U{5E74}" + m + "\U{6708}" + d + "\U{65E5}";
    assert s[4] == '\U{5E74}';
    assert s[0..4] == y;
    assert s[5..5 + |m|] == m;
    assert s[5 + |m|] == '\U{6708}';
    var q := 6 + |m|;
    assert s[q..q + |d|] == d;
    assert s[q + |d|] == '\U{65E5}';
  }

  /** m/d/yyyy is reordered to yyyy-mm-dd: the month and the day keep their meaning. */
  lemma SlashDateReordered(m: string, d: string, y: string)
    requires 1 <= |m| <= 2 && AllDigits(m) && 1 <= |d| <= 2 && AllDigits(d)
    requires |y| == 4 && AllDigits(y)
    ensures StandardizeDateOld(m + "/" + d + "/" + y) ==
            Some(NatToString(DigitsValue(y)) + "-" + Pad(DigitsValue(m), 2) + "-" + Pad(DigitsValue(d), 2))
  {
    var s := m + "/" + d + "/" + y;
    SlashDateNoYearFirst(m, d, y);
    SlashDateMatches(m, d, y);
    assert YmdSearch(s, 0, KanjiSep1, KanjiSep2).None?;
  }

  /** Such a date has no ISO shape and no year-first date inside it. */
  lemma SlashDateNoYearFirst(m: string, d: string, y: string)
    requires 1 <= |m| <= 2 && AllDigits(m) && 1 <= |d| <= 2 && AllDigits(d)
    requires |y| == 4 && AllDigits(y)
    ensures var s := m + "/" + d + "/" + y;
            !IsoShape(s) && forall k :: 0 <= k <= |s| ==> YmdAt(s, k, KanjiSep1, KanjiSep2).None?
  {
    var s := m + "/" + d + "/" + y;
    var a, b := |m|, |m| + 1 + |d|;
    assert s[a] == '/' && s[b] == '/';
    assert !IsoShape(s) by {
      assert s[4] == '/' || IsDigit(s[4]);
    }
    forall k | 0 <= k <= |s| ensures YmdAt(s, k, KanjiSep1, KanjiSep2).None? {
      if k + 5 <= |s| {
        var j := if k <= a then a else b;
        assert k <= j < k + 4;
        assert s[k..k + 4][j - k] == '/';
      }
    }
  }

  /** The year-last pattern matches such a date at its start, with its three numbers as groups. */
  lemma SlashDateMatches(m: string, d: string, y: string)
    requires 1 <= |m| <= 2 && AllDigits(m) && 1 <= |d| <= 2 && AllDigits(d)
    requires |y| == 4 && AllDigits(y)
    ensures MdyAt(m + "/" + d + "/" + y, 0, "/") == Some(Groups(m, d, y))
  {
    var s := m + "/" + d + "/" + y;
    var a, b := |m|, |m| + 1 + |d|;
    assert s[0..a] == m && s[a + 1..b] == d && s[b + 1..b + 5] == y;
    assert s[a] == '/' && s[b] == '/';
    assert MdyWith(s, 0, |m|, |d|, "/") == Some(Groups(m, d, y));
    if |m| == 1 {
      assert s[0..2][1] == '/';
      if |d| == 1 {
        assert s[2..4][1] == '/';
      }
    } else if |d| == 1 {
      assert s[3..5][1] == '/';
    }
  }

  // ---------------------------------------------------------------------------
  // _parse_ai_response: three stages
  // ---------------------------------------------------------------------------

  predicate IsBrace(c: char) { c == '{' || c == '}' }
  predicate NotBrace(c: char) { !IsBrace(c) }

  /** Text that `\{[^{}]*\}` matches whole: braces at both ends and none between. */
  predicate FlatObjectText(t: string) {
    |t| >= 2 && t[0] == '{' && t[|t| - 1] == '}' && forall k :: 0 < k < |t| - 1 ==> NotBrace(t[k])
  }

  /** `\{[^{}]*\}` at i: a '{' whose next brace is a '}'. */
  function FlatBraceAt(s: string, i: nat): (r: Option<string>)
    ensures r.Some? ==> FlatObjectText(r.value)
    ensures r.Some? ==> i + |r.value| <= |s| && r.value == s[i..i + |r.value|]
  {
    if i < |s| && s[i] == '{' then
      var e := SkipLeft(s, i + 1, NotBrace);
      if e < |s| && s[e] == '}' then Some(s[i..e + 1]) else None
    else None
  }

  /** re.search of `\{[^{}]*\}`: the match at the leftmost position where one exists. */
  function FlatBraceSearch(s: string, i: nat): (r: Option<string>)
    requires i <= |s|
    ensures r.Some? ==> FlatObjectText(r.value)
    ensures r.Some? ==> exists k :: i <= k < |s| && FlatBraceAt(s, k) == r &&
                          (forall j :: i <= j < k ==> FlatBraceAt(s, j).None?)
    ensures r.None? ==> forall k :: i <= k <= |s| ==> FlatBraceAt(s, k).None?
    decreases |s| - i
  {
    var m := FlatBraceAt(s, i);
    if m.Some? then m
    else if i == |s| then None
    else
      var r := FlatBraceSearch(s, i + 1);
      FlatBraceMissStep(s, i, r);
      r
  }

  /** A miss at i moves the leftmost match found from i + 1 back to i. */
  lemma FlatBraceMissStep(s: string, i: nat, r: Option<string>)
    requires i < |s| && FlatBraceAt(s, i).None?
    requires r.Some? ==> exists k :: i + 1 <= k < |s| && FlatBraceAt(s, k) == r &&
                                     (forall j :: i + 1 <= j < k ==> FlatBraceAt(s, j).None?)
    ensures r.Some? ==> exists k :: i <= k < |s| && FlatBraceAt(s, k) == r &&
                                    (forall j :: i <= j < k ==> FlatBraceAt(s, j).None?)
  {
    if r.Some? {
      var k :| i + 1 <= k < |s| && FlatBraceAt(s, k) == r &&
               (forall j :: i + 1 <= j < k ==> FlatBraceAt(s, j).None?);
      assert forall j :: i <= j < k ==> FlatBraceAt(s, j).None?;
    }
  }

  /** One stage-3 pattern: `"key":\s*` then a value between the open and close characters. */
  datatype FieldPattern = FieldPattern(key: string, open: char, close: char)

  /** `"key":\s*"([^"]+)"` */
  function Quoted(key: string): FieldPattern { FieldPattern(key, '"', '"') }

  /** `"key":\s*\[([^]]+)\]` */
  function Bracketed(key: string): FieldPattern { FieldPattern(key, '[', ']') }

  /** The pattern of f at position p: its group, a non-empty run free of the closing character. */
  function FieldAt(s: string, f: FieldPattern, p: nat): (r: Option<string>)
    ensures r.Some? ==> r.value != [] && forall k :: 0 <= k < |r.value| ==> r.value[k] != f.close
  {
    var head := "\"" + f.key + "\":";
    if !OccursAt(s, head, p) then None
    else
      var q := SkipLeft(s, p + |head|, IsSpace);
      if q < |s| && s[q] == f.open then
        var e := AiExtractor.FirstFrom(s, f.close, q + 1);
        if e > q + 1 then Some(s[q + 1..e]) else None
      else None
  }

  /** re.search of the pattern of f: the match at the leftmost position where one exists. */
  function FieldSearch(s: string, f: FieldPattern, p: nat): (r: Option<string>)
    requires p <= |s|
    ensures r.Some? ==> r.value != []
    ensures r.Some? ==> exists k :: p <= k <= |s| && FieldAt(s, f, k) == r &&
                          (forall j :: p <= j < k ==> FieldAt(s, f, j).None?)
    ensures r.None? ==> forall k :: p <= k <= |s| ==> FieldAt(s, f, k).None?
    decreases |s| - p
  {
    var m := FieldAt(s, f, p);
    if m.Some? then m
    else if p == |s| then None
    else
      var r := FieldSearch(s, f, p + 1);
      FieldMissStep(s, f, p, r);
      r
  }

  /** A miss at p moves the leftmost match found from p + 1 back to p. */
  lemma FieldMissStep(s: string, f: FieldPattern, p: nat, r: Option<string>)
    requires p < |s| && FieldAt(s, f, p).None?
    requires r.Some? ==> exists k :: p + 1 <= k <= |s| && FieldAt(s, f, k) == r &&
                                     (forall j :: p + 1 <= j < k ==> FieldAt(s, f, j).None?)
    ensures r.Some? ==> exists k :: p <= k <= |s| && FieldAt(s, f, k) == r &&
                                    (forall j :: p <= j < k ==> FieldAt(s, f, j).None?)
  {
    if r.Some? {
      var k :| p + 1 <= k <= |s| && FieldAt(s, f, k) == r &&
               (forall j :: p + 1 <= j < k ==> FieldAt(s, f, j).None?);
      assert forall j :: p <= j < k ==> FieldAt(s, f, j).None?;
    }
  }

  /** `if value and value.lower() != 'null'` */
  predicate Kept(v: Option<string>) {
    v.Some? && v.value != [] && Lower(v.value) != "null"
  }

  /** Stage 3 over the patterns fs: each kept group stored under its key. */
  function FieldsFound(s: string, fs: seq<FieldPattern>): Dict
    decreases |fs|
  {
    if fs == [] then map[]
    else
      var m := FieldsFound(s, fs[..|fs| - 1]);
      var f := fs[|fs| - 1];
      var v := FieldSearch(s, f, 0);
      if Kept(v) then m[f.key := Str(v.value)] else m
  }

  predicate KeysDistinct(fs: seq<FieldPattern>) {
    forall i, j :: 0 <= i < j < |fs| ==> fs[i].key != fs[j].key
  }

  /** Stage 3 finds a field exactly when its pattern matches a value other than null, and stores that value. */
  lemma {:induction false} FieldsFoundAt(s: string, fs: seq<FieldPattern>, i: nat)
    requires i < |fs| && KeysDistinct(fs)
    ensures fs[i].key in FieldsFound(s, fs) <==> Kept(FieldSearch(s, fs[i], 0))
    ensures fs[i].key in FieldsFound(s, fs) ==> FieldsFound(s, fs)[fs[i].key] == Str(FieldSearch(s, fs[i], 0).value)
    decreases |fs|
  {
    var init := fs[..|fs| - 1];
    var last := fs[|fs| - 1];
    assert forall j :: 0 <= j < |init| ==> init[j] == fs[j];
    if i < |fs| - 1 {
      assert init[i] == fs[i];
      assert KeysDistinct(init);
      assert last.key != fs[i].key;
      FieldsFoundAt(s, init, i);
    } else {
      FieldsFoundOnly(s, init, fs[i].key);
      assert forall j :: 0 <= j < |init| ==> init[j].key != fs[i].key;
      assert fs[i].key !in FieldsFound(s, init);
    }
  }

  /** Only the keys of the patterns can be found, and each found value is a string other than null. */
  lemma {:induction false} FieldsFoundOnly(s: string, fs: seq<FieldPattern>, k: string)
    ensures k in FieldsFound(s, fs) ==> exists i :: 0 <= i < |fs| && fs[i].key == k
    ensures k in FieldsFound(s, fs) ==>
              (FieldsFound(s, fs)[k].Str? && FieldsFound(s, fs)[k].s != [] && Lower(FieldsFound(s, fs)[k].s) != "null")
    decreases |fs|
  {
    if fs != [] {
      var init := fs[..|fs| - 1];
      FieldsFoundOnly(s, init, k);
      if k in FieldsFound(s, init) {
        var i :| 0 <= i < |init| && init[i].key == k;
        assert fs[i].key == k;
      }
    }
  }

  /** The stage-3 result: None when nothing was found. */
  function FieldsStage(s: string, fs: seq<FieldPattern>): (r: Option<Dict>)
    ensures r.Some? ==> r.value != map[]
  {
    var m := FieldsFound(s, fs);
    if m == map[] then None else Some(m)
  }

  /**
   * _parse_ai_response: the reply with its fences removed, stripped and
   * parsed; else the first flat brace pair of the raw reply, parsed; else
   * the stage-3 fields. loads(t) is None when t is not a JSON object.
   */
  function ParseLadder(response: string, loads: string -> Option<Dict>, fs: seq<FieldPattern>): Option<Dict>
  {
    var whole := loads(Strip(AiExtractor.StripFences(response, 0)));
    if whole.Some? then whole
    else
      var flat := FlatBraceSearch(response, 0);
      if flat.Some? && loads(flat.value).Some? then loads(flat.value)
      else FieldsStage(response, fs)
  }

  /**
   * The stages are tried in order: a reply that parses whole is taken as
   * parsed; else a flat object that parses; only then stage 3, whose
   * result holds nothing but strings other than null under pattern keys.
   */
  lemma ParseLadderStages(response: string, loads: string -> Option<Dict>, fs: seq<FieldPattern>, k: string)
    ensures var whole := loads(Strip(AiExtractor.StripFences(response, 0)));
            whole.Some? ==> ParseLadder(response, loads, fs) == whole
    ensures var whole := loads(Strip(AiExtractor.StripFences(response, 0)));
            var flat := FlatBraceSearch(response, 0);
            whole.None? && flat.Some? && loads(flat.value).Some? ==>
              FlatObjectText(flat.value) && ParseLadder(response, loads, fs) == loads(flat.value)
    ensures var whole := loads(Strip(AiExtractor.StripFences(response, 0)));
            var flat := FlatBraceSearch(response, 0);
            var r := ParseLadder(response, loads, fs);
            whole.None? && (flat.None? || loads(flat.value).None?) && r.Some? && k in r.value ==>
              (exists i :: 0 <= i < |fs| && fs[i].key == k) &&
              r.value[k].Str? && r.value[k].s != [] && Lower(r.value[k].s) != "null"
  {
    FieldsFoundOnly(response, fs, k);
  }

  // ---------------------------------------------------------------------------
  // _post_process_results and extract_all_fields
  // ---------------------------------------------------------------------------

  /** A truthy value that is not a string: a string method called on it raises. */
  predicate NonString(v: Value) { Truthy(v) && !v.Str? }

  const OldKeys: set<string> := {"name", "name_japanese", "email", "phone", "date_of_birth"}

  /**
   * _post_process_results: the name (cleaned; else the raw Japanese name,
   * else the raw English name), the cleaned Japanese name, the lower-cased
   * stripped email when it holds an '@', and the phone and the date of
   * birth through the shared normalizers of utils.py.
   */
  function PostProcessOld(today: Date, results: Dict): (r: Outcome<Dict>)
    requires Valid(today)
  {
    var name, jp, en := Get(results, "name"), Get(results, "name_japanese"), Get(results, "name_english");
    var email, phone, dob := Get(results, "email"), Get(results, "phone"), Get(results, "date_of_birth");
    if NonString(name) || NonString(jp) || NonString(email) then Raised("AttributeError")
    else if NonString(phone) || NonString(dob) then Raised("TypeError")
    else Returned(EntriesOld(today, results))
  }

  /**
   * The five entries of _post_process_results once no string method can
   * raise: an email holds its '@', a truthy phone is normalized with its
   * digits kept, a date of birth is null or an ISO date.
   */
  function EntriesOld(today: Date, results: Dict): (r: Dict)
    requires Valid(today)
    requires !NonString(Get(results, "name")) && !NonString(Get(results, "name_japanese"))
    requires !NonString(Get(results, "email")) && !NonString(Get(results, "phone"))
    requires !NonString(Get(results, "date_of_birth"))
    ensures r.Keys <= OldKeys
    ensures "email" in r ==> r["email"].Str? && Contains(r["email"].s, "@") && r["email"].s == Strip(r["email"].s)
    ensures Truthy(Get(results, "phone")) ==> "phone" in r && PhoneResult(r["phone"], Get(results, "phone").s)
    ensures "date_of_birth" in r ==> r["date_of_birth"] == Null || (r["date_of_birth"].Str? && IsoShape(r["date_of_birth"].s))
  {
    DateOld(today, EmailPhoneOld(NamesOld(results), results), Get(results, "date_of_birth"))
  }

  /** The date-of-birth entry added to m, the other entries kept. */
  function DateOld(today: Date, m: Dict, dob: Value): (r: Dict)
    requires Valid(today) && !NonString(dob)
    requires m.Keys <= {"name", "name_japanese", "email", "phone"}
    ensures r.Keys <= m.Keys + {"date_of_birth"}
    ensures "name" in r <==> "name" in m
    ensures "name" in m ==> r["name"] == m["name"]
    ensures "email" in r <==> "email" in m
    ensures "email" in m ==> r["email"] == m["email"]
    ensures "phone" in r <==> "phone" in m
    ensures "phone" in m ==> r["phone"] == m["phone"]
    ensures "date_of_birth" in r ==> r["date_of_birth"] == Null || (r["date_of_birth"].Str? && IsoShape(r["date_of_birth"].s))
  {
    OldKeysApart();
    Put(m, "date_of_birth", DateEntryOld(today, dob))
  }

  /** The email and phone entries added to the name entries m. */
  function EmailPhoneOld(m: Dict, results: Dict): (r: Dict)
    requires m.Keys <= {"name", "name_japanese"}
    requires !NonString(Get(results, "email")) && !NonString(Get(results, "phone"))
    ensures r.Keys <= m.Keys + {"email", "phone"}
    ensures "name" in r <==> "name" in m
    ensures "name" in m ==> r["name"] == m["name"]
    ensures "email" in r ==> r["email"].Str? && Contains(r["email"].s, "@") && r["email"].s == Strip(r["email"].s)
    ensures Truthy(Get(results, "phone")) ==> "phone" in r && PhoneResult(r["phone"], Get(results, "phone").s)
  {
    OldKeysApart();
    var m3 := Put(m, "email", EmailEntryOld(Get(results, "email")));
    Put(m3, "phone", PhoneEntryOld(Get(results, "phone")))
  }

  /** The five post-processed keys are distinct. */
  lemma OldKeysApart()
    ensures "name" != "name_japanese" && "name" != "email" && "name" != "phone" && "name" != "date_of_birth"
    ensures "name_japanese" != "email" && "name_japanese" != "phone" && "name_japanese" != "date_of_birth"
    ensures "email" != "phone" && "email" != "date_of_birth" && "phone" != "date_of_birth"
  {
    assert "name"[1] != "name_japanese"[5];
    assert |"email"| == |"phone"| == 5 && "email"[0] != "phone"[0];
  }

  /** The two name entries: the name with its fallbacks and the cleaned Japanese name. */
  function NamesOld(results: Dict): (r: Dict)
    requires !NonString(Get(results, "name")) && !NonString(Get(results, "name_japanese"))
    ensures r.Keys <= {"name", "name_japanese"}
    ensures var name, jp, en := Get(results, "name"), Get(results, "name_japanese"), Get(results, "name_english");
            ("name" in r <==> Truthy(name) || Truthy(jp) || Truthy(en)) &&
            (Truthy(name) ==> r["name"] == Str(CleanNameOld(name.s))) &&
            (!Truthy(name) && Truthy(jp) ==> r["name"] == jp) &&
            (!Truthy(name) && !Truthy(jp) && Truthy(en) ==> r["name"] == en)
  {
    OldKeysApart();
    var name, jp, en := Get(results, "name"), Get(results, "name_japanese"), Get(results, "name_english");
    var m1 := Put(map[], "name", NameChoice(name, jp, en));
    Put(m1, "name_japanese", if Truthy(jp) then Some(Str(CleanNameOld(jp.s))) else None)
  }

  /** The email step's entry. */
  function EmailEntryOld(email: Value): (r: Option<Value>)
    requires !NonString(email)
    ensures r.Some? ==> r.value.Str? && Contains(r.value.s, "@") && r.value.s == Strip(r.value.s)
  {
    if KeptEmail(email).Some? then Some(Str(KeptEmail(email).value)) else None
  }

  /** The phone step's entry: present exactly for a truthy phone. */
  function PhoneEntryOld(phone: Value): (r: Option<Value>)
    requires !NonString(phone)
    ensures r.Some? <==> Truthy(phone)
    ensures r.Some? ==> PhoneResult(r.value, phone.s)
  {
    if Truthy(phone) then Some(PhoneValue(phone.s)) else None
  }

  /** The date step's entry: present exactly for a truthy date. */
  function DateEntryOld(today: Date, dob: Value): (r: Option<Value>)
    requires Valid(today) && !NonString(dob)
    ensures r.Some? <==> Truthy(dob)
    ensures r.Some? ==> r.value == Null || (r.value.Str? && IsoShape(r.value.s))
  {
    if Truthy(dob) then Some(DateValue(today, dob.s)) else None
  }

  /** m with k set to v when there is one. */
  function Put(m: Dict, k: string, v: Option<Value>): Dict
  {
    if v.Some? then m[k := v.value] else m
  }

  /** The name step: the cleaned name, else the raw Japanese name, else the raw English name. */
  function NameChoice(name: Value, jp: Value, en: Value): (r: Option<Value>)
    requires !NonString(name)
  {
    if Truthy(name) then Some(Str(CleanNameOld(name.s)))
    else if Truthy(jp) then Some(jp)
    else if Truthy(en) then Some(en)
    else None
  }

  /** What the phone step may leave: None for too few digits, else phone characters with the same digits. */
  predicate PhoneResult(v: Value, input: string) {
    (v == Null && |Digits(input)| < 7) ||
    (v.Str? && Digits(v.s) == Digits(input) && AllPhoneChars(v.s))
  }

  /** The email step on a string or a falsy value: lower-cased and stripped, kept only with an '@'. */
  function KeptEmail(email: Value): (r: Option<string>)
    requires !NonString(email)
    ensures r.Some? ==> Contains(r.value, "@") && Strip(r.value) == r.value
  {
    if !Truthy(email) then None
    else
      var e := Strip(Lower(email.s));
      if Contains(e, "@") then
        assert e != [];
        StripOfTrimmed(e);
        Some(e)
      else None
  }

  /** standardize_phone_number on the phone string, None stored as null. */
  function PhoneValue(phone: string): (r: Value)
    ensures PhoneResult(r, phone)
  {
    StandardizePhoneNumberSound(phone);
    OptStr(StandardizePhoneNumber(phone))
  }

  /** standardize_date on the date string, None stored as null. */
  function DateValue(today: Date, dob: string): (r: Value)
    requires Valid(today)
    ensures r == Null || (r.Str? && IsoShape(r.s))
  {
    OptStr(StandardizeDate(today, dob))
  }

  /**
   * Post-processing raises exactly when one of the five fields it calls a
   * string method on holds a truthy non-string; otherwise it keeps only
   * those five keys and follows the name fallback order.
   */
  lemma PostProcessOldFacts(today: Date, results: Dict)
    requires Valid(today)
    ensures var name, jp, en := Get(results, "name"), Get(results, "name_japanese"), Get(results, "name_english");
            PostProcessOld(today, results).Raised? <==>
              NonString(name) || NonString(jp) || NonString(Get(results, "email")) ||
              NonString(Get(results, "phone")) || NonString(Get(results, "date_of_birth"))
    ensures var r := PostProcessOld(today, results);
            r.Returned? ==> r.value.Keys <= OldKeys
    ensures var name, jp, en := Get(results, "name"), Get(results, "name_japanese"), Get(results, "name_english");
            var r := PostProcessOld(today, results);
            r.Returned? ==>
              ("name" in r.value <==> Truthy(name) || Truthy(jp) || Truthy(en)) &&
              (Truthy(name) ==> r.value["name"] == Str(CleanNameOld(name.s))) &&
              (!Truthy(name) && Truthy(jp) ==> r.value["name"] == jp) &&
              (!Truthy(name) && !Truthy(jp) && Truthy(en) ==> r.value["name"] == en)
  {
    var email, phone, dob := Get(results, "email"), Get(results, "phone"), Get(results, "date_of_birth");
    if !(NonString(Get(results, "name")) || NonString(Get(results, "name_japanese")) || NonString(email) ||
         NonString(phone) || NonString(dob)) {
      var m2 := NamesOld(results);
      var m3 := EmailPhoneOld(m2, results);
      assert PostProcessOld(today, results) == Returned(DateOld(today, m3, dob));
    }
  }

  /**
   * extract_all_fields: {} when the model is unavailable, when the call
   * raises (reply None), when nothing parses or the parse is empty, and
   * when post-processing raises; else the post-processed fields.
   */
  function AllFieldsOld(available: bool, today: Date, reply: Option<string>, loads: string -> Option<Dict>,
                        fs: seq<FieldPattern>): (r: Dict)
    requires Valid(today)
  {
    if !available || reply.None? then map[]
    else match ParseLadder(reply.value, loads, fs)
      case None => map[]
      case Some(d) =>
        if d == map[] then map[]
        else match PostProcessOld(today, d)
          case Raised(_) => map[]
          case Returned(p) => p
  }

  /** The six stage-3 patterns of ai_extractor_old.py. */
  const OldPatterns: seq<FieldPattern> :=
    [Quoted("name"), Quoted("name_japanese"), Quoted("name_english"),
     Quoted("email"), Quoted("phone"), Quoted("date_of_birth")]

  /** The header fields never hold anything but the five post-processed keys, and an email always has its '@'. */
  lemma AllFieldsOldFacts(available: bool, today: Date, reply: Option<string>, loads: string -> Option<Dict>)
    requires Valid(today)
    ensures !available ==> AllFieldsOld(available, today, reply, loads, OldPatterns) == map[]
    ensures AllFieldsOld(available, today, reply, loads, OldPatterns).Keys <= OldKeys
    ensures var r := AllFieldsOld(available, today, reply, loads, OldPatterns);
            "email" in r ==> r["email"].Str? && Contains(r["email"].s, "@")
  {
    if available && reply.Some? {
      match ParseLadder(reply.value, loads, OldPatterns)
      case None =>
      case Some(d) =>
        PostProcessOldFacts(today, d);
    }
  }

  // ---------------------------------------------------------------------------
  // validate_and_enhance: the regex value wins, the model fills gaps
  // ---------------------------------------------------------------------------

  /** One field of the merge: an empty field takes a truthy model value tagged "AI"; a present one is tagged "Regex". */
  function FillStep(m: Dict, ai: Dict, f: string): Dict {
    if !Truthy(Get(m, f)) && Truthy(Get(ai, f)) then m[f := ai[f]][f + "_source" := Str("AI")]
    else if Truthy(Get(m, f)) then m[f + "_source" := Str("Regex")]
    else m
  }

  /** The merge loop over the fields fs, in order. */
  function Filled(regex: Dict, ai: Dict, fs: seq<string>): Dict
    decreases |fs|
  {
    if fs == [] then regex else FillStep(Filled(regex, ai, fs[..|fs| - 1]), ai, fs[|fs| - 1])
  }

  /** The merge loop of validate_and_enhance. */
  method FillFields(regex: Dict, ai: Dict, fs: seq<string>) returns (m: Dict)
    ensures m == Filled(regex, ai, fs)
  {
    m := regex;
    var i := 0;
    while i < |fs|
      invariant 0 <= i <= |fs|
      invariant m == Filled(regex, ai, fs[..i])
    {
      m := FillStep(m, ai, fs[i]);
      FilledSnoc(regex, ai, fs, i);
      i := i + 1;
    }
    assert fs[..i] == fs;
  }

  lemma FilledSnoc(regex: Dict, ai: Dict, fs: seq<string>, i: nat)
    requires i < |fs|
    ensures Filled(regex, ai, fs[..i + 1]) == FillStep(Filled(regex, ai, fs[..i]), ai, fs[i])
  {
    assert fs[..i + 1][..i] == fs[..i];
  }

  /** No field repeats, and no field is another field's tag. */
  predicate MergeFields(fs: seq<string>) {
    (forall i, j :: 0 <= i < j < |fs| ==> fs[i] != fs[j]) && AiExtractor.SourceTagsApart(fs)
  }

  /**
   * After the merge a truthy regex value is kept and tagged "Regex"; an
   * empty one takes a truthy model value tagged "AI"; with neither, the
   * field and its tag are as they were.
   */
  lemma {:induction false} FilledAt(regex: Dict, ai: Dict, fs: seq<string>, f: string)
    requires f in fs && MergeFields(fs)
    ensures Truthy(Get(regex, f)) ==>
              Get(Filled(regex, ai, fs), f) == Get(regex, f) &&
              Get(Filled(regex, ai, fs), f + "_source") == Str("Regex")
    ensures !Truthy(Get(regex, f)) && Truthy(Get(ai, f)) ==>
              Get(Filled(regex, ai, fs), f) == ai[f] &&
              Get(Filled(regex, ai, fs), f + "_source") == Str("AI")
    ensures !Truthy(Get(regex, f)) && !Truthy(Get(ai, f)) ==>
              Get(Filled(regex, ai, fs), f) == Get(regex, f) &&
              Get(Filled(regex, ai, fs), f + "_source") == Get(regex, f + "_source")
    decreases |fs|
  {
    var init := fs[..|fs| - 1];
    var g := fs[|fs| - 1];
    var m := Filled(regex, ai, init);
    assert Filled(regex, ai, fs) == FillStep(m, ai, g);
    assert MergeFields(init);
    if f != g {
      assert f in init;
      FilledAt(regex, ai, init, f);
      var j :| 0 <= j < |init| && init[j] == f;
      assert fs[j] == f;
      AiExtractor.SuffixApart(f, g, "_source");
      FillStepOther(m, ai, g, f);
    } else {
      forall h | h in init
        ensures f != h && f != h + "_source" && f + "_source" != h && f + "_source" != h + "_source"
      {
        var j :| 0 <= j < |init| && init[j] == h;
        assert fs[j] == h;
        AiExtractor.SuffixApart(f, h, "_source");
      }
      FilledUntouched(regex, ai, init, f);
      FilledUntouched(regex, ai, init, f + "_source");
      FillStepOwn(m, regex, ai, f);
    }
  }

  /** The step for another field g leaves f and its tag alone. */
  lemma FillStepOther(m: Dict, ai: Dict, g: string, f: string)
    requires f != g && f + "_source" != g && g + "_source" != f
    ensures Get(FillStep(m, ai, g), f) == Get(m, f)
    ensures Get(FillStep(m, ai, g), f + "_source") == Get(m, f + "_source")
  {
    AiExtractor.SuffixApart(f, g, "_source");
  }

  /** The step for f itself, from a dictionary that holds f and its tag as regex does. */
  lemma FillStepOwn(m: Dict, regex: Dict, ai: Dict, f: string)
    requires Get(m, f) == Get(regex, f) && Get(m, f + "_source") == Get(regex, f + "_source")
    ensures Truthy(Get(regex, f)) ==>
              Get(FillStep(m, ai, f), f) == Get(regex, f) &&
              Get(FillStep(m, ai, f), f + "_source") == Str("Regex")
    ensures !Truthy(Get(regex, f)) && Truthy(Get(ai, f)) ==>
              Get(FillStep(m, ai, f), f) == ai[f] &&
              Get(FillStep(m, ai, f), f + "_source") == Str("AI")
    ensures !Truthy(Get(regex, f)) && !Truthy(Get(ai, f)) ==>
              Get(FillStep(m, ai, f), f) == Get(regex, f) &&
              Get(FillStep(m, ai, f), f + "_source") == Get(regex, f + "_source")
  {
    assert |f + "_source"| != |f|;
  }

  /** A key that is neither a field of fs nor a field's tag keeps its regex value. */
  lemma {:induction false} FilledUntouched(regex: Dict, ai: Dict, fs: seq<string>, k: string)
    requires k !in fs && forall g :: g in fs ==> k != g + "_source"
    ensures Get(Filled(regex, ai, fs), k) == Get(regex, k)
    decreases |fs|
  {
    if fs != [] {
      FilledUntouched(regex, ai, fs[..|fs| - 1], k);
      assert fs[|fs| - 1] in fs;
    }
  }

  const OldFields: seq<string> := ["name", "name_japanese", "email", "phone", "date_of_birth"]

  lemma OldFieldsApart()
    ensures MergeFields(OldFields)
  {
    forall i, j | 0 <= i < |OldFields| && 0 <= j < |OldFields|
      ensures OldFields[i] + "_source" != OldFields[j]
    {
      assert |OldFields[i] + "_source"| != |OldFields[j]|;
    }
  }

  /** `final_results['name'].lower() != ai_results['name'].lower()` raises unless both names are strings. */
  predicate NameCheckRaises(m: Dict, ai: Dict) {
    Truthy(Get(m, "name")) && Truthy(Get(ai, "name")) && !(m["name"].Str? && ai["name"].Str?)
  }

  /**
   * validate_and_enhance: the regex results as they are when the model is
   * unavailable; else the merge, the name comparison (which only logs, but
   * raises on a non-string) and ai_enhanced set.
   */
  function EnhancedOld(available: bool, regex: Dict, ai: Dict): Outcome<Dict> {
    if !available then Returned(regex)
    else
      var m := Filled(regex, ai, OldFields);
      if NameCheckRaises(m, ai) then Raised("AttributeError")
      else Returned(m["ai_enhanced" := Bool(true)])
  }

  method ValidateAndEnhanceOld(available: bool, regex: Dict, today: Date, reply: Option<string>,
                               loads: string -> Option<Dict>) returns (r: Outcome<Dict>)
    requires Valid(today)
    ensures r == EnhancedOld(available, regex, AllFieldsOld(available, today, reply, loads, OldPatterns))
  {
    if !available {
      return Returned(regex);
    }
    var ai := AllFieldsOld(available, today, reply, loads, OldPatterns);
    var m := FillFields(regex, ai, OldFields);
    if NameCheckRaises(m, ai) {
      return Raised("AttributeError");
    }
    m := m["ai_enhanced" := Bool(true)];
    return Returned(m);
  }

  /**
   * The merged result keeps a present regex value under its "Regex" tag,
   * fills an empty one from the model under "AI", and is marked
   * ai_enhanced; an unavailable model leaves the regex results as they are.
   */
  lemma EnhancedOldFacts(available: bool, regex: Dict, ai: Dict, f: string)
    requires f in OldFields
    ensures !available ==> EnhancedOld(available, regex, ai) == Returned(regex)
    ensures available ==> (EnhancedOld(available, regex, ai).Raised? <==> NameCheckRaises(Filled(regex, ai, OldFields), ai))
    ensures var r := EnhancedOld(available, regex, ai);
            available && r.Returned? ==>
              Get(r.value, "ai_enhanced") == Bool(true) &&
              (Truthy(Get(regex, f)) ==>
                 Get(r.value, f) == regex[f] && Get(r.value, f + "_source") == Str("Regex")) &&
              (!Truthy(Get(regex, f)) && Truthy(Get(ai, f)) ==>
                 Get(r.value, f) == ai[f] && Get(r.value, f + "_source") == Str("AI"))
  {
    OldFieldsApart();
    FilledAt(regex, ai, OldFields, f);
    assert (f + "_source")[0] == f[0] != 'a';
  }
}
