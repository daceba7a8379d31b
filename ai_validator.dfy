/**
 * The validation assistant (ai_validator.py): phone and date-of-birth
 * validation, the e-mail pattern, the checks applied to what the model
 * returns for a name, a phone or a birth date, the three-stage recovery of
 * a JSON verdict from a messy reply, and the clean-up of Japanese OCR text.
 *
 * The model call is an input: `reply` is the text it answered (None when
 * the call raised), json.loads is the oracle `loads`, and datetime.now()
 * is the date `today`.
 */
module AiValidator {
  import opened Text
  import opened Json
  import opened Calendar
  import Utils
  import MainExtractor
  import AiExtractorOld

  /** Every character of s satisfies p. */
  predicate AllIn(s: string, p: char -> bool) {
    forall k :: 0 <= k < |s| ==> p(s[k])
  }

  /** The first c in s[i..] is at `at`. */
  lemma {:induction false} CharFromAt(s: string, c: char, i: nat, at: nat)
    requires i <= at < |s| && s[at] == c
    requires forall m :: i <= m < at ==> s[m] != c
    ensures CharFrom(s, c, i) == at
    decreases at - i
  {
    if i < at {
      CharFromAt(s, c, i + 1, at);
    }
  }

  // ---------------------------------------------------------------------------
  // validate_phone
  // ---------------------------------------------------------------------------

  /**
   * validate_phone: for region JP, an 11-digit number with a trunk '0' is
   * laid out 3-4-4, a 10-digit one 2-4-4 after a major-city digit 3-9 and
   * 3-3-4 otherwise; any other number of 10 to 15 digits is valid and
   * returned as given; anything else is invalid and returned as given.
   */
  function ValidatePhone(phone: string, region: string): (r: (bool, string))
    ensures r.0 <==> 10 <= |Digits(phone)| <= 15
    ensures Digits(r.1) == Digits(phone)
    ensures var d := Digits(phone);
            region == "JP" && |d| == 11 && d[0] == '0' ==> |r.1| == 13 && r.1[3] == '-' && r.1[8] == '-'
    ensures var d := Digits(phone);
            region == "JP" && |d| == 10 && d[0] == '0' && d[1] in "3456789" ==>
              |r.1| == 12 && r.1[2] == '-' && r.1[7] == '-'
    ensures var d := Digits(phone);
            region == "JP" && |d| == 10 && d[0] == '0' && d[1] !in "3456789" ==>
              |r.1| == 12 && r.1[3] == '-' && r.1[7] == '-'
    ensures var d := Digits(phone);
            !(region == "JP" && 10 <= |d| <= 11 && d[0] == '0') ==> r.1 == phone
  {
    var d := Digits(phone);
    if region == "JP" && |d| == 11 && d[0] == '0' then
      MainExtractor.Dash3Digits(d, 3, 4);
      (true, MainExtractor.Dash3(d, 3, 4))
    else if region == "JP" && |d| == 10 && d[0] == '0' then
      if d[1] in "3456789" then
        MainExtractor.Dash3Digits(d, 2, 4);
        (true, MainExtractor.Dash3(d, 2, 4))
      else
        MainExtractor.Dash3Digits(d, 3, 3);
        (true, MainExtractor.Dash3(d, 3, 3))
    else if 10 <= |d| <= 15 then (true, phone)
    else (false, phone)
  }

  /** Validating a validated number again changes nothing: the layout depends on the digits alone. */
  lemma ValidatePhoneIdempotent(phone: string, region: string)
    ensures var r := ValidatePhone(phone, region);
            ValidatePhone(r.1, region) == r
  {
    var d := Digits(phone);
    var r := ValidatePhone(phone, region);
    assert Digits(r.1) == d;
  }

  // ---------------------------------------------------------------------------
  // validate_email
  // ---------------------------------------------------------------------------

  /** `[a-zA-Z0-9._%+-]` */
  predicate LocalChar(c: char) {
    IsLetter(c) || IsDigit(c) || c == '.' || c == '_' || c == '%' || c == '+' || c == '-'
  }

  /** `[a-zA-Z0-9.-]` */
  predicate DomainChar(c: char) {
    IsLetter(c) || IsDigit(c) || c == '.' || c == '-'
  }

  /** The text a pattern ending in `$` must match: all of s, or s without one final newline. */
  function MatchBody(s: string): (r: string)
    ensures r == s || r + "\n" == s
  {
    if s != [] && s[|s| - 1] == '\n' then s[..|s| - 1] else s
  }

  /** Index of the last '.' in r[..j], or -1. */
  function LastDotBefore(r: string, j: nat): (k: int)
    requires j <= |r|
    ensures -1 <= k < j
    ensures k >= 0 ==> r[k] == '.'
    ensures forall m :: k < m < j ==> r[m] != '.'
  {
    if j == 0 then -1 else if r[j - 1] == '.' then j - 1 else LastDotBefore(r, j - 1)
  }

  lemma {:induction false} LastDotAt(r: string, j: nat, k: nat)
    requires k < j <= |r| && r[k] == '.'
    requires forall m :: k < m < j ==> r[m] != '.'
    ensures LastDotBefore(r, j) == k
  {
    if j - 1 != k {
      LastDotAt(r, j - 1, k);
    }
  }

  /**
   * `[a-zA-Z0-9.-]+\.[a-zA-Z]{2,}` matched whole: the domain characters
   * throughout, and the last dot splitting a non-empty name from a label
   * of two or more letters.
   */
  predicate DomainPart(r: string) {
    AllIn(r, DomainChar) &&
    var k := LastDotBefore(r, |r|);
    k >= 1 && |r| - k - 1 >= 2 && AllIn(r[k + 1..], IsLetter)
  }

  /**
   * validate_email: re.match of `^[a-zA-Z0-9._%+-]+@[a-zA-Z0-9.-]+\.[a-zA-Z]{2,}$`.
   * The local part cannot hold '@', so the split is at the first '@'.
   */
  function ValidateEmail(email: string): (ok: bool)
  {
    var b := MatchBody(email);
    var at := CharFrom(b, '@', 0);
    0 < at < |b| && AllIn(b[..at], LocalChar) && DomainPart(b[at + 1..])
  }

  /** The pattern read declaratively: local part, '@' at i, domain, '.' at j, a label of two or more letters. */
  predicate EmailSplit(b: string, i: int, j: int) {
    1 <= i && i + 2 <= j && j + 3 <= |b| && b[i] == '@' && b[j] == '.'
    && AllIn(b[..i], LocalChar) && AllIn(b[i + 1..j], DomainChar) && AllIn(b[j + 1..], IsLetter)
  }

  /** Every text validate_email accepts splits as the pattern describes. */
  lemma ValidateEmailSound(email: string)
    requires ValidateEmail(email)
    ensures exists i, j :: EmailSplit(MatchBody(email), i, j)
  {
    var b := MatchBody(email);
    var at := CharFrom(b, '@', 0);
    var r := b[at + 1..];
    var k := LastDotBefore(r, |r|);
    var j := at + 1 + k;
    assert b[at + 1..j] == r[..k];
    assert b[j + 1..] == r[k + 1..];
    assert EmailSplit(b, at, j);
  }

  /** Every text that splits as the pattern describes is accepted. */
  lemma ValidateEmailComplete(email: string, i: int, j: int)
    requires EmailSplit(MatchBody(email), i, j)
    ensures ValidateEmail(email)
  {
    var b := MatchBody(email);
    CharFromAt(b, '@', 0, i);
    SplitDomain(b, i, j);
  }

  /** The part after the '@' of such a split is a domain whose last dot is at j. */
  lemma SplitDomain(b: string, i: int, j: int)
    requires EmailSplit(b, i, j)
    ensures DomainPart(b[i + 1..])
  {
    var r := b[i + 1..];
    var k := j - i - 1;
    forall m | 0 <= m < |r|
      ensures DomainChar(r[m]) && (m > k ==> r[m] != '.')
    {
      if m < k {
        assert r[m] == b[i + 1..j][m];
      } else if m > k {
        assert r[m] == b[j + 1..][m - k - 1];
      }
    }
    LastDotAt(r, |r|, k);
    DropDrop(b, i + 1, k + 1, j + 1);
  }

  /** Dropping d more characters after the first a drops the first c = a + d. */
  lemma DropDrop(b: string, a: nat, d: nat, c: nat)
    requires a + d == c <= |b|
    ensures b[a..][d..] == b[c..]
  {
  }

  /** validate_email accepts exactly the texts that split as the pattern describes. */
  lemma ValidateEmailIff(email: string)
    ensures ValidateEmail(email) <==> exists i, j :: EmailSplit(MatchBody(email), i, j)
  {
    if ValidateEmail(email) {
      ValidateEmailSound(email);
    }
    if exists i, j :: EmailSplit(MatchBody(email), i, j) {
      var i, j :| EmailSplit(MatchBody(email), i, j);
      ValidateEmailComplete(email, i, j);
    }
  }

  // ---------------------------------------------------------------------------
  // extract_from_messy_text: what is accepted from the model's answer
  // ---------------------------------------------------------------------------

  /** p starts s, ignoring case; p is given in lower case. */
  predicate StartsIgnoreCase(s: string, p: string) {
    |p| <= |s| && Lower(s[..|p|]) == p
  }

  /** re.sub(r'^(The |Name:|Person:|Answer:)', '', s, flags=re.IGNORECASE): at most one prefix, at the start. */
  function DropNamePrefix(s: string): (r: string)
    ensures r == s || |r| < |s|
  {
    if StartsIgnoreCase(s, "the ") then s[4..]
    else if StartsIgnoreCase(s, "name:") then s[5..]
    else if StartsIgnoreCase(s, "person:") then s[7..]
    else if StartsIgnoreCase(s, "answer:") then s[7..]
    else s
  }

  /** The characters a name may not contain. */
  const NameForbidden: string := "@/\\|{}[]"

  /** `2 <= len(result) <= 50` and none of @ / \ | { } [ ]. */
  predicate NameLike(r: string) {
    2 <= |r| <= 50 && forall k :: 0 <= k < |r| ==> r[k] !in NameForbidden
  }

  /** The name branch: prefix dropped, quotes stripped, kept only when it looks like a name. */
  function AiName(result: string): (r: Option<string>)
    ensures r.Some? ==> NameLike(r.value) && !IsQuote(r.value[0]) && !IsQuote(r.value[|r.value| - 1])
  {
    var n := StripBy(DropNamePrefix(result), IsQuote);
    if NameLike(n) then Some(n) else None
  }

  /** A plain name with no prefix and no quotes at its ends comes back unchanged. */
  lemma AiNameKeepsName(name: string)
    requires NameLike(name) && !IsQuote(name[0]) && !IsQuote(name[|name| - 1])
    requires !StartsIgnoreCase(name, "the ") && !StartsIgnoreCase(name, "name:")
    requires !StartsIgnoreCase(name, "person:") && !StartsIgnoreCase(name, "answer:")
    ensures AiName(name) == Some(name)
  {
    assert SkipLeft(name, 0, IsQuote) == 0;
    assert SkipRight(name, |name|, IsQuote) == |name|;
    assert name[0..|name|] == name;
  }

  /** `[\d\-\s\(\)\.]` */
  predicate PhoneRunChar(c: char) {
    IsDigit(c) || c == '-' || IsSpace(c) || c == '(' || c == ')' || c == '.'
  }

  /** `[\d\-\s\(\)\.]{10,20}` at i: the greedy run of such characters, at most 20, when it has 10. */
  function PhoneRunAt(s: string, i: nat): (r: Option<string>)
    requires i <= |s|
    ensures r.Some? ==> 10 <= |r.value| <= 20 && i + |r.value| <= |s| && r.value == s[i..i + |r.value|]
    ensures r.Some? ==> AllIn(r.value, PhoneRunChar)
  {
    var e := SkipLeft(s, i, PhoneRunChar);
    if e - i >= 10 then Some(s[i..if e - i > 20 then i + 20 else e]) else None
  }

  /** re.search of `[\d\-\s\(\)\.]{10,20}`: the match at the leftmost position where one exists. */
  function PhoneRunSearch(s: string, i: nat): (r: Option<string>)
    requires i <= |s|
    ensures r.Some? ==> exists k :: i <= k <= |s| && PhoneRunAt(s, k) == r &&
                          (forall j :: i <= j < k ==> PhoneRunAt(s, j).None?)
    ensures r.None? ==> forall k :: i <= k <= |s| ==> PhoneRunAt(s, k).None?
    decreases |s| - i
  {
    var m := PhoneRunAt(s, i);
    if m.Some? then m
    else if i == |s| then None
    else
      var r := PhoneRunSearch(s, i + 1);
      PhoneRunMissStep(s, i, r);
      r
  }

  /** A miss at i moves the leftmost match found from i + 1 back to i. */
  lemma PhoneRunMissStep(s: string, i: nat, r: Option<string>)
    requires i < |s| && PhoneRunAt(s, i).None?
    requires r.Some? ==> exists k :: i + 1 <= k <= |s| && PhoneRunAt(s, k) == r &&
                                     (forall j :: i + 1 <= j < k ==> PhoneRunAt(s, j).None?)
    ensures r.Some? ==> exists k :: i <= k <= |s| && PhoneRunAt(s, k) == r &&
                                    (forall j :: i <= j < k ==> PhoneRunAt(s, j).None?)
  {
    if r.Some? {
      var k :| i + 1 <= k <= |s| && PhoneRunAt(s, k) == r &&
               (forall j :: i + 1 <= j < k ==> PhoneRunAt(s, j).None?);
      assert forall j :: i <= j < k ==> PhoneRunAt(s, j).None?;
    }
  }

  /** The phone run found is a substring of the text searched. */
  lemma PhoneRunContained(s: string)
    ensures PhoneRunSearch(s, 0).Some? ==> Contains(s, PhoneRunSearch(s, 0).value)
  {
    var m := PhoneRunSearch(s, 0);
    if m.Some? {
      var k :| 0 <= k <= |s| && PhoneRunAt(s, k) == m;
      ContainsAt(s, m.value, k);
    }
  }

  /** `\d{4}-\d{1,2}-\d{1,2}` matched whole. */
  predicate DashDate(t: string) {
    8 <= |t| <= 10 && AllDigits(t[..4]) && t[4] == '-' &&
    var m := CharFrom(t, '-', 5);
    6 <= m <= 7 && |t| - m - 1 <= 2 && m + 1 < |t| && AllDigits(t[5..m]) && AllDigits(t[m + 1..])
  }

  /** The text of a year-first dash date match. */
  function DashDateText(g: Groups): (r: string)
    requires |g.g1| == 4 && AllDigits(g.g1)
    requires 1 <= |g.g2| <= 2 && AllDigits(g.g2) && 1 <= |g.g3| <= 2 && AllDigits(g.g3)
    ensures DashDate(r)
  {
    var r := g.g1 + "-" + g.g2 + "-" + g.g3;
    assert r[..4] == g.g1;
    assert r[5..5 + |g.g2|] == g.g2;
    assert r[6 + |g.g2|..] == g.g3;
    CharFromAt(r, '-', 5, 5 + |g.g2|);
    r
  }

  /** The field types extract_from_messy_text has a prompt for. */
  predicate KnownField(fieldType: string) {
    fieldType == "name" || fieldType == "phone" || fieldType == "dob"
  }

  /**
   * extract_from_messy_text: None when the model is unavailable, the field
   * has no prompt, or the call raised; otherwise the stripped answer is
   * checked by field: a name-like name, the first run of 10 to 20 phone
   * characters, or the first `\d{4}-\d{1,2}-\d{1,2}` date.
   */
  function ExtractFromMessyText(available: bool, fieldType: string, reply: Option<string>): (r: Option<string>)
    ensures !available || !KnownField(fieldType) || reply.None? ==> r.None?
    ensures r.Some? && fieldType == "name" ==> NameLike(r.value)
    ensures r.Some? && fieldType == "phone" ==>
              10 <= |r.value| <= 20 && AllIn(r.value, PhoneRunChar) && Contains(Strip(reply.value), r.value)
    ensures r.Some? && fieldType == "dob" ==> DashDate(r.value)
  {
    if !available || !KnownField(fieldType) || reply.None? then None
    else
      var result := Strip(reply.value);
      if fieldType == "name" then AiName(result)
      else if fieldType == "phone" then
        PhoneRunContained(result);
        PhoneRunSearch(result, 0)
      else
        var m := YmdSearch(result, 0, "-", "-");
        if m.Some? then Some(DashDateText(m.value)) else None
  }

  /** An answer that is a bare YYYY-MM-DD date, with surrounding whitespace, is returned as the date. */
  lemma ExtractDobKeepsIsoDate(reply: string, date: string)
    requires |date| == 10 && IsoShape(date)
    requires Strip(reply) == date
    ensures ExtractFromMessyText(true, "dob", Some(reply)) == Some(date)
  {
    var g := YmdAt(date, 0, "-", "-");
    assert g == Some(Groups(date[0..4], date[5..7], date[8..10]));
    assert date[0..4] + "-" + date[5..7] + "-" + date[8..10] == date;
  }

  // ---------------------------------------------------------------------------
  // validate_dob
  // ---------------------------------------------------------------------------

  /** The formats validate_dob tries, in order. */
  const DobFormats: seq<seq<Directive>> := [
    [Year4, Lit('-'), Month2, Lit('-'), Day2],
    [Year4, Lit('/'), Month2, Lit('/'), Day2],
    [Day2, Lit('/'), Month2, Lit('/'), Year4],
    [Month2, Lit('/'), Day2, Lit('/'), Year4],
    [Year4, Lit('\U{5E74}'), Month2, Lit('\U{6708}'), Day2, Lit('\U{65E5}')],
    [Day2, Lit('-'), Month2, Lit('-'), Year4],
    [Month2, Lit('-'), Day2, Lit('-'), Year4]
  ]

  /** The next digit at or after q before any newline (`.*?\d` with `.` not crossing a line end). */
  function NextDigit(s: string, q: nat): (r: Option<nat>)
    requires q <= |s|
    ensures r.Some? ==> q <= r.value < |s| && IsDigit(s[r.value])
    decreases |s| - q
  {
    if q == |s| || s[q] == '\n' then None
    else if IsDigit(s[q]) then Some(q)
    else NextDigit(s, q + 1)
  }

  /**
   * `(\d{4}).*?(\d{1,2}).*?(\d{1,2})` matched at i. The lazy gaps stop at
   * the first digit; the month takes two digits when a day digit still
   * follows, and otherwise gives its second digit to the day.
   */
  function LooseYmdAt(s: string, i: nat): (r: Option<Groups>)
    ensures r.Some? ==> |r.value.g1| == 4 && AllDigits(r.value.g1)
    ensures r.Some? ==> 1 <= |r.value.g2| <= 2 && AllDigits(r.value.g2)
    ensures r.Some? ==> 1 <= |r.value.g3| <= 2 && AllDigits(r.value.g3)
  {
    if !(i + 4 <= |s| && AllDigits(s[i..i + 4])) then None
    else
      var p := NextDigit(s, i + 4);
      if p.None? then None
      else if p.value + 1 < |s| && IsDigit(s[p.value + 1]) then
        var q := NextDigit(s, p.value + 2);
        if q.Some? then Some(Groups(s[i..i + 4], s[p.value..p.value + 2], OneOrTwo(s, q.value)))
        else Some(Groups(s[i..i + 4], s[p.value..p.value + 1], s[p.value + 1..p.value + 2]))
      else
        var q := NextDigit(s, p.value + 1);
        if q.Some? then Some(Groups(s[i..i + 4], s[p.value..p.value + 1], OneOrTwo(s, q.value)))
        else None
  }

  /** re.search of the loose year-month-day pattern: the leftmost match. */
  function LooseYmdSearch(s: string, i: nat): (r: Option<Groups>)
    requires i <= |s|
    ensures r.Some? ==> exists k :: i <= k <= |s| && LooseYmdAt(s, k) == r &&
                          (forall j :: i <= j < k ==> LooseYmdAt(s, j).None?)
    ensures r.None? ==> forall k :: i <= k <= |s| ==> LooseYmdAt(s, k).None?
    decreases |s| - i
  {
    var m := LooseYmdAt(s, i);
    if m.Some? then m
    else if i == |s| then None
    else
      var r := LooseYmdSearch(s, i + 1);
      assert r.Some? ==> exists k :: i <= k <= |s| && LooseYmdAt(s, k) == r &&
                                     (forall j :: i <= j < k ==> LooseYmdAt(s, j).None?) by {
        if r.Some? {
          var k :| i + 1 <= k <= |s| && LooseYmdAt(s, k) == r &&
                   (forall j :: i + 1 <= j < k ==> LooseYmdAt(s, j).None?);
          assert forall j :: i <= j < k ==> LooseYmdAt(s, j).None?;
        }
      }
      r
  }

  /**
   * The verdict validate_dob returns: the first format under which the
   * stripped text parses to a date in the 18-70 age window, else the loose
   * year-month-day numbers of the unstripped text when they form such a
   * date, as YYYY-MM-DD; otherwise (False, None).
   */
  function DobVerdict(today: Date, dob: string): (r: (bool, Option<string>))
    requires Valid(today)
    ensures r.0 <==> r.1.Some?
    ensures r.1.Some? ==> Utils.AdultIso(today, r.1.value)
  {
    var viaFormat := Utils.FirstAdultFormat(today, Strip(dob), DobFormats, 0);
    if viaFormat.Some? then (true, viaFormat)
    else
      var m := LooseYmdSearch(dob, 0);
      var a := if m.Some? then Utils.AdultDate(today, m.value.g1, m.value.g2, m.value.g3) else None;
      (a.Some?, a)
  }

  /** validate_dob: the formats tried in turn, then the regex fallback. */
  method ValidateDob(today: Date, dob: string) returns (valid: bool, formatted: Option<string>)
    requires Valid(today)
    ensures (valid, formatted) == DobVerdict(today, dob)
  {
    var t := Strip(dob);
    var k := 0;
    while k < |DobFormats|
      invariant 0 <= k <= |DobFormats|
      invariant Utils.FirstAdultFormat(today, t, DobFormats, k) == Utils.FirstAdultFormat(today, t, DobFormats, 0)
    {
      var d := Strptime(t, DobFormats[k]);
      if d.Some? && AgeInWindow(today, d.value) {
        return true, Some(FormatIso(d.value));
      }
      k := k + 1;
    }
    var m := LooseYmdSearch(dob, 0);
    if m.Some? {
      var a := Utils.AdultDate(today, m.value.g1, m.value.g2, m.value.g3);
      if a.Some? {
        return true, a;
      }
    }
    return false, None;
  }

  /** strptime(s, '%Y-%m-%d') reads a YYYY-MM-DD text of a valid date as that date. */
  lemma IsoStrptime(s: string)
    requires |s| == 10 && IsoShape(s) && Valid(IsoFields(s))
    ensures Strptime(s, DobFormats[0]) == Some(IsoFields(s))
  {
    var d := IsoFields(s);
    var fmt := DobFormats[0];
    Day2First(s, 8);
    Month2First(s, 5);
    var f1 := Fields(d.year, 1, 1);
    var f2 := Fields(d.year, d.month, 1);
    var f3 := Fields(d.year, d.month, d.day);
    assert MatchFrom(s, 10, [], f3) == Some((f3, 10));
    assert MatchFrom(s, 8, [Day2], f2) == Some((f3, 10));
    assert Alternatives(s, 7, Lit('-')) == [Piece(1, NoField, 0)];
    assert MatchFrom(s, 7, [Lit('-'), Day2], f2) == Some((f3, 10));
    assert MatchFrom(s, 5, [Month2, Lit('-'), Day2], f1) == Some((f3, 10));
    assert Alternatives(s, 4, Lit('-')) == [Piece(1, NoField, 0)];
    assert MatchFrom(s, 4, fmt[1..], f1) == Some((f3, 10));
    assert Alternatives(s, 0, Year4) == [Piece(4, YearField, d.year)];
    assert MatchFrom(s, 0, fmt, Fields(1900, 1, 1)) == Some((f3, 10));
  }

  /** A YYYY-MM-DD birth date inside the age window is accepted and returned as it is. */
  lemma ValidateDobKeepsAdultIso(today: Date, d: Date)
    requires Valid(today) && Valid(d) && AgeInWindow(today, d)
    ensures DobVerdict(today, FormatIso(d)) == (true, Some(FormatIso(d)))
  {
    var s := FormatIso(d);
    FormatIsoRoundTrip(d);
    StripUnspaced(s);
    IsoStrptime(s);
  }

  /** A date outside the age window is never returned, whatever its text. */
  lemma ValidateDobRejectsOutsideWindow(today: Date, dob: string, d: Date)
    requires Valid(today) && Valid(d) && !AgeInWindow(today, d)
    ensures DobVerdict(today, dob).1 != Some(FormatIso(d))
  {
    FormatIsoRoundTrip(d);
  }

  /** Every format of validate_dob reads back what it writes. */
  lemma DobFormatReadable(k: nat)
    requires k < |DobFormats|
    ensures Readable(DobFormats[k])
  {
    var f := DobFormats[k];
    if k < 2 || k == 4 {
      ReadableAt(f, 0, 2, 4);
    } else if k == 2 || k == 5 {
      ReadableAt(f, 4, 2, 0);
    } else {
      ReadableAt(f, 4, 0, 2);
    }
  }

  /** strptime under each format of validate_dob reads back the date written in that format. */
  lemma DobFormatsRoundTrip(d: Date, k: nat)
    requires Valid(d) && k < |DobFormats|
    ensures Strptime(Written(d, DobFormats[k]), DobFormats[k]) == Some(d)
  {
    DobFormatReadable(k);
    StrptimeRoundTrip(d, DobFormats[k]);
  }

  /** The year-first formats lead; the slashed ones follow, day first and then month first. */
  lemma DobFormatsOrder()
    ensures |DobFormats| == 7 && DobFormats[0] != [] && DobFormats[1] != []
    ensures DobFormats[0][0] == Year4 && DobFormats[1][0] == Year4
    ensures DobFormats[2] == [Day2, Lit('/'), Month2, Lit('/'), Year4]
    ensures DobFormats[3] == [Month2, Lit('/'), Day2, Lit('/'), Year4]
  {
  }

  /**
   * A text with a slash third, written as the n-th format (day first or
   * month first) writes d, leads the format loop to d when the day-first
   * format is that format or fails on it.
   */
  lemma DobLoopAt(today: Date, s: string, d: Date, n: nat)
    requires Valid(today) && Valid(d) && AgeInWindow(today, d) && (n == 2 || n == 3)
    requires |s| == 10 && s[2] == '/'
    requires s == Written(d, DobFormats[n])
    requires n == 3 ==> Strptime(s, DobFormats[2]).None?
    ensures Utils.FirstAdultFormat(today, s, DobFormats, 0) == Some(FormatIso(d))
  {
    DobFormatsRoundTrip(d, n);
    YearFirstDobFail(s);
    Utils.FirstParsedFormat(today, s, d, DobFormats, n);
  }

  /** The two year-first formats of validate_dob fail on a text with a slash third. */
  lemma YearFirstDobFail(s: string)
    requires |s| >= 4 && s[2] == '/'
    ensures Strptime(s, DobFormats[0]).None? && Strptime(s, DobFormats[1]).None?
  {
    DobFormatsOrder();
    Utils.SlashNotYear(s);
    Utils.YearLedFails(s, DobFormats[0]);
    Utils.YearLedFails(s, DobFormats[1]);
  }

  /** A verdict reached by the format loop. */
  lemma DobViaFormat(today: Date, dob: string)
    requires Valid(today) && Utils.FirstAdultFormat(today, Strip(dob), DobFormats, 0).Some?
    ensures DobVerdict(today, dob) == (true, Utils.FirstAdultFormat(today, Strip(dob), DobFormats, 0))
  {
  }

  lemma DobReadAt(today: Date, s: string, d: Date, n: nat)
    requires Valid(today) && Valid(d) && AgeInWindow(today, d) && (n == 2 || n == 3)
    requires Utils.SlashThird(s) && s == Written(d, DobFormats[n])
    requires n == 3 ==> Strptime(s, DobFormats[2]).None?
    ensures DobVerdict(today, s) == (true, Some(FormatIso(d)))
  {
    StripUnspaced(s);
    DobLoopAt(today, s, d, n);
    DobViaFormat(today, s);
  }

  lemma AprilExamples()
    ensures Written(Date(1990, 4, 3), [Day2, Lit('/'), Month2, Lit('/'), Year4]) == "03/04/1990"
    ensures FormatIso(Date(1990, 4, 3)) == "1990-04-03" && Valid(Date(1990, 4, 3))
  {
    AprilNumbers();
    Utils.WrittenSlashed(Date(1990, 4, 3), Day2, Month2);
  }

  lemma AprilNumbers()
    ensures WrittenOne(Date(1990, 4, 3), Day2) == "03" && WrittenOne(Date(1990, 4, 3), Month2) == "04"
    ensures Pad(1990, 4) == "1990"
  {
    Utils.PadYearExample();
    Utils.PadSmallExamples();
  }

  /**
   * "03/04/1990" fits both the day-first and the month-first format;
   * validate_dob tries day first, so it is 3 April 1990 (standardize_date
   * reads the same text as 4 March).
   */
  lemma DobVerdictAmbiguousIsDayFirst(today: Date)
    requires Valid(today) && AgeInWindow(today, Date(1990, 4, 3))
    ensures DobVerdict(today, "03/04/1990") == (true, Some("1990-04-03"))
  {
    AprilExamples();
    DobFormatsOrder();
    Utils.SlashThirdExamples();
    DobReadAt(today, "03/04/1990", Date(1990, 4, 3), 2);
  }

  /** "23/05/1990" is read day first, as 23 May 1990. */
  lemma DobVerdictDayFirst(today: Date)
    requires Valid(today) && AgeInWindow(today, Date(1990, 5, 23))
    ensures DobVerdict(today, "23/05/1990") == (true, Some("1990-05-23"))
  {
    Utils.WrittenMayDayFirst();
    Utils.IsoExamples();
    DobFormatsOrder();
    Utils.SlashThirdExamples();
    DobReadAt(today, "23/05/1990", Date(1990, 5, 23), 2);
  }

  /** "05/23/1990" has no 23rd month, so the day-first format fails and the month-first one reads 23 May 1990. */
  lemma DobVerdictMonthFirst(today: Date)
    requires Valid(today) && AgeInWindow(today, Date(1990, 5, 23))
    ensures DobVerdict(today, "05/23/1990") == (true, Some("1990-05-23"))
  {
    Utils.WrittenMayMonthFirst();
    Utils.IsoExamples();
    DobFormatsOrder();
    Utils.SlashThirdExamples();
    NoMonth23After05(DobFormats[2]);
    DobReadAt(today, "05/23/1990", Date(1990, 5, 23), 3);
  }

  /** A format reading %d, '/', %m, '/' rejects "05/23/1990": "2" is the only month reading of "23", and '3' is no slash. */
  lemma NoMonth23After05(fmt: seq<Directive>)
    requires |fmt| >= 4 && fmt[0] == Day2 && fmt[1] == Lit('/') && fmt[2] == Month2 && fmt[3] == Lit('/')
    ensures Strptime("05/23/1990", fmt).None?
  {
    var s := "05/23/1990";
    var f0 := Fields(1900, 1, 1);
    var dAlts := Alternatives(s, 0, Day2);
    assert dAlts == [Piece(2, DayField, 5)];
    var f1 := Apply(f0, dAlts[0]);
    assert Alternatives(s, 2, Lit('/')) == [Piece(1, NoField, 0)];
    var mAlts := Alternatives(s, 3, Month2);
    assert mAlts == [Piece(1, MonthField, 2)];
    assert Alternatives(s, 4, Lit('/')) == [];
    assert fmt[2..][1..] == fmt[3..];
    assert MatchFrom(s, 4, fmt[3..], Apply(f1, mAlts[0])) == None;
    assert TryPieces(s, 3, fmt[2..], f1, mAlts, 1) == None;
    assert MatchFrom(s, 3, fmt[2..], f1) == None;
    assert fmt[1..][1..] == fmt[2..];
    assert TryPieces(s, 2, fmt[1..], f1, [Piece(1, NoField, 0)], 1) == None;
    assert MatchFrom(s, 2, fmt[1..], f1) == None;
    assert TryPieces(s, 0, fmt, f0, dAlts, 1) == None;
    assert MatchFrom(s, 0, fmt, f0) == None;
  }

  // ---------------------------------------------------------------------------
  // _extract_json_from_response
  // ---------------------------------------------------------------------------

  /** str.replace(pat, rep) from position i: non-overlapping occurrences, left to right. */
  function ReplaceFrom(s: string, pat: string, rep: string, i: nat): (r: string)
    requires pat != [] && i <= |s|
    decreases |s| - i
  {
    if i + |pat| > |s| then s[i..]
    else if s[i..i + |pat|] == pat then rep + ReplaceFrom(s, pat, rep, i + |pat|)
    else [s[i]] + ReplaceFrom(s, pat, rep, i + 1)
  }

  /** str.replace(pat, rep) */
  function Replace(s: string, pat: string, rep: string): string
    requires pat != []
  {
    ReplaceFrom(s, pat, rep, 0)
  }

  /**
   * re.sub(r'(\w+):', r'"\1":', s) from position i. A word run not followed
   * by ':' fails at every start inside it, so each maximal run ending at a
   * colon is quoted and every other character is copied.
   */
  function QuoteKeys(s: string, i: nat): (r: string)
    requires i <= |s|
    decreases |s| - i
  {
    if i == |s| then []
    else if IsWordChar(s[i]) then
      var e := SkipLeft(s, i, IsWordChar);
      if e < |s| && s[e] == ':' then "\"" + s[i..e] + "\":" + QuoteKeys(s, e + 1)
      else s[i..e] + QuoteKeys(s, e)
    else [s[i]] + QuoteKeys(s, i + 1)
  }

  /** Every colon follows a character that is not a word character: there is no bare key to quote. */
  predicate NoBareKey(s: string) {
    forall k :: 1 <= k < |s| && s[k] == ':' ==> !IsWordChar(s[k - 1])
  }

  /** Text whose keys are all quoted (as a well-formed JSON object's are) passes the key quoting unchanged. */
  lemma {:induction false} QuoteKeysKeepsQuoted(s: string, i: nat)
    requires i <= |s| && NoBareKey(s)
    ensures QuoteKeys(s, i) == s[i..]
    decreases |s| - i
  {
    if i < |s| {
      if IsWordChar(s[i]) {
        var e := SkipLeft(s, i, IsWordChar);
        assert SkipLeft(s, i, IsWordChar) == SkipLeft(s, i + 1, IsWordChar);
        assert IsWordChar(s[e - 1]);
        assert e < |s| ==> s[e] != ':';
        assert QuoteKeys(s, i) == s[i..e] + QuoteKeys(s, e);
        QuoteKeysKeepsQuoted(s, e);
        SliceJoin(s, i, e);
      } else {
        QuoteKeysKeepsQuoted(s, i + 1);
        SliceJoin(s, i, i + 1);
      }
    }
  }

  /** The clean-up applied to each candidate: quotes, bare keys, Python booleans. */
  function Cleanup(m: string): string {
    Replace(Replace(QuoteKeys(Replace(m, "'", "\""), 0), "True", "true"), "False", "false")
  }

  /** re.findall(r'\{[^{}]*\}', s) from position i. */
  function FlatMatches(s: string, i: nat): (r: seq<string>)
    requires i <= |s|
    ensures forall k :: 0 <= k < |r| ==> AiExtractorOld.FlatObjectText(r[k])
    decreases |s| - i
  {
    if i == |s| then []
    else
      var m := AiExtractorOld.FlatBraceAt(s, i);
      if m.Some? then [m.value] + FlatMatches(s, i + |m.value|) else FlatMatches(s, i + 1)
  }

  /**
   * `\{.*?KEY.*?\}` under re.DOTALL at i: from a '{', the first KEY after
   * it and then the first '}' after the key; later keys cannot help when
   * no '}' follows the first.
   */
  function KeyedAt(s: string, i: nat, key: string): (r: Option<string>)
    requires i <= |s|
    ensures r.Some? ==> i + |r.value| <= |s| && |r.value| >= 2 && r.value == s[i..i + |r.value|]
    ensures r.Some? ==> r.value[0] == '{' && r.value[|r.value| - 1] == '}'
  {
    if i < |s| && s[i] == '{' then
      var k := FindFrom(s, key, i + 1);
      if k == -1 then None
      else
        var c := CharFrom(s, '}', k + |key|);
        if c < |s| then Some(s[i..c + 1]) else None
    else None
  }

  /** re.findall of a keyed pattern from position i. */
  function KeyedMatches(s: string, i: nat, key: string): (r: seq<string>)
    requires i <= |s|
    ensures forall k :: 0 <= k < |r| ==> r[k] != [] && r[k][0] == '{'
    decreases |s| - i
  {
    if i == |s| then []
    else
      var m := KeyedAt(s, i, key);
      if m.Some? then [m.value] + KeyedMatches(s, i + |m.value|, key) else KeyedMatches(s, i + 1, key)
  }

  /** The matches of the three patterns, in the order they are tried. */
  function PatternMatches(text: string): (r: seq<seq<string>>)
    ensures |r| == 3
  {
    [FlatMatches(text, 0), KeyedMatches(text, 0, "\"is_name\""), KeyedMatches(text, 0, "\"confidence\"")]
  }

  /** The first candidate whose clean-up parses as an object. */
  function FirstParsed(ms: seq<string>, loads: string -> Option<Dict>): (r: Option<Dict>)
    ensures r.Some? ==> exists k :: 0 <= k < |ms| && loads(Cleanup(ms[k])) == r
    ensures r.None? ==> forall k :: 0 <= k < |ms| ==> loads(Cleanup(ms[k])).None?
  {
    if ms == [] then None
    else
      var v := loads(Cleanup(ms[0]));
      if v.Some? then v else FirstParsed(ms[1..], loads)
  }

  /** The first candidate of the first pattern that yields one. */
  function FirstParsedGroups(gs: seq<seq<string>>, loads: string -> Option<Dict>): (r: Option<Dict>)
    ensures r.None? ==> forall g :: 0 <= g < |gs| ==> FirstParsed(gs[g], loads).None?
  {
    if gs == [] then None
    else
      var v := FirstParsed(gs[0], loads);
      if v.Some? then v else FirstParsedGroups(gs[1..], loads)
  }

  /** `\bWORD\b` at i, ignoring case; w is given in lower case. */
  predicate WordAt(s: string, i: nat, w: string) {
    i + |w| <= |s| && Lower(s[i..i + |w|]) == w
    && (i == 0 || !IsWordChar(s[i - 1])) && (i + |w| == |s| || !IsWordChar(s[i + |w|]))
  }

  /** re.search(r'\bWORD\b', s, re.IGNORECASE) from i. */
  function HasWordFrom(s: string, w: string, i: nat): (b: bool)
    requires i <= |s|
    ensures b <==> exists k :: i <= k <= |s| && WordAt(s, k, w)
    decreases |s| - i
  {
    WordAt(s, i, w) || (i < |s| && HasWordFrom(s, w, i + 1))
  }

  /** `(0\.\d+|1\.0)` at i: a greedy run of digits after "0.", or "1.0". */
  function ConfidenceAt(s: string, i: nat): (r: Option<string>)
    requires i <= |s|
    ensures r.Some? ==> |r.value| >= 3 && i + |r.value| <= |s| && r.value == s[i..i + |r.value|]
  {
    if i + 2 < |s| && s[i] == '0' && s[i + 1] == '.' && IsDigit(s[i + 2]) then Some(s[i..SkipLeft(s, i + 2, IsDigit)])
    else if i + 3 <= |s| && s[i..i + 3] == "1.0" then Some(s[i..i + 3])
    else None
  }

  /** re.search of the confidence pattern: the leftmost match. */
  function ConfidenceSearch(s: string, i: nat): (r: Option<string>)
    requires i <= |s|
    ensures r.Some? ==> exists k :: i <= k <= |s| && ConfidenceAt(s, k) == r &&
                          (forall j :: i <= j < k ==> ConfidenceAt(s, j).None?)
    ensures r.None? ==> forall k :: i <= k <= |s| ==> ConfidenceAt(s, k).None?
    decreases |s| - i
  {
    var m := ConfidenceAt(s, i);
    if m.Some? then m
    else if i == |s| then None
    else
      var r := ConfidenceSearch(s, i + 1);
      assert r.Some? ==> exists k :: i <= k <= |s| && ConfidenceAt(s, k) == r &&
                                     (forall j :: i <= j < k ==> ConfidenceAt(s, j).None?) by {
        if r.Some? {
          var k :| i + 1 <= k <= |s| && ConfidenceAt(s, k) == r &&
                   (forall j :: i + 1 <= j < k ==> ConfidenceAt(s, j).None?);
          assert forall j :: i <= j < k ==> ConfidenceAt(s, j).None?;
        }
      }
      r
  }

  /** The words that stand for a positive and for a negative answer. */
  predicate SaysYes(text: string) { HasWordFrom(text, "true", 0) || HasWordFrom(text, "yes", 0) }
  predicate SaysNo(text: string) { HasWordFrom(text, "false", 0) || HasWordFrom(text, "no", 0) }

  /**
   * Stage 3: a verdict built from the words of the reply, "true"/"yes"
   * taking precedence over "false"/"no", with the first decimal in [0, 1]
   * as the confidence and 0.5 when there is none or it is zero; None when
   * the reply has no such word.
   */
  function VerdictFromWords(text: string): (r: Option<Dict>)
    ensures r.None? <==> !SaysYes(text) && !SaysNo(text)
    ensures r.Some? ==> r.value.Keys == {"is_name", "confidence"}
    ensures r.Some? ==> r.value["is_name"] == Bool(SaysYes(text))
    ensures r.Some? ==> r.value["confidence"].Num? && Truthy(r.value["confidence"])
    ensures r.Some? && ConfidenceSearch(text, 0).None? ==> r.value["confidence"] == Num("0.5")
    ensures r.Some? && ConfidenceSearch(text, 0).Some? && NumNonZero(ConfidenceSearch(text, 0).value) ==>
              r.value["confidence"] == Num(ConfidenceSearch(text, 0).value)
    ensures r.Some? && ConfidenceSearch(text, 0).Some? && !NumNonZero(ConfidenceSearch(text, 0).value) ==>
              r.value["confidence"] == Num("0.5")
  {
    if !SaysYes(text) && !SaysNo(text) then None
    else
      var c := ConfidenceSearch(text, 0);
      var conf := if c.Some? && NumNonZero(c.value) then c.value else "0.5";
      assert NumNonZero("0.5") by { assert "0.5"[1..] == ".5" && ".5"[1..] == "5"; }
      Some(map["is_name" := Bool(SaysYes(text)), "confidence" := Num(conf)])
  }

  /**
   * The object _extract_json_from_response returns: the whole stripped
   * reply when it parses; else the first cleaned-up match of the three
   * patterns, in order, that parses to an object; else the verdict built
   * from the words of the reply.
   */
  function ExtractedJson(text: string, loads: string -> Option<Dict>): (r: Option<Dict>)
    ensures loads(Strip(text)).Some? ==> r == loads(Strip(text))
    ensures r.None? ==> VerdictFromWords(text).None?
  {
    var direct := loads(Strip(text));
    if direct.Some? then direct
    else
      var viaMatch := FirstParsedGroups(PatternMatches(text), loads);
      if viaMatch.Some? then viaMatch else VerdictFromWords(text)
  }

  /** _extract_json_from_response: direct parse, then each match of each pattern in turn, then the words. */
  method ExtractJsonFromResponse(text: string, loads: string -> Option<Dict>) returns (r: Option<Dict>)
    ensures r == ExtractedJson(text, loads)
  {
    r := loads(Strip(text));
    if r.Some? {
      return;
    }
    var groups := PatternMatches(text);
    var g := 0;
    while g < |groups|
      invariant 0 <= g <= |groups|
      invariant FirstParsedGroups(groups[g..], loads) == FirstParsedGroups(groups, loads)
    {
      var ms := groups[g];
      assert groups[g..][1..] == groups[g + 1..];
      var j := 0;
      while j < |ms|
        invariant 0 <= j <= |ms|
        invariant FirstParsed(ms[j..], loads) == FirstParsed(ms, loads)
      {
        var v := loads(Cleanup(ms[j]));
        assert ms[j..][1..] == ms[j + 1..];
        if v.Some? {
          return v;
        }
        j := j + 1;
      }
      g := g + 1;
    }
    r := VerdictFromWords(text);
  }

  /** A reply with a positive word is read as a name even when it also has a negative one. */
  lemma YesBeforeNo(text: string, loads: string -> Option<Dict>)
    requires loads(Strip(text)).None? && FirstParsedGroups(PatternMatches(text), loads).None?
    requires SaysYes(text) && SaysNo(text)
    ensures ExtractedJson(text, loads).Some?
    ensures ExtractedJson(text, loads).value["is_name"] == Bool(true)
  {
  }

  // ---------------------------------------------------------------------------
  // preprocess_japanese_text
  // ---------------------------------------------------------------------------

  /** The OCR fixes, in the dictionary's order: each character and the text it becomes. */
  const Replacements: seq<(char, string)> := [
    ('\U{2015}', "\U{30FC}"), ('\U{FF5E}', "\U{301C}"),
    ('\U{58F1}', "\U{4E00}"), ('\U{5F10}', "\U{4E8C}"), ('\U{53C2}', "\U{4E09}"),
    ('\U{25CB}', "0"), ('\U{3007}', "0"),
    ('\U{3231}', "\U{682A}\U{5F0F}\U{4F1A}\U{793E}"), ('\U{3232}', "\U{6709}\U{9650}\U{4F1A}\U{793E}"),
    ('\U{FF10}', "0"), ('\U{FF11}', "1"), ('\U{FF12}', "2"), ('\U{FF13}', "3"), ('\U{FF14}', "4"),
    ('\U{FF15}', "5"), ('\U{FF16}', "6"), ('\U{FF17}', "7"), ('\U{FF18}', "8"), ('\U{FF19}', "9")
  ]

  /** The characters the fixes replace: dashes, a wave dash, old numerals, circles, ㈱, ㈲ and full-width digits. */
  predicate OcrChar(c: char) {
    c == '\U{2015}' || c == '\U{FF5E}' || c == '\U{58F1}' || c == '\U{5F10}' || c == '\U{53C2}'
    || c == '\U{25CB}' || c == '\U{3007}' || c == '\U{3231}' || c == '\U{3232}'
    || ('\U{FF10}' <= c <= '\U{FF19}')
  }

  /** The characters the fixes write. */
  predicate FixChar(c: char) {
    IsDigit(c) || c == '\U{30FC}' || c == '\U{301C}' || c == '\U{4E00}' || c == '\U{4E8C}' || c == '\U{4E09}'
    || c == '\U{682A}' || c == '\U{5F0F}' || c == '\U{4F1A}' || c == '\U{793E}' || c == '\U{6709}' || c == '\U{9650}'
  }

  /** Every entry replaces an OCR character by characters that are not OCR characters. */
  lemma ReplacementsShape()
    ensures forall k :: 0 <= k < |Replacements| ==> OcrChar(Replacements[k].0)
    ensures forall k, m :: 0 <= k < |Replacements| && 0 <= m < |Replacements[k].1| ==> FixChar(Replacements[k].1[m])
    ensures forall c :: OcrChar(c) ==> exists k :: 0 <= k < |Replacements| && Replacements[k].0 == c
  {
    forall c | OcrChar(c)
      ensures exists k :: 0 <= k < |Replacements| && Replacements[k].0 == c
    {
      var k := if '\U{FF10}' <= c <= '\U{FF19}' then 9 + (c as int - 0xFF10)
               else if c == '\U{2015}' then 0 else if c == '\U{FF5E}' then 1
               else if c == '\U{58F1}' then 2 else if c == '\U{5F10}' then 3
               else if c == '\U{53C2}' then 4 else if c == '\U{25CB}' then 5
               else if c == '\U{3007}' then 6 else if c == '\U{3231}' then 7 else 8;
      assert Replacements[k].0 == c;
    }
  }

  /** The index of the first of the first n entries that replaces c. */
  function FindEntry(c: char, table: seq<(char, string)>, n: nat): (r: Option<nat>)
    requires n <= |table|
    ensures r.Some? ==> r.value < n && table[r.value].0 == c
    ensures r.None? ==> forall k :: 0 <= k < n ==> table[k].0 != c
  {
    if n == 0 then None
    else
      var f := FindEntry(c, table, n - 1);
      if f.Some? then f else if table[n - 1].0 == c then Some(n - 1) else None
  }

  /** What the first n entries make of c: its first entry's text, or c itself. */
  function LookupUpTo(c: char, table: seq<(char, string)>, n: nat): (r: string)
    requires n <= |table|
  {
    var f := FindEntry(c, table, n);
    if f.Some? then table[f.value].1 else [c]
  }

  /** One pass over the text, each character replaced by what the first n entries make of it. */
  function Translate(s: string, table: seq<(char, string)>, n: nat): (r: string)
    requires n <= |table|
  {
    if s == [] then [] else LookupUpTo(s[0], table, n) + Translate(s[1..], table, n)
  }

  lemma {:induction false} TranslateNone(s: string, table: seq<(char, string)>)
    ensures Translate(s, table, 0) == s
  {
    if s != [] {
      TranslateNone(s[1..], table);
    }
  }

  lemma {:induction false} TranslateAppend(a: string, b: string, table: seq<(char, string)>, n: nat)
    requires n <= |table|
    ensures Translate(a + b, table, n) == Translate(a, table, n) + Translate(b, table, n)
  {
    if a != [] {
      assert (a + b)[0] == a[0];
      assert (a + b)[1..] == a[1..] + b;
      TranslateAppend(a[1..], b, table, n);
    } else {
      assert a + b == b;
    }
  }

  /** A one-entry translation of a text without its character leaves the text alone. */
  lemma {:induction false} TranslateAbsent(s: string, c: char, t: string)
    requires c !in s
    ensures Translate(s, [(c, t)], 1) == s
  {
    if s != [] {
      TranslateAbsent(s[1..], c, t);
    }
  }

  /** str.replace of one character is the one-entry translation. */
  lemma {:induction false} ReplaceSingle(s: string, c: char, t: string, i: nat)
    requires i <= |s|
    ensures ReplaceFrom(s, [c], t, i) == Translate(s[i..], [(c, t)], 1)
    decreases |s| - i
  {
    if i < |s| {
      ReplaceSingle(s, c, t, i + 1);
      assert s[i..][1..] == s[i + 1..];
      assert s[i..i + 1] == [c] <==> s[i] == c;
    }
  }

  /** Replacing entry k's character after the first k entries is the translation by the first k + 1. */
  lemma {:induction false} TranslateStep(s: string, table: seq<(char, string)>, k: nat)
    requires k < |table|
    requires forall j :: 0 <= j < k ==> table[k].0 !in table[j].1
    ensures Translate(Translate(s, table, k), [table[k]], 1) == Translate(s, table, k + 1)
  {
    if s != [] {
      var x := s[0];
      var c := table[k].0;
      var head := LookupUpTo(x, table, k);
      TranslateAppend(head, Translate(s[1..], table, k), [table[k]], 1);
      TranslateStep(s[1..], table, k);
      var f := FindEntry(x, table, k);
      if f.Some? {
        TranslateAbsent(head, c, table[k].1);
      } else {
        assert head == [x];
        assert [x][1..] == [];
      }
    }
  }

  /** str.replace of entry k's character, applied after the first k entries. */
  lemma ReplaceStep(s: string, table: seq<(char, string)>, k: nat)
    requires k < |table|
    requires forall j :: 0 <= j < k ==> table[k].0 !in table[j].1
    ensures Replace(Translate(s, table, k), [table[k].0], table[k].1) == Translate(s, table, k + 1)
  {
    ReplaceSingle(Translate(s, table, k), table[k].0, table[k].1, 0);
    assert Translate(s, table, k)[0..] == Translate(s, table, k);
    assert [(table[k].0, table[k].1)] == [table[k]];
    TranslateStep(s, table, k);
  }

  /** No replacement writes a character that another replaces. */
  lemma ReplacementsFresh()
    ensures forall k, j :: 0 <= j < |Replacements| && 0 <= k < |Replacements| ==>
              Replacements[k].0 !in Replacements[j].1
  {
    ReplacementsShape();
    forall k, j | 0 <= j < |Replacements| && 0 <= k < |Replacements|
      ensures Replacements[k].0 !in Replacements[j].1
    {
      var c := Replacements[k].0;
      assert OcrChar(c);
      forall m | 0 <= m < |Replacements[j].1|
        ensures Replacements[j].1[m] != c
      {
        assert FixChar(Replacements[j].1[m]);
      }
    }
  }

  /** After the fixes, no OCR character is left. */
  lemma {:induction false} TranslateClears(s: string)
    ensures forall m :: 0 <= m < |Translate(s, Replacements, |Replacements|)| ==>
              !OcrChar(Translate(s, Replacements, |Replacements|)[m])
  {
    if s != [] {
      ReplacementsShape();
      TranslateClears(s[1..]);
      var x := s[0];
      var head := LookupUpTo(x, Replacements, |Replacements|);
      var f := FindEntry(x, Replacements, |Replacements|);
      forall m | 0 <= m < |head|
        ensures !OcrChar(head[m])
      {
        if f.Some? {
          assert FixChar(head[m]);
        } else {
          assert head == [x];
        }
      }
    }
  }

  /** The first replacement's wording: each full-width digit becomes its ASCII digit. */
  lemma FullWidthDigitsNarrowed(c: char)
    requires '\U{FF10}' <= c <= '\U{FF19}'
    ensures LookupUpTo(c, Replacements, |Replacements|) == [(c as int - 0xFF10 + '0' as int) as char]
  {
    var k := 9 + (c as int - 0xFF10);
    assert Replacements[k].0 == c;
    var f := FindEntry(c, Replacements, |Replacements|);
    assert f.Some?;
    ReplacementsShape();
    assert f.value == k;
  }

  /** `[ぁ-んァ-ヶー一-龯]`: hiragana, katakana, the long-vowel mark and the CJK ideographs. */
  predicate KanaKanji(c: char) {
    ('\U{3041}' <= c <= '\U{3093}') || ('\U{30A1}' <= c <= '\U{30F6}') || c == '\U{30FC}'
    || ('\U{4E00}' <= c <= '\U{9FAF}')
  }

  /** A whitespace run of r from a + 1 to e - 1, between two kana or kanji at a and e. */
  predicate KanaGap(r: string, a: int, e: int) {
    0 <= a && a + 1 < e < |r| && KanaKanji(r[a]) && KanaKanji(r[e]) && forall m :: a < m < e ==> IsSpace(r[m])
  }

  /**
   * re.sub(r'([ぁ-んァ-ヶー一-龯])\s+([ぁ-んァ-ヶー一-龯])', r'\1\2', s) from
   * i, as written: the match consumes the character after the gap, so the
   * next search starts past it and a gap that follows it is kept.
   */
  function JoinKanaAsWritten(s: string, i: nat): (r: string)
    requires i <= |s|
    decreases |s| - i
  {
    if i == |s| then []
    else if KanaKanji(s[i]) then
      var e := SkipLeft(s, i + 1, IsSpace);
      if i + 1 < e < |s| && KanaKanji(s[e]) then [s[i], s[e]] + JoinKanaAsWritten(s, e + 1)
      else [s[i]] + JoinKanaAsWritten(s, i + 1)
    else [s[i]] + JoinKanaAsWritten(s, i + 1)
  }

  /** As written, "あ い う" becomes "あい う": the second gap survives. */
  lemma JoinKanaAsWrittenKeepsGap()
    ensures JoinKanaAsWritten("\U{3042} \U{3044} \U{3046}", 0) == "\U{3042}\U{3044} \U{3046}"
    ensures KanaGap(JoinKanaAsWritten("\U{3042} \U{3044} \U{3046}", 0), 1, 3)
  {
    var s := "\U{3042} \U{3044} \U{3046}";
    assert SkipLeft(s, 2, IsSpace) == 2;
    assert SkipLeft(s, 1, IsSpace) == 2;
    assert SkipLeft(s, 4, IsSpace) == 4;
    assert JoinKanaAsWritten(s, 4) == [s[4]];
    assert JoinKanaAsWritten(s, 3) == [s[3], s[4]];
  }

  /**
   * The rewrite evidently intended: every whitespace run between two kana
   * or kanji is removed; the character after the run stays in play, as
   * with a lookahead `(?=[ぁ-んァ-ヶー一-龯])`.
   */
  function JoinKana(s: string, i: nat): (r: string)
    requires i <= |s|
    decreases |s| - i
  {
    if i == |s| then []
    else if KanaKanji(s[i]) then
      var e := SkipLeft(s, i + 1, IsSpace);
      if i + 1 < e < |s| && KanaKanji(s[e]) then [s[i]] + JoinKana(s, e)
      else [s[i]] + JoinKana(s, i + 1)
    else [s[i]] + JoinKana(s, i + 1)
  }

  /** The leading whitespace of s[j..] and the character after it are copied as they are. */
  lemma {:induction false} JoinKanaHead(s: string, j: nat)
    requires j <= |s|
    ensures var e := SkipLeft(s, j, IsSpace);
            var r := JoinKana(s, j);
            |r| >= e - j && r[..e - j] == s[j..e] &&
            (e < |s| ==> |r| > e - j && r[e - j] == s[e]) &&
            (e == |s| ==> r == s[j..])
    decreases |s| - j
  {
    var e := SkipLeft(s, j, IsSpace);
    if j < e {
      SkipLeftStep(s, j, IsSpace);
      JoinKanaHead(s, j + 1);
      JoinKanaSpace(s, j);
      ConsSlice(s, j, e, JoinKana(s, j + 1));
      SliceJoin(s, j, j + 1);
    }
  }

  /** A whitespace character is copied by the kana join. */
  lemma JoinKanaSpace(s: string, j: nat)
    requires j < |s| && IsSpace(s[j])
    ensures JoinKana(s, j) == [s[j]] + JoinKana(s, j + 1)
  {
    assert !KanaKanji(s[j]);
  }

  /** A gap of [c] + rest past its first character is a gap of rest. */
  lemma NoGapShift(c: char, rest: string, a: int, e: int)
    requires a > 0 && !KanaGap(rest, a - 1, e - 1)
    ensures !KanaGap([c] + rest, a, e)
  {
    var r := [c] + rest;
    if 0 <= a && a + 1 < e < |r| && (forall m :: a < m < e ==> IsSpace(r[m])) {
      forall m | a - 1 < m < e - 1
        ensures IsSpace(rest[m])
      {
        assert rest[m] == r[m + 1];
      }
      assert r[a] == rest[a - 1] && r[e] == rest[e - 1];
    }
  }

  /** The output of JoinKana from i has no gap that starts at its first character. */
  lemma NoGapAtHead(s: string, i: nat)
    requires i < |s|
    ensures forall e :: !KanaGap(JoinKana(s, i), 0, e)
  {
    var r := JoinKana(s, i);
    var E := SkipLeft(s, i + 1, IsSpace);
    var joined := KanaKanji(s[i]) && i + 1 < E < |s| && KanaKanji(s[E]);
    var j := if joined then E else i + 1;
    var rest := JoinKana(s, j);
    assert r == [s[i]] + rest;
    JoinKanaHead(s, j);
    if joined {
      assert SkipLeft(s, E, IsSpace) == E;
      assert r[1] == s[E];
    } else if KanaKanji(s[i]) {
      forall e | 1 < e < |r| && (forall m :: 0 < m < e ==> IsSpace(r[m]))
        ensures !KanaKanji(r[e])
      {
        if E < |s| {
          assert r[E - i] == rest[E - i - 1] == s[E];
          assert e <= E - i;
        }
        if i + e < E {
          assert r[e] == rest[e - 1] == s[i + 1..E][e - 1] == s[i + e];
        }
      }
    }
  }

  /** With the gaps closed as intended, no whitespace run is left between two kana or kanji. */
  lemma {:induction false} JoinKanaNoGap(s: string, i: nat)
    requires i <= |s|
    ensures forall a, e :: !KanaGap(JoinKana(s, i), a, e)
    decreases |s| - i
  {
    if i < |s| {
      var E := SkipLeft(s, i + 1, IsSpace);
      var joined := KanaKanji(s[i]) && i + 1 < E < |s| && KanaKanji(s[E]);
      var j := if joined then E else i + 1;
      var rest := JoinKana(s, j);
      assert JoinKana(s, i) == [s[i]] + rest;
      JoinKanaNoGap(s, j);
      NoGapAtHead(s, i);
      forall a, e | a > 0
        ensures !KanaGap(JoinKana(s, i), a, e)
      {
        NoGapShift(s[i], rest, a, e);
      }
    }
  }

  /** `[a-zA-Z0-9._%+-]+` ends, `\s*\.\s*([a-zA-Z]{2,})` at g: the start and end of the letters. */
  function LabelAt(s: string, g: nat): (r: Option<(nat, nat)>)
    requires g <= |s|
    ensures r.Some? ==> g < r.value.0 && r.value.0 + 2 <= r.value.1 <= |s|
  {
    var p := SkipLeft(s, g, IsSpace);
    if p < |s| && s[p] == '.' then
      var h := SkipLeft(s, p + 1, IsSpace);
      var l := SkipLeft(s, h, IsLetter);
      if l - h >= 2 then Some((h, l)) else None
    else None
  }

  /** The domain group backs off from its longest end one character at a time until the label follows. */
  function DomainEnd(s: string, c: nat, g: nat): (r: Option<(nat, nat, nat)>)
    requires c < g <= |s|
    ensures r.Some? ==> c < r.value.0 <= g && LabelAt(s, r.value.0) == Some((r.value.1, r.value.2))
    decreases g
  {
    var t := LabelAt(s, g);
    if t.Some? then Some((g, t.value.0, t.value.1))
    else if g - 1 > c then DomainEnd(s, c, g - 1)
    else None
  }

  /**
   * `([a-zA-Z0-9._%+-]+)\s*@\s*([a-zA-Z0-9.-]+)\s*\.\s*([a-zA-Z]{2,})` at i,
   * with its replacement `\1@\2.\3` and the end of the match.
   */
  function AddressAt(s: string, i: nat): (r: Option<(string, nat)>)
    requires i < |s|
    ensures r.Some? ==> i < r.value.1 <= |s|
  {
    if !LocalChar(s[i]) then None
    else
      var a := SkipLeft(s, i, LocalChar);
      var b := SkipLeft(s, a, IsSpace);
      if !(b < |s| && s[b] == '@') then None
      else
        var c := SkipLeft(s, b + 1, IsSpace);
        var d := SkipLeft(s, c, DomainChar);
        if d == c then None
        else
          var t := DomainEnd(s, c, d);
          if t.None? then None
          else Some((s[i..a] + "@" + s[c..t.value.0] + "." + s[t.value.1..t.value.2], t.value.2))
  }

  /** re.sub of the spaced-address pattern from i: spaces around the '@' and the dot are closed up. */
  function FixEmailSpacing(s: string, i: nat): (r: string)
    requires i <= |s|
    decreases |s| - i
  {
    if i == |s| then []
    else
      var m := AddressAt(s, i);
      if m.Some? then m.value.0 + FixEmailSpacing(s, m.value.1)
      else [s[i]] + FixEmailSpacing(s, i + 1)
  }

  /** An address put back together around its '@' and its dot is the text it came from. */
  lemma AddressParts(s: string, i: nat, a: nat, g: nat, l: nat)
    requires i <= a < g < l <= |s| && s[a] == '@' && s[g] == '.'
    ensures s[i..a] + "@" + s[a + 1..g] + "." + s[g + 1..l] == s[i..l]
  {
    assert s[i..l] == s[i..a] + [s[a]] + s[a + 1..g] + [s[g]] + s[g + 1..l];
  }

  /** Without whitespace, the label after a dot starts right after it. */
  lemma LabelAtUnspaced(s: string, g: nat)
    requires g <= |s| && NoSpace(s) && LabelAt(s, g).Some?
    ensures g < |s| && s[g] == '.' && LabelAt(s, g).value.0 == g + 1
  {
    assert SkipLeft(s, g, IsSpace) == g;
    assert SkipLeft(s, g + 1, IsSpace) == g + 1;
  }

  /** Where there is no whitespace, a match reproduces the text it matched. */
  lemma AddressAtUnspaced(s: string, i: nat)
    requires i < |s| && NoSpace(s)
    ensures AddressAt(s, i).Some? ==> AddressAt(s, i).value.0 == s[i..AddressAt(s, i).value.1]
  {
    var m := AddressAt(s, i);
    if m.Some? {
      var a := SkipLeft(s, i, LocalChar);
      assert SkipLeft(s, a, IsSpace) == a;
      assert SkipLeft(s, a + 1, IsSpace) == a + 1;
      var d := SkipLeft(s, a + 1, DomainChar);
      var t := DomainEnd(s, a + 1, d).value;
      LabelAtUnspaced(s, t.0);
      AddressParts(s, i, a, t.0, t.2);
    }
  }

  /** Text without whitespace passes the address fix unchanged. */
  lemma {:induction false} FixEmailKeepsUnspaced(s: string, i: nat)
    requires i <= |s| && NoSpace(s)
    ensures FixEmailSpacing(s, i) == s[i..]
    decreases |s| - i
  {
    if i < |s| {
      var m := AddressAt(s, i);
      AddressAtUnspaced(s, i);
      if m.Some? {
        FixEmailKeepsUnspaced(s, m.value.1);
        SliceJoin(s, i, m.value.1);
      } else {
        FixEmailKeepsUnspaced(s, i + 1);
        SliceJoin(s, i, i + 1);
      }
    }
  }

  /** " . " at d followed by two or more letters to the end is the label of a spaced address. */
  lemma LabelAtSpaced(s: string, d: nat)
    requires d + 5 <= |s| && s[d] == ' ' && s[d + 1] == '.' && s[d + 2] == ' '
    requires forall k :: d + 3 <= k < |s| ==> IsLetter(s[k])
    ensures LabelAt(s, d) == Some((d + 3, |s|))
  {
    MainExtractor.SkipLeftAt(s, d, d + 1, IsSpace);
    MainExtractor.SkipLeftAt(s, d + 2, d + 3, IsSpace);
    MainExtractor.SkipLeftAt(s, d + 3, |s|, IsLetter);
  }

  /** With a spaced label at d, the domain group keeps its longest end d. */
  lemma DomainEndSpaced(s: string, c: nat, d: nat)
    requires c < d && d + 5 <= |s| && s[d] == ' ' && s[d + 1] == '.' && s[d + 2] == ' '
    requires forall k :: d + 3 <= k < |s| ==> IsLetter(s[k])
    ensures DomainEnd(s, c, d) == Some((d, d + 3, |s|))
  {
    LabelAtSpaced(s, d);
  }

  /** A local part up to a and " @ " before a non-space: the runs stop at a, a + 1 and a + 3. */
  lemma LocalPartSpaced(s: string, a: nat)
    requires 0 < a && a + 3 < |s| && !IsSpace(s[a + 3])
    requires forall k :: 0 <= k < a ==> LocalChar(s[k])
    requires s[a] == ' ' && s[a + 1] == '@' && s[a + 2] == ' '
    ensures SkipLeft(s, 0, LocalChar) == a
    ensures SkipLeft(s, a, IsSpace) == a + 1
    ensures SkipLeft(s, a + 2, IsSpace) == a + 3
  {
    assert !LocalChar(s[a]) && !IsSpace(s[a + 1]);
    MainExtractor.SkipLeftAt(s, 0, a, LocalChar);
    MainExtractor.SkipLeftAt(s, a, a + 1, IsSpace);
    MainExtractor.SkipLeftAt(s, a + 2, a + 3, IsSpace);
  }

  /**
   * A local part up to a, " @ ", a domain up to d, " . " and a label of two
   * or more letters to the end is matched whole and closed up.
   */
  lemma AddressAtSpaced(s: string, a: nat, d: nat)
    requires 0 < a && a + 3 < d && d + 5 <= |s|
    requires forall k :: 0 <= k < a ==> LocalChar(s[k])
    requires s[a] == ' ' && s[a + 1] == '@' && s[a + 2] == ' '
    requires forall k :: a + 3 <= k < d ==> DomainChar(s[k])
    requires s[d] == ' ' && s[d + 1] == '.' && s[d + 2] == ' '
    requires forall k :: d + 3 <= k < |s| ==> IsLetter(s[k])
    ensures AddressAt(s, 0) == Some((s[0..a] + "@" + s[a + 3..d] + "." + s[d + 3..|s|], |s|))
  {
    assert DomainChar(s[a + 3]);
    LocalPartSpaced(s, a);
    MainExtractor.SkipLeftAt(s, a + 3, d, DomainChar);
    DomainEndSpaced(s, a + 3, d);
  }

  /** A class that holds on every character of a slice holds on those positions of the text. */
  lemma ClassOnSlice(s: string, i: nat, j: nat, p: char -> bool)
    requires i <= j <= |s| && forall k :: 0 <= k < j - i ==> p(s[i..j][k])
    ensures forall k :: i <= k < j ==> p(s[k])
  {
    forall k | i <= k < j
      ensures p(s[k])
    {
      assert s[i..j][k - i] == s[k];
    }
  }

  /** A text that is one spaced address and nothing else comes out of the fix closed up. */
  lemma FixEmailSpacingWhole(s: string, a: nat, d: nat)
    requires 0 < a && a + 3 < d && d + 5 <= |s|
    requires forall k :: 0 <= k < a ==> LocalChar(s[k])
    requires s[a] == ' ' && s[a + 1] == '@' && s[a + 2] == ' '
    requires forall k :: a + 3 <= k < d ==> DomainChar(s[k])
    requires s[d] == ' ' && s[d + 1] == '.' && s[d + 2] == ' '
    requires forall k :: d + 3 <= k < |s| ==> IsLetter(s[k])
    ensures FixEmailSpacing(s, 0) == s[0..a] + "@" + s[a + 3..d] + "." + s[d + 3..|s|]
  {
    AddressAtSpaced(s, a, d);
    assert FixEmailSpacing(s, |s|) == [];
  }

  /** Where the parts of a spaced address sit in `u @ v . w`: u ends at a and v at d. */
  lemma SpacedAddressIndices(s: string, u: string, v: string, w: string, a: nat, d: nat)
    requires s == u + " @ " + v + " . " + w && a == |u| && d == a + 3 + |v|
    ensures |s| == d + 3 + |w|
    ensures s[0..a] == u && s[a] == ' ' && s[a + 1] == '@' && s[a + 2] == ' '
    ensures s[a + 3..d] == v
    ensures s[d] == ' ' && s[d + 1] == '.' && s[d + 2] == ' '
    ensures s[d + 3..|s|] == w
  {
  }

  /**
   * A local part, " @ ", a domain, " . " and a label of two or more letters,
   * and nothing else, is closed up by the address fix to `u@v.w`.
   */
  lemma FixEmailSpacingCloses(u: string, v: string, w: string)
    requires u != [] && forall k :: 0 <= k < |u| ==> LocalChar(u[k])
    requires v != [] && forall k :: 0 <= k < |v| ==> DomainChar(v[k])
    requires |w| >= 2 && forall k :: 0 <= k < |w| ==> IsLetter(w[k])
    ensures FixEmailSpacing(u + " @ " + v + " . " + w, 0) == u + "@" + v + "." + w
  {
    var s := u + " @ " + v + " . " + w;
    var a: nat := |u|;
    var d: nat := a + 3 + |v|;
    SpacedAddressIndices(s, u, v, w, a, d);
    ClassOnSlice(s, 0, a, LocalChar);
    ClassOnSlice(s, a + 3, d, DomainChar);
    ClassOnSlice(s, d + 3, |s|, IsLetter);
    FixEmailSpacingWhole(s, a, d);
  }

  /** The spaced address of a résumé's OCR text is closed up by the address fix. */
  lemma FixEmailSpacingExample()
    ensures FixEmailSpacing("taro" + " @ " + "example" + " . " + "com", 0) == "taro" + "@" + "example" + "." + "com"
  {
    var u, v, w := "taro", "example", "com";
    assert forall k :: 0 <= k < |u| ==> LocalChar(u[k]);
    assert forall k :: 0 <= k < |v| ==> DomainChar(v[k]);
    assert forall k :: 0 <= k < |w| ==> IsLetter(w[k]);
    FixEmailSpacingCloses(u, v, w);
  }

  /** Text without OCR characters passes the table unchanged. */
  lemma {:induction false} TranslateKeepsClean(s: string)
    requires forall m :: 0 <= m < |s| ==> !OcrChar(s[m])
    ensures Translate(s, Replacements, |Replacements|) == s
  {
    if s != [] {
      ReplacementsShape();
      TranslateKeepsClean(s[1..]);
      assert FindEntry(s[0], Replacements, |Replacements|).None?;
    }
  }

  /** Text without whitespace has no gap to close. */
  lemma {:induction false} JoinKanaUnspaced(s: string, i: nat)
    requires i <= |s| && NoSpace(s)
    ensures JoinKana(s, i) == s[i..]
    decreases |s| - i
  {
    if i < |s| {
      if i + 1 < |s| {
        assert SkipLeft(s, i + 1, IsSpace) == i + 1;
      }
      JoinKanaUnspaced(s, i + 1);
      assert [s[i]] + s[i + 1..] == s[i..];
    }
  }

  /** Clean text, without whitespace or OCR characters, comes out of the preprocessing as it went in. */
  lemma PreprocessKeepsCleanText(text: string)
    requires NoSpace(text) && forall m :: 0 <= m < |text| ==> !OcrChar(text[m])
    ensures FixEmailSpacing(JoinKana(Translate(text, Replacements, |Replacements|), 0), 0) == text
  {
    TranslateKeepsClean(text);
    JoinKanaUnspaced(text, 0);
    assert text[0..] == text;
    FixEmailKeepsUnspaced(text, 0);
  }

  /** After the preprocessing no OCR character is left and no whitespace run separates two kana or kanji. */
  lemma PreprocessClearsOcrAndGaps(text: string)
    ensures var t := JoinKana(Translate(text, Replacements, |Replacements|), 0);
            (forall m :: 0 <= m < |t| ==> !OcrChar(t[m])) && forall a, e :: !KanaGap(t, a, e)
  {
    var u := Translate(text, Replacements, |Replacements|);
    TranslateClears(text);
    JoinKanaNoGap(u, 0);
    JoinKanaKeepsClean(u, 0);
  }

  /** JoinKana only drops characters, so a text free of OCR characters stays free of them. */
  lemma {:induction false} JoinKanaKeepsClean(s: string, i: nat)
    requires i <= |s| && forall m :: 0 <= m < |s| ==> !OcrChar(s[m])
    ensures forall m :: 0 <= m < |JoinKana(s, i)| ==> !OcrChar(JoinKana(s, i)[m])
    decreases |s| - i
  {
    if i < |s| {
      var E := SkipLeft(s, i + 1, IsSpace);
      var joined := KanaKanji(s[i]) && i + 1 < E < |s| && KanaKanji(s[E]);
      var j := if joined then E else i + 1;
      var rest := JoinKana(s, j);
      assert JoinKana(s, i) == [s[i]] + rest;
      JoinKanaKeepsClean(s, j);
    }
  }

  /** preprocess_japanese_text: the OCR fixes one after another, then the kana gaps and the spaced addresses closed. */
  method PreprocessJapaneseText(text: string) returns (r: string)
    ensures r == FixEmailSpacing(JoinKana(Translate(text, Replacements, |Replacements|), 0), 0)
  {
    ReplacementsFresh();
    TranslateNone(text, Replacements);
    r := text;
    var i := 0;
    while i < |Replacements|
      invariant 0 <= i <= |Replacements|
      invariant r == Translate(text, Replacements, i)
    {
      ReplaceStep(text, Replacements, i);
      r := Replace(r, [Replacements[i].0], Replacements[i].1);
      i := i + 1;
    }
    r := JoinKana(r, 0);
    r := FixEmailSpacing(r, 0);
  }
}
