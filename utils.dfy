/**
 * utils.py: the shared phone and date standardisers and the two
 * pattern-learning helpers (context hints and pattern keys).
 */
module Utils {
  import opened Text
  import opened Calendar

  // ---------------------------------------------------------------------------
  // standardize_phone_number
  // ---------------------------------------------------------------------------

  /** The characters `[\d+\-\(\)\s]` that survive cleaning. */
  predicate PhoneChar(c: char) {
    IsDigit(c) || c == '+' || c == '-' || c == '(' || c == ')' || IsSpace(c)
  }

  predicate AllPhoneChars(s: string) {
    forall i :: 0 <= i < |s| ==> PhoneChar(s[i])
  }

  /** re.sub(r'[^\d+\-\(\)\s]', '', phone).strip() */
  function CleanPhone(phone: string): string {
    Strip(Filter(phone, PhoneChar))
  }

  /**
   * standardize_phone_number: ten digits become "(XXX) XXX-XXXX", eleven
   * digits led by 1 become "+1 (XXX) XXX-XXXX", eleven digits written with
   * a 44 prefix become "+44 XXXX XXX XX", longer numbers written with '+'
   * and anything else with at least seven digits are returned cleaned.
   */
  function StandardizePhoneNumber(phone: string): (r: Option<string>)
  {
    if phone == [] then None
    else
      var cleaned := CleanPhone(phone);
      FormatCleaned(cleaned, Digits(cleaned))
  }

  /** The case analysis of standardize_phone_number on the cleaned text and its digits. */
  function FormatCleaned(cleaned: string, digits: string): Option<string>
  {
    if |digits| == 10 then
      Some("(" + digits[..3] + ") " + digits[3..6] + "-" + digits[6..])
    else if |digits| == 11 && digits[0] == '1' then
      Some("+1 (" + digits[1..4] + ") " + digits[4..7] + "-" + digits[7..])
    else if (|digits| == 10 || |digits| == 11) && (StartsWith(cleaned, "+44") || StartsWith(cleaned, "44")) then
      var d := if StartsWith(digits, "44") then digits[2..] else digits;
      Some("+44 " + Take(d, 4) + " " + Slice(d, 4, 7) + " " + Slice(d, 7, |d|))
    else if StartsWith(cleaned, "+") && |digits| >= 10 then
      Some(cleaned)
    else if |digits| >= 7 then Some(cleaned)
    else None
  }

  lemma {:induction false} FilterKeepsDigits(s: string)
    ensures Digits(Filter(s, PhoneChar)) == Digits(s)
  {
    if s != [] {
      FilterKeepsDigits(s[1..]);
      var head := if PhoneChar(s[0]) then [s[0]] else [];
      DigitsAppend(head, Filter(s[1..], PhoneChar));
      DigitsAppend([s[0]], s[1..]);
      assert [s[0]] + s[1..] == s;
    }
  }

  lemma {:induction false} FilterAllKept(s: string)
    requires AllPhoneChars(s)
    ensures Filter(s, PhoneChar) == s
  {
    if s != [] {
      FilterAllKept(s[1..]);
      assert [s[0]] + s[1..] == s;
    }
  }

  lemma {:induction false} DigitsOfInner(s: string, i: nat, j: nat)
    requires i <= j <= |s|
    requires forall k :: 0 <= k < i ==> !IsDigit(s[k])
    requires forall k :: j <= k < |s| ==> !IsDigit(s[k])
    ensures Digits(s[i..j]) == Digits(s)
  {
    var x, y, z := s[..i], s[i..j], s[j..];
    assert s == x + y + z;
    DigitsAppend(x + y, z);
    DigitsAppend(x, y);
    DigitsOfNonDigits(x);
    DigitsOfNonDigits(z);
  }

  lemma {:induction false} StripKeepsDigits(s: string)
    ensures Digits(Strip(s)) == Digits(s)
  {
    var i := SkipLeft(s, 0, IsSpace);
    var j := SkipRight(s, |s|, IsSpace);
    if i < j {
      DigitsOfInner(s, i, j);
    } else {
      StripEmpty(s);
      DigitsOfNonDigits(s);
    }
  }

  lemma CleanPhoneFacts(phone: string)
    ensures Digits(CleanPhone(phone)) == Digits(phone)
    ensures AllPhoneChars(CleanPhone(phone))
    ensures CleanPhone(CleanPhone(phone)) == CleanPhone(phone)
  {
    var f := Filter(phone, PhoneChar);
    FilterKeepsDigits(phone);
    StripKeepsDigits(f);
    CleanPhoneChars(phone);
    var c := CleanPhone(phone);
    FilterAllKept(c);
    assert CleanPhone(c) == Strip(c);
    StripIdempotent(f);
  }

  lemma CleanPhoneChars(phone: string)
    ensures AllPhoneChars(CleanPhone(phone))
  {
    var f := Filter(phone, PhoneChar);
    var i := SkipLeft(f, 0, IsSpace);
    var j := SkipRight(f, |f|, IsSpace);
    assert CleanPhone(phone) == StripBy(f, IsSpace) == if i < j then f[i..j] else [];
  }

  /** Digits(a + b + ...) for the formatted outputs: literal separators contribute their own digits. */
  lemma {:induction false} DigitsOfFormat3(p1: string, a: string, p2: string, b: string, p3: string, c: string)
    requires AllDigits(a) && AllDigits(b) && AllDigits(c)
    ensures Digits(p1 + a + p2 + b + p3 + c) == Digits(p1) + a + Digits(p2) + b + Digits(p3) + c
  {
    DigitsAppend(p1 + a + p2 + b + p3, c);
    DigitsAppend(p1 + a + p2 + b, p3);
    DigitsAppend(p1 + a + p2, b);
    DigitsAppend(p1 + a, p2);
    DigitsAppend(p1, a);
    DigitsOfDigits(a);
    DigitsOfDigits(b);
    DigitsOfDigits(c);
  }

  lemma {:induction false} AllPhoneCharsFormat3(p1: string, a: string, p2: string, b: string, p3: string, c: string)
    requires AllPhoneChars(p1) && AllPhoneChars(p2) && AllPhoneChars(p3)
    requires AllDigits(a) && AllDigits(b) && AllDigits(c)
    ensures AllPhoneChars(p1 + a + p2 + b + p3 + c)
  {
  }

  lemma SeparatorDigits()
    ensures Digits("+1 (") == "1" && Digits("+44 ") == "44"
    ensures Digits("(") == [] && Digits(") ") == [] && Digits("-") == [] && Digits(" ") == []
    ensures AllPhoneChars("+1 (") && AllPhoneChars("+44 ") && AllPhoneChars("(")
    ensures AllPhoneChars(") ") && AllPhoneChars("-") && AllPhoneChars(" ")
  {
    PrefixDigits();
    SeparatorChars();
    DigitsOfNonDigits("(");
    DigitsOfNonDigits(") ");
    DigitsOfNonDigits("-");
    DigitsOfNonDigits(" ");
  }

  lemma SeparatorChars()
    ensures AllPhoneChars("+1 (") && AllPhoneChars("+44 ") && AllPhoneChars("(")
    ensures AllPhoneChars(") ") && AllPhoneChars("-") && AllPhoneChars(" ")
  {
  }

  lemma PrefixDigits()
    ensures Digits("+1 (") == "1" && Digits("+44 ") == "44"
  {
    DigitsAppend("+1", " (");
    DigitsOfNonDigits(" (");
    DigitsAppend("+44", " ");
    DigitsOfNonDigits(" ");
  }

  lemma {:induction false} UsFormat(d: string)
    requires |d| == 10 && AllDigits(d)
    ensures var r := "(" + d[..3] + ") " + d[3..6] + "-" + d[6..];
            Digits(r) == d && AllPhoneChars(r) && r[0] == '(' && !IsSpace(r[|r| - 1])
  {
    SeparatorDigits();
    DigitsOfFormat3("(", d[..3], ") ", d[3..6], "-", d[6..]);
    AllPhoneCharsFormat3("(", d[..3], ") ", d[3..6], "-", d[6..]);
    assert d == d[..3] + d[3..6] + d[6..];
  }

  lemma {:induction false} UsCountryFormat(d: string)
    requires |d| == 11 && AllDigits(d) && d[0] == '1'
    ensures var r := "+1 (" + d[1..4] + ") " + d[4..7] + "-" + d[7..];
            Digits(r) == d && AllPhoneChars(r) && r[0] == '+' && !IsSpace(r[|r| - 1])
  {
    SeparatorDigits();
    DigitsOfFormat3("+1 (", d[1..4], ") ", d[4..7], "-", d[7..]);
    AllPhoneCharsFormat3("+1 (", d[1..4], ") ", d[4..7], "-", d[7..]);
    assert d == [d[0]] + d[1..4] + d[4..7] + d[7..];
  }

  lemma {:induction false} UkFormat(d: string)
    requires |d| == 11 && AllDigits(d) && StartsWith(d, "44")
    ensures var e := d[2..];
            var r := "+44 " + Take(e, 4) + " " + Slice(e, 4, 7) + " " + Slice(e, 7, |e|);
            Digits(r) == d && AllPhoneChars(r) && StartsWith(r, "+44") && !IsSpace(r[|r| - 1])
  {
    var e := d[2..];
    assert Take(e, 4) == e[..4] && Slice(e, 4, 7) == e[4..7] && Slice(e, 7, |e|) == e[7..];
    SeparatorDigits();
    DigitsOfFormat3("+44 ", e[..4], " ", e[4..7], " ", e[7..]);
    AllPhoneCharsFormat3("+44 ", e[..4], " ", e[4..7], " ", e[7..]);
    assert d == d[..2] + e[..4] + e[4..7] + e[7..];
  }

  /** A cleaned number written with a 44 prefix has digits starting with 44. */
  lemma {:induction false} Prefix44(cleaned: string)
    requires StartsWith(cleaned, "+44") || StartsWith(cleaned, "44")
    ensures StartsWith(Digits(cleaned), "44")
  {
    if StartsWith(cleaned, "+44") {
      assert cleaned == "+44" + cleaned[3..];
      DigitsAppend("+44", cleaned[3..]);
    } else {
      assert cleaned == "44" + cleaned[2..];
      DigitsAppend("44", cleaned[2..]);
    }
  }

  /** Which case of the standardiser a cleaned number falls into. */
  predicate UsCase(d: string) { |d| == 10 }
  predicate UsCountryCase(d: string) { |d| == 11 && d[0] == '1' }
  predicate UkCase(cleaned: string, d: string) {
    (|d| == 10 || |d| == 11) && (StartsWith(cleaned, "+44") || StartsWith(cleaned, "44"))
  }

  /**
   * The standardiser answers None exactly for empty input or fewer than
   * seven digits, never changes the sequence of digits, and only emits
   * digits, '+', '-', parentheses and whitespace.
   */
  lemma {:induction false} StandardizePhoneNumberSound(phone: string)
    ensures StandardizePhoneNumber(phone).None? <==> phone == [] || |Digits(phone)| < 7
    ensures StandardizePhoneNumber(phone).Some? ==>
              Digits(StandardizePhoneNumber(phone).value) == Digits(phone)
              && AllPhoneChars(StandardizePhoneNumber(phone).value)
  {
    var r := StandardizePhoneNumber(phone);
    if phone != [] {
      CleanPhoneFacts(phone);
      var cleaned := CleanPhone(phone);
      var d := Digits(cleaned);
      if UsCase(d) {
        UsFormat(d);
      } else if UsCountryCase(d) {
        UsCountryFormat(d);
      } else if UkCase(cleaned, d) {
        Prefix44(cleaned);
        UkFormat(d);
      } else {
        assert r.Some? ==> r.value == cleaned;
      }
    }
  }

  lemma {:induction false} StripOfTrimmed(s: string)
    requires s != [] && !IsSpace(s[0]) && !IsSpace(s[|s| - 1])
    ensures Strip(s) == s
  {
    assert SkipLeft(s, 0, IsSpace) == 0;
    assert SkipRight(s, |s|, IsSpace) == |s|;
  }

  /** A trimmed text made of phone characters is its own cleaned form. */
  lemma {:induction false} CleanFixed(r: string)
    requires AllPhoneChars(r) && r != [] && !IsSpace(r[0]) && !IsSpace(r[|r| - 1])
    ensures CleanPhone(r) == r
  {
    FilterAllKept(r);
    StripOfTrimmed(r);
  }

  /** The case of FormatCleaned that yields a fixed layout depends on the digits alone. */
  lemma {:induction false} FormatCleanedByDigits(c1: string, c2: string, d: string)
    requires UsCase(d) || UsCountryCase(d) || (UkCase(c1, d) && UkCase(c2, d))
    ensures FormatCleaned(c1, d) == FormatCleaned(c2, d)
  {
  }

  /** Standardising an already standardised number changes nothing. */
  lemma {:induction false} StandardizePhoneNumberIdempotent(phone: string)
    requires StandardizePhoneNumber(phone).Some?
    ensures StandardizePhoneNumber(StandardizePhoneNumber(phone).value) == StandardizePhoneNumber(phone)
  {
    CleanPhoneFacts(phone);
    var cleaned := CleanPhone(phone);
    var d := Digits(cleaned);
    if UsCase(d) || UsCountryCase(d) || UkCase(cleaned, d) {
      if UkCase(cleaned, d) {
        Prefix44(cleaned);
      }
      FixedLayoutIdempotent(cleaned, d);
    } else {
      assert FormatCleaned(cleaned, d).value == cleaned;
    }
  }

  /** A number laid out in one of the fixed layouts standardises to itself. */
  lemma {:induction false} FixedLayoutIdempotent(cleaned: string, d: string)
    requires AllDigits(d)
    requires UsCase(d) || UsCountryCase(d) || (UkCase(cleaned, d) && StartsWith(d, "44"))
    ensures FormatCleaned(cleaned, d).Some?
    ensures StandardizePhoneNumber(FormatCleaned(cleaned, d).value) == FormatCleaned(cleaned, d)
  {
    var r := FormatCleaned(cleaned, d).value;
    if UsCase(d) {
      UsFormat(d);
    } else if UsCountryCase(d) {
      UsCountryFormat(d);
    } else {
      UkFormat(d);
    }
    assert Digits(r) == d && AllPhoneChars(r) && r != [] && !IsSpace(r[0]) && !IsSpace(r[|r| - 1]);
    CleanFixed(r);
    FormatCleanedByDigits(r, cleaned, d);
  }

  // ---------------------------------------------------------------------------
  // standardize_date
  // ---------------------------------------------------------------------------

  /** The formats standardize_date tries, in order. */
  const DateFormats: seq<seq<Directive>> := [
    [Year4, Lit('-'), Month2, Lit('-'), Day2],
    [Year4, Lit('/'), Month2, Lit('/'), Day2],
    [Month2, Lit('/'), Day2, Lit('/'), Year4],
    [Day2, Lit('/'), Month2, Lit('/'), Year4],
    [MonthName, Spaces, Day2, Lit(','), Spaces, Year4],
    [MonthAbbr, Spaces, Day2, Lit(','), Spaces, Year4],
    [Day2, Spaces, MonthName, Spaces, Year4],
    [Day2, Spaces, MonthAbbr, Spaces, Year4],
    [Month2, Lit('-'), Day2, Lit('-'), Year4],
    [Day2, Lit('-'), Month2, Lit('-'), Year4],
    [Year4, Month2, Day2]
  ]

  /** Every format of standardize_date reads back what it writes. */
  lemma DateFormatReadable(k: nat)
    requires k < |DateFormats|
    ensures Readable(DateFormats[k])
  {
    if k < 4 {
      DateFormatReadableLow(k);
    } else if k < 8 {
      DateFormatReadableMid(k);
    } else {
      DateFormatReadableHigh(k);
    }
  }

  lemma DateFormatReadableLow(k: nat)
    requires k < 4
    ensures Readable(DateFormats[k])
  {
    var f := DateFormats[k];
    if k < 2 {
      ReadableAt(f, 0, 2, 4);
    } else if k == 2 {
      ReadableAt(f, 4, 0, 2);
    } else {
      ReadableAt(f, 4, 2, 0);
    }
  }

  lemma DateFormatReadableMid(k: nat)
    requires 4 <= k < 8
    ensures Readable(DateFormats[k])
  {
    var f := DateFormats[k];
    if k < 6 {
      ReadableAt(f, 5, 0, 2);
    } else {
      ReadableAt(f, 4, 2, 0);
    }
  }

  lemma DateFormatReadableHigh(k: nat)
    requires 8 <= k < 11
    ensures Readable(DateFormats[k])
  {
    var f := DateFormats[k];
    if k == 8 {
      ReadableAt(f, 4, 0, 2);
    } else if k == 9 {
      ReadableAt(f, 4, 2, 0);
    } else {
      ReadableAt(f, 0, 1, 2);
    }
  }

  /** strptime under each format of standardize_date reads back the date written in that format. */
  lemma DateFormatsRoundTrip(d: Date, k: nat)
    requires Valid(d) && k < |DateFormats|
    ensures Strptime(Written(d, DateFormats[k]), DateFormats[k]) == Some(d)
  {
    DateFormatReadable(k);
    StrptimeRoundTrip(d, DateFormats[k]);
  }

  /** A date returned by the standardiser: the YYYY-MM-DD text of a valid date inside the age window. */
  predicate AdultIso(today: Date, r: string)
    requires Valid(today)
  {
    IsoShape(r) && Valid(IsoFields(r)) && AgeInWindow(today, IsoFields(r))
  }

  /** strptime of t under each format in turn. */
  function Parses(t: string, fmts: seq<seq<Directive>>): (r: seq<Option<Date>>)
    ensures |r| == |fmts|
    ensures forall j :: 0 <= j < |r| ==> r[j] == Strptime(t, fmts[j])
    ensures ValidParses(r)
  {
    seq(|fmts|, j requires 0 <= j < |fmts| => Strptime(t, fmts[j]))
  }

  predicate ValidParses(ps: seq<Option<Date>>) {
    forall j :: 0 <= j < |ps| && ps[j].Some? ==> Valid(ps[j].value)
  }

  /** The parse ps[j] is a date inside the age window. */
  predicate AdultAt(today: Date, ps: seq<Option<Date>>, j: nat)
    requires Valid(today) && ValidParses(ps) && j < |ps|
  {
    ps[j].Some? && AgeInWindow(today, ps[j].value)
  }

  /** The first parse, from the k-th on, that lies inside the age window, as YYYY-MM-DD. */
  function FirstAdult(today: Date, ps: seq<Option<Date>>, k: nat): (r: Option<string>)
    requires Valid(today) && ValidParses(ps) && k <= |ps|
    ensures r.Some? ==> AdultIso(today, r.value)
    decreases |ps| - k
  {
    if k == |ps| then None
    else if AdultAt(today, ps, k) then
      FormatIsoRoundTrip(ps[k].value);
      Some(FormatIso(ps[k].value))
    else FirstAdult(today, ps, k + 1)
  }

  /** The first format, from the k-th on, whose parse lies inside the age window. */
  function FirstAdultFormat(today: Date, t: string, fmts: seq<seq<Directive>>, k: nat): (r: Option<string>)
    requires Valid(today) && k <= |fmts|
    ensures r.Some? ==> AdultIso(today, r.value)
  {
    FirstAdult(today, Parses(t, fmts), k)
  }

  /** FirstAdult returns the first parse, from the k-th on, inside the window. */
  lemma {:induction false} FirstAdultIsFirst(today: Date, ps: seq<Option<Date>>, k: nat, n: nat)
    requires Valid(today) && ValidParses(ps) && k <= n < |ps| && AdultAt(today, ps, n)
    requires forall j :: k <= j < n ==> !AdultAt(today, ps, j)
    ensures FirstAdult(today, ps, k) == Some(FormatIso(ps[n].value))
    decreases n - k
  {
    if k < n {
      FirstAdultIsFirst(today, ps, k + 1, n);
    }
  }

  /** FirstAdult finds nothing exactly when no parse from the k-th on is inside the window. */
  lemma {:induction false} FirstAdultNone(today: Date, ps: seq<Option<Date>>, k: nat)
    requires Valid(today) && ValidParses(ps) && k <= |ps|
    ensures FirstAdult(today, ps, k).None? <==> forall j :: k <= j < |ps| ==> !AdultAt(today, ps, j)
    decreases |ps| - k
  {
    if k < |ps| {
      FirstAdultNone(today, ps, k + 1);
    }
  }

  /**
   * The format loop returns the date of the first format under which t
   * parses to a date inside the window, as YYYY-MM-DD.
   */
  lemma FirstAdultFormatIsFirst(today: Date, t: string, fmts: seq<seq<Directive>>, n: nat)
    requires Valid(today) && n < |fmts|
    requires AdultAt(today, Parses(t, fmts), n)
    requires forall j :: 0 <= j < n ==> !AdultAt(today, Parses(t, fmts), j)
    ensures FirstAdultFormat(today, t, fmts, 0) == Some(FormatIso(Strptime(t, fmts[n]).value))
  {
    FirstAdultIsFirst(today, Parses(t, fmts), 0, n);
  }

  /** The format loop finds nothing exactly when no format parses t to a date inside the window. */
  lemma FirstAdultFormatNone(today: Date, t: string, fmts: seq<seq<Directive>>)
    requires Valid(today)
    ensures FirstAdultFormat(today, t, fmts, 0).None? <==> forall j :: 0 <= j < |fmts| ==> !AdultAt(today, Parses(t, fmts), j)
  {
    FirstAdultNone(today, Parses(t, fmts), 0);
  }

  /** datetime(year, month, day) built from regex groups, kept when valid and inside the age window. */
  function AdultDate(today: Date, ys: string, ms: string, ds: string): (r: Option<string>)
    requires Valid(today) && AllDigits(ys) && AllDigits(ms) && AllDigits(ds)
    ensures var d := Date(DigitsValue(ys), DigitsValue(ms), DigitsValue(ds));
            r.Some? <==> Valid(d) && AgeInWindow(today, d)
    ensures r.Some? ==> AdultIso(today, r.value) && |r.value| == 10
    ensures r.Some? ==> IsoFields(r.value) == Date(DigitsValue(ys), DigitsValue(ms), DigitsValue(ds))
  {
    var d := Date(DigitsValue(ys), DigitsValue(ms), DigitsValue(ds));
    if Valid(d) && AgeInWindow(today, d) then
      FormatIsoRoundTrip(d);
      Some(FormatIso(d))
    else None
  }

  /**
   * standardize_date: text already shaped YYYY-MM-DD is returned untouched
   * (with no age check); otherwise the first strptime format, then the
   * first year-first and then the first year-last numeric date in the text,
   * whose date lies inside the 18-70 age window.
   */
  function StandardizeDate(today: Date, s: string): (r: Option<string>)
    requires Valid(today)
    ensures s == [] ==> r.None?
    ensures s != [] && IsoShape(s) ==> r == Some(s)
    ensures r.Some? && !IsoShape(s) ==> AdultIso(today, r.value)
  {
    if s == [] then None
    else if IsoShape(s) then Some(s)
    else
      var viaFormat := FirstAdultFormat(today, Strip(s), DateFormats, 0);
      if viaFormat.Some? then viaFormat
      else
        var ymd := YmdSearch(s, 0, "/-", "/-");
        var a := if ymd.Some? then AdultDate(today, ymd.value.g1, ymd.value.g2, ymd.value.g3) else None;
        if a.Some? then a
        else
          var mdy := MdySearch(s, 0, "/-");
          if mdy.Some? then AdultDate(today, mdy.value.g3, mdy.value.g1, mdy.value.g2) else None
  }

  /** Standardising a standardised date returns it unchanged. */
  lemma StandardizeDateIdempotent(today: Date, s: string)
    requires Valid(today) && StandardizeDate(today, s).Some?
    ensures StandardizeDate(today, StandardizeDate(today, s).value) == StandardizeDate(today, s)
  {
    var r := StandardizeDate(today, s).value;
    assert IsoShape(r);
  }

  /** A well-shaped date is returned as it is, even one in the future: the age window is not applied to it. */
  lemma StandardizeDateSkipsAgeCheckOnIso(today: Date)
    requires Valid(today)
    ensures StandardizeDate(today, "2030-01-01") == Some("2030-01-01")
    ensures StandardizeDate(today, "1990-01-15\n") == Some("1990-01-15\n")
  {
    assert IsoShape("2030-01-01");
    assert IsoShape("1990-01-15\n");
  }

  /** The year of the examples below, written as strftime writes it. */
  lemma PadYearExample()
    ensures Pad(1990, 4) == "1990"
  {
    assert NatToString(1990) == NatToString(199) + "0" == NatToString(19) + "9" + "0" == "1990";
  }

  /** One- and two-digit numbers of the examples below, written as %m and %d write them. */
  lemma PadSmallExamples()
    ensures Pad(5, 2) == "05" && Pad(23, 2) == "23" && Pad(3, 2) == "03" && Pad(4, 2) == "04"
  {
    assert NatToString(23) == "23";
    assert Pad(5, 2) == ['0'] + "5";
    assert Pad(3, 2) == ['0'] + "3";
    assert Pad(4, 2) == ['0'] + "4";
  }

  /** No format led by a four-digit year parses a text whose first four characters are not all digits. */
  lemma YearLedFails(s: string, fmt: seq<Directive>)
    requires fmt != [] && fmt[0] == Year4 && |s| >= 4 && !AllDigits(s[..4])
    ensures Strptime(s, fmt).None?
  {
    assert s[0..4] == s[..4];
    assert Alternatives(s, 0, Year4) == [];
    assert MatchFrom(s, 0, fmt, Fields(1900, 1, 1)) == TryPieces(s, 0, fmt, Fields(1900, 1, 1), [], 0);
  }

  /** strftime under a slashed format ending in the year: the two leading numbers, the slashes and the year. */
  lemma WrittenSlashed(d: Date, a: Directive, b: Directive)
    requires Valid(d)
    ensures Written(d, [a, Lit('/'), b, Lit('/'), Year4]) == WrittenOne(d, a) + ("/" + (WrittenOne(d, b) + ("/" + Pad(d.year, 4))))
  {
    var fmt := [a, Lit('/'), b, Lit('/'), Year4];
    assert fmt[4..] == [Year4] && fmt[3..] == [Lit('/'), Year4];
    assert Written(d, fmt[4..]) == Pad(d.year, 4);
    assert Written(d, fmt[3..]) == "/" + Pad(d.year, 4);
    assert Written(d, fmt[2..]) == WrittenOne(d, b) + ("/" + Pad(d.year, 4));
    assert Written(d, fmt[1..]) == "/" + (WrittenOne(d, b) + ("/" + Pad(d.year, 4)));
  }

  /** The slashed formats of standardize_date: month first, then day first. */
  lemma SlashedFormats()
    ensures DateFormats[2] == [Month2, Lit('/'), Day2, Lit('/'), Year4]
    ensures DateFormats[3] == [Day2, Lit('/'), Month2, Lit('/'), Year4]
  {
  }

  /** strftime of the example dates under the slashed formats. */
  lemma WrittenExamples()
    ensures Written(Date(1990, 5, 23), DateFormats[2]) == "05/23/1990"
    ensures Written(Date(1990, 5, 23), DateFormats[3]) == "23/05/1990"
    ensures Written(Date(1990, 3, 4), DateFormats[2]) == "03/04/1990"
  {
    SlashedFormats();
    WrittenMayExample();
    WrittenMarchExample();
  }

  lemma WrittenMayExample()
    ensures Written(Date(1990, 5, 23), [Month2, Lit('/'), Day2, Lit('/'), Year4]) == "05/23/1990"
    ensures Written(Date(1990, 5, 23), [Day2, Lit('/'), Month2, Lit('/'), Year4]) == "23/05/1990"
  {
    WrittenMayMonthFirst();
    WrittenMayDayFirst();
  }

  lemma WrittenMayMonthFirst()
    ensures Written(Date(1990, 5, 23), [Month2, Lit('/'), Day2, Lit('/'), Year4]) == "05/23/1990"
  {
    MayNumbers();
    WrittenSlashed(Date(1990, 5, 23), Month2, Day2);
  }

  lemma WrittenMayDayFirst()
    ensures Written(Date(1990, 5, 23), [Day2, Lit('/'), Month2, Lit('/'), Year4]) == "23/05/1990"
  {
    MayNumbers();
    WrittenSlashed(Date(1990, 5, 23), Day2, Month2);
  }

  lemma MayNumbers()
    ensures WrittenOne(Date(1990, 5, 23), Month2) == "05" && WrittenOne(Date(1990, 5, 23), Day2) == "23"
    ensures Pad(1990, 4) == "1990"
  {
    PadYearExample();
    PadSmallExamples();
  }

  lemma WrittenMarchExample()
    ensures Written(Date(1990, 3, 4), [Month2, Lit('/'), Day2, Lit('/'), Year4]) == "03/04/1990"
  {
    var d := Date(1990, 3, 4);
    PadYearExample();
    PadSmallExamples();
    assert WrittenOne(d, Month2) == "03" && WrittenOne(d, Day2) == "04";
    WrittenSlashed(d, Month2, Day2);
  }

  /** strftime('%Y-%m-%d') of the example dates. */
  lemma IsoExamples()
    ensures FormatIso(Date(1990, 5, 23)) == "1990-05-23"
    ensures FormatIso(Date(1990, 3, 4)) == "1990-03-04"
  {
    PadYearExample();
    PadSmallExamples();
  }

  /**
   * "05/23/1990" is read month first (the third format) and standardised
   * to "1990-05-23".
   */
  lemma StandardizeDateMonthFirst(today: Date)
    requires Valid(today) && AgeInWindow(today, Date(1990, 5, 23))
    ensures StandardizeDate(today, "05/23/1990") == Some("1990-05-23")
  {
    WrittenExamples();
    IsoExamples();
    SlashThirdExamples();
    ReadAtFormat(today, "05/23/1990", Date(1990, 5, 23), 2);
  }

  /**
   * "23/05/1990" has no 23rd month, so the month-first format fails and
   * the day-first one (the fourth) reads it as 23 May 1990.
   */
  lemma StandardizeDateDayFirst(today: Date)
    requires Valid(today) && AgeInWindow(today, Date(1990, 5, 23))
    ensures StandardizeDate(today, "23/05/1990") == Some("1990-05-23")
  {
    WrittenExamples();
    IsoExamples();
    SlashThirdExamples();
    NoMonth23(DateFormats[2]);
    ReadAtFormat(today, "23/05/1990", Date(1990, 5, 23), 3);
  }

  /** A format led by %m then '/' rejects "23/05/1990": the month is at most 12, and "2" is not followed by '/'. */
  lemma NoMonth23(fmt: seq<Directive>)
    requires |fmt| >= 2 && fmt[0] == Month2 && fmt[1] == Lit('/')
    ensures Strptime("23/05/1990", fmt).None?
  {
    var s := "23/05/1990";
    var f0 := Fields(1900, 1, 1);
    var alts := Alternatives(s, 0, Month2);
    assert alts == [Piece(1, MonthField, 2)];
    assert Alternatives(s, 1, Lit('/')) == [];
    assert MatchFrom(s, 1, fmt[1..], Apply(f0, alts[0])) == None;
    assert TryPieces(s, 0, fmt, f0, alts, 1) == None;
    assert MatchFrom(s, 0, fmt, f0) == TryPieces(s, 0, fmt, f0, alts, 0) == None;
  }

  /**
   * "03/04/1990" fits both the month-first and the day-first format; the
   * month-first one comes first, so it is 4 March 1990.
   */
  lemma StandardizeDateAmbiguousIsMonthFirst(today: Date)
    requires Valid(today) && AgeInWindow(today, Date(1990, 3, 4))
    ensures StandardizeDate(today, "03/04/1990") == Some("1990-03-04")
  {
    WrittenExamples();
    IsoExamples();
    SlashThirdExamples();
    ReadAtFormat(today, "03/04/1990", Date(1990, 3, 4), 2);
  }

  /**
   * A ten-character text with a slash third, written as the n-th format
   * writes d, is standardised to d when the month-first format is either
   * that format or fails on it.
   */
  lemma ReadAtFormat(today: Date, s: string, d: Date, n: nat)
    requires Valid(today) && Valid(d) && AgeInWindow(today, d) && (n == 2 || n == 3)
    requires SlashThird(s) && s == Written(d, DateFormats[n])
    requires n == 3 ==> Strptime(s, DateFormats[2]).None?
    ensures StandardizeDate(today, s) == Some(FormatIso(d))
  {
    assert !IsoShape(s);
    StripUnspaced(s);
    FormatLoopAt(today, s, d, n);
    StandardizeViaFormat(today, s);
  }

  /** Ten characters with a slash third and no whitespace at either end. */
  predicate SlashThird(s: string) {
    |s| == 10 && s[2] == '/' && !IsSpace(s[0]) && !IsSpace(s[9])
  }

  lemma SlashThirdExamples()
    ensures SlashThird("05/23/1990") && SlashThird("23/05/1990") && SlashThird("03/04/1990")
    ensures Valid(Date(1990, 5, 23)) && Valid(Date(1990, 3, 4))
  {
  }

  lemma FormatLoopAt(today: Date, s: string, d: Date, n: nat)
    requires Valid(today) && Valid(d) && AgeInWindow(today, d) && (n == 2 || n == 3)
    requires |s| == 10 && s[2] == '/'
    requires s == Written(d, DateFormats[n])
    requires n == 3 ==> Strptime(s, DateFormats[2]).None?
    ensures FirstAdultFormat(today, s, DateFormats, 0) == Some(FormatIso(d))
  {
    YearFirstFormats();
    DateFormatsRoundTrip(d, n);
    SlashNotYear(s);
    YearLedFails(s, DateFormats[0]);
    YearLedFails(s, DateFormats[1]);
    FirstParsedFormat(today, s, d, DateFormats, n);
  }

  /** A slash among the first four characters rules out a leading four-digit year. */
  lemma SlashNotYear(s: string)
    requires |s| >= 4 && s[2] == '/'
    ensures !AllDigits(s[..4])
  {
    assert !IsDigit(s[..4][2]);
  }

  /** When the formats before the n-th all fail on t and the n-th reads d inside the window, the loop returns d. */
  lemma FirstParsedFormat(today: Date, t: string, d: Date, fmts: seq<seq<Directive>>, n: nat)
    requires Valid(today) && Valid(d) && AgeInWindow(today, d) && n < |fmts|
    requires forall j :: 0 <= j < n ==> Strptime(t, fmts[j]).None?
    requires Strptime(t, fmts[n]) == Some(d)
    ensures FirstAdultFormat(today, t, fmts, 0) == Some(FormatIso(d))
  {
    var ps := Parses(t, fmts);
    FirstAdultIsFirst(today, ps, 0, n);
  }

  /** The first two formats of standardize_date start with the four-digit year. */
  lemma YearFirstFormats()
    ensures |DateFormats| == 11 && DateFormats[0] != [] && DateFormats[1] != []
    ensures DateFormats[0][0] == Year4 && DateFormats[1][0] == Year4
  {
  }

  /** Text not shaped YYYY-MM-DD that the format loop accepts is standardised by it. */
  lemma StandardizeViaFormat(today: Date, s: string)
    requires Valid(today) && s != [] && !IsoShape(s) && FirstAdultFormat(today, Strip(s), DateFormats, 0).Some?
    ensures StandardizeDate(today, s) == FirstAdultFormat(today, Strip(s), DateFormats, 0)
  {
  }

  // ---------------------------------------------------------------------------
  // _extract_context_hint
  // ---------------------------------------------------------------------------

  /**
   * _extract_context_hint: up to 20 characters either side of the first
   * case-insensitive occurrence of value in context, stripped; "" when
   * either is empty or value does not occur.
   */
  function ExtractContextHint(context: string, value: string): (r: string)
    ensures |r| <= |value| + 40
    ensures context == [] || value == [] || !Contains(Lower(context), Lower(value)) ==> r == []
  {
    if context == [] || value == [] then []
    else
      var pos := Find(Lower(context), Lower(value));
      if pos == -1 then []
      else
        var w := HintWindow(context, pos, |value|);
        Strip(context[w.0..w.1])
  }

  lemma LowerCharSpace(c: char)
    ensures IsSpace(LowerChar(c)) <==> IsSpace(c)
  {
  }

  /** Stripping keeps any stretch that starts and ends with a non-space character. */
  lemma {:induction false} StripKeepsInner(w: string, a: nat, n: nat)
    requires 0 < n && a + n <= |w|
    requires !IsSpace(w[a]) && !IsSpace(w[a + n - 1])
    ensures Contains(Strip(w), w[a..a + n])
  {
    var i := SkipLeft(w, 0, IsSpace);
    var j := SkipRight(w, |w|, IsSpace);
    assert i <= a;
    assert a + n <= j;
    assert Strip(w) == StripBy(w, IsSpace) == w[i..j];
    SliceOfSlice(w, i, j, a, n);
    assert OccursAt(w[i..j], w[a..a + n], a - i);
    ContainsAt(w[i..j], w[a..a + n], a - i);
  }

  /** A stretch of w inside w[i..j] sits in it at the same offset less i. */
  lemma SliceOfSlice(w: string, i: nat, j: nat, a: nat, n: nat)
    requires i <= a && a + n <= j <= |w|
    ensures w[i..j][a - i..a - i + n] == w[a..a + n]
  {
    var x, y := w[i..j][a - i..a - i + n], w[a..a + n];
    assert forall k :: 0 <= k < n ==> x[k] == y[k];
  }

  /** The window the hint is cut from, for an occurrence at pos. */
  function HintWindow(context: string, pos: nat, n: nat): (r: (nat, nat))
    requires pos + n <= |context|
    ensures r.0 <= pos && pos + n <= r.1 <= |context|
  {
    var start := if pos < 20 then 0 else pos - 20;
    var end := if |context| < pos + n + 20 then |context| else pos + n + 20;
    (start, end)
  }

  /**
   * The hint is a stretch of the text lying within 20 characters of the
   * first occurrence on either side; what lies between it and the edges of
   * that window is whitespace only.
   */
  lemma {:induction false} ContextHintInWindow(context: string, value: string)
    requires value != [] && Contains(Lower(context), Lower(value))
    ensures var pos := Find(Lower(context), Lower(value));
            exists a: nat, b: nat ::
              a <= b <= |context| && pos - 20 <= a && b <= pos + |value| + 20
              && ExtractContextHint(context, value) == context[a..b]
              && (forall k :: 0 <= k < a && pos - 20 <= k ==> IsSpace(context[k]))
              && (forall k :: b <= k < |context| && k < pos + |value| + 20 ==> IsSpace(context[k]))
  {
    var pos := Find(Lower(context), Lower(value));
    var w := HintWindow(context, pos, |value|);
    var a, b := StripByWithin(context, w.0, w.1, IsSpace);
  }

  /** An occurrence found in the lowered text starts and ends with the same kind of character as the value. */
  lemma {:induction false} OccurrenceEnds(context: string, value: string, pos: nat)
    requires value != [] && OccursAt(Lower(context), Lower(value), pos)
    ensures IsSpace(context[pos]) <==> IsSpace(value[0])
    ensures IsSpace(context[pos + |value| - 1]) <==> IsSpace(value[|value| - 1])
  {
    var n := |value|;
    assert Lower(context)[pos..pos + n] == Lower(value);
    assert Lower(context)[pos] == Lower(value)[0];
    assert Lower(context)[pos + n - 1] == Lower(value)[n - 1];
    LowerCharSpace(context[pos]);
    LowerCharSpace(value[0]);
    LowerCharSpace(context[pos + n - 1]);
    LowerCharSpace(value[n - 1]);
  }

  /** The hint contains the occurrence itself when the value has no surrounding whitespace. */
  lemma {:induction false} ContextHintContainsValue(context: string, value: string)
    requires value != [] && !IsSpace(value[0]) && !IsSpace(value[|value| - 1])
    requires Contains(Lower(context), Lower(value))
    ensures var pos := Find(Lower(context), Lower(value));
            Contains(ExtractContextHint(context, value), context[pos..pos + |value|])
  {
    var pos := Find(Lower(context), Lower(value));
    var n := |value|;
    OccurrenceEnds(context, value, pos);
    assert !IsSpace(context[pos]) && !IsSpace(context[pos + n - 1]);
    var win := HintWindow(context, pos, n);
    assert ExtractContextHint(context, value) == Strip(context[win.0..win.1]);
    HintKeepsOccurrence(context, pos, n, win.0, win.1);
  }

  lemma {:induction false} HintKeepsOccurrence(context: string, pos: nat, n: nat, lo: nat, hi: nat)
    requires 0 < n && lo <= pos && pos + n <= hi <= |context|
    requires !IsSpace(context[pos]) && !IsSpace(context[pos + n - 1])
    ensures Contains(Strip(context[lo..hi]), context[pos..pos + n])
  {
    var w := context[lo..hi];
    SliceOfSlice(context, lo, hi, pos, n);
    StripKeepsInner(w, pos - lo, n);
  }

  // ---------------------------------------------------------------------------
  // _get_pattern_key
  // ---------------------------------------------------------------------------

  datatype PatternKey = EmailLike | PhoneLike | DateLike | MultiWord | SingleWord

  /** The text re.match can see through `.*`: everything before the first newline. */
  function FirstLine(s: string): (r: string)
    ensures forall k :: 0 <= k < |r| ==> r[k] != '\n'
    ensures StartsWith(s, r)
  {
    if s == [] || s[0] == '\n' then [] else [s[0]] + FirstLine(s[1..])
  }

  predicate DigitRun(s: string, i: int, n: nat) {
    0 <= i && i + n <= |s| && AllDigits(s[i..i + n])
  }

  /** `.*\d{3,}.*\d{3,}` matches: two separate runs of three digits on the first line. */
  ghost predicate TwoDigitGroups(line: string) {
    exists i, j :: DigitRun(line, i, 3) && DigitRun(line, j, 3) && i + 3 <= j
  }

  /** `.*\d{4}.*\d{1,2}.*\d{1,2}` matches: four digits, then a digit, then another digit, on the first line. */
  ghost predicate YearThenTwoNumbers(line: string) {
    exists i, j, k :: DigitRun(line, i, 4) && DigitRun(line, j, 1) && DigitRun(line, k, 1) && i + 4 <= j && j + 1 <= k
  }

  /** The leftmost run of n digits at or after i, or -1. */
  function RunFrom(s: string, i: nat, n: nat): (r: int)
    ensures r == -1 || (i <= r && DigitRun(s, r, n))
    ensures r == -1 ==> forall k :: i <= k ==> !DigitRun(s, k, n)
    ensures r != -1 ==> forall k :: i <= k < r ==> !DigitRun(s, k, n)
    decreases |s| - i
  {
    if i + n > |s| then -1
    else if AllDigits(s[i..i + n]) then i
    else RunFrom(s, i + 1, n)
  }

  function HasTwoDigitGroups(line: string): (b: bool)
    ensures b <==> TwoDigitGroups(line)
  {
    var a := RunFrom(line, 0, 3);
    var j := if a == -1 then -1 else RunFrom(line, a + 3, 3);
    if j != -1 then
      assert DigitRun(line, a, 3) && DigitRun(line, j, 3) && a + 3 <= j;
      true
    else false
  }

  function HasYearThenTwoNumbers(line: string): (b: bool)
    ensures b <==> YearThenTwoNumbers(line)
  {
    var a := RunFrom(line, 0, 4);
    var m := if a == -1 then -1 else RunFrom(line, a + 4, 1);
    var n := if m == -1 then -1 else RunFrom(line, m + 1, 1);
    if n != -1 then
      assert DigitRun(line, a, 4) && DigitRun(line, m, 1) && DigitRun(line, n, 1);
      true
    else false
  }

  /**
   * _get_pattern_key: the first of EMAIL_LIKE ('@' and '.' present),
   * PHONE_LIKE, DATE_LIKE, MULTI_WORD (two or more words) that applies,
   * else SINGLE_WORD.
   */
  function GetPatternKey(text: string): (r: PatternKey)
    ensures r == EmailLike <==> Contains(text, "@") && Contains(text, ".")
    ensures r == PhoneLike <==> !(Contains(text, "@") && Contains(text, ".")) && TwoDigitGroups(FirstLine(text))
    ensures r == DateLike <==> !(Contains(text, "@") && Contains(text, "."))
                               && !TwoDigitGroups(FirstLine(text)) && YearThenTwoNumbers(FirstLine(text))
    ensures r == MultiWord <==> !(Contains(text, "@") && Contains(text, "."))
                                && !TwoDigitGroups(FirstLine(text)) && !YearThenTwoNumbers(FirstLine(text))
                                && |Words(text)| >= 2
    ensures r == SingleWord <==> !(Contains(text, "@") && Contains(text, "."))
                                 && !TwoDigitGroups(FirstLine(text)) && !YearThenTwoNumbers(FirstLine(text))
                                 && |Words(text)| < 2
  {
    if Contains(text, "@") && Contains(text, ".") then EmailLike
    else if HasTwoDigitGroups(FirstLine(text)) then PhoneLike
    else if HasYearThenTwoNumbers(FirstLine(text)) then DateLike
    else if |Words(text)| >= 2 then MultiWord
    else SingleWord
  }
}
