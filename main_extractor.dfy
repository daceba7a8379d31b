/**
 * The extraction helpers of the résumé extractor (main.py): phone
 * formatting and validation, the search windows around an anchor, the date
 * of birth search with Japanese era years, name validation and cleaning,
 * the name taken from a candidate's folder, the AI-then-regex merge of one
 * text block, and the status bookkeeping on a result row.
 *
 * Regular-expression searches whose matches come from free text are inputs
 * (the list of matches a pattern yields); the fixed patterns applied to a
 * short string (a folder name, a digit string) are written out by hand.
 */
module MainExtractor {
  import opened Text
  import opened Json
  import opened Calendar
  import opened Utils

  // ---------------------------------------------------------------------------
  // Full-width characters
  // ---------------------------------------------------------------------------

  /** str.maketrans('０１２３４５６７８９', '0123456789') on one character. */
  function NarrowDigit(c: char): (r: char)
    ensures '\U{FF10}' <= c <= '\U{FF19}' ==> IsDigit(r)
    ensures !('\U{FF10}' <= c <= '\U{FF19}') ==> r == c
  {
    if '\U{FF10}' <= c <= '\U{FF19}' then (c as int - 0xFF10 + '0' as int) as char else c
  }

  function NarrowDigits(s: string): (r: string)
    ensures |r| == |s|
    ensures forall i :: 0 <= i < |s| ==> r[i] == NarrowDigit(s[i])
  {
    seq(|s|, i requires 0 <= i < |s| => NarrowDigit(s[i]))
  }

  /** The digit map followed by str.maketrans('（）', '()'). */
  function NarrowPhoneChar(c: char): char {
    if c == '\U{FF08}' then '(' else if c == '\U{FF09}' then ')' else NarrowDigit(c)
  }

  function NarrowPhone(s: string): (r: string)
    ensures |r| == |s|
    ensures forall i :: 0 <= i < |s| ==> r[i] == NarrowPhoneChar(s[i])
  {
    seq(|s|, i requires 0 <= i < |s| => NarrowPhoneChar(s[i]))
  }

  // ---------------------------------------------------------------------------
  // Phone formatting (_standardize_phone_format)
  // ---------------------------------------------------------------------------

  /** d split after a and after a + b characters, the pieces joined by '-'. */
  function Dash3(d: string, a: nat, b: nat): (r: string)
    requires a + b <= |d|
    ensures |r| == |d| + 2 && r[a] == '-' && r[a + b + 1] == '-'
  {
    d[..a] + "-" + d[a..a + b] + "-" + d[a + b..]
  }

  /** A dash contributes no digits. */
  lemma DigitsAroundDash(p: string, q: string)
    ensures Digits(p + "-" + q) == Digits(p) + Digits(q)
  {
    assert Digits("-") == [];
    DigitsAppend(p, "-");
    DigitsAppend(p + "-", q);
  }

  /** Grouping a digit string with dashes keeps exactly its digits. */
  lemma Dash3Digits(d: string, a: nat, b: nat)
    requires a + b <= |d| && AllDigits(d)
    ensures Digits(Dash3(d, a, b)) == d
  {
    var x, y, z := d[..a], d[a..a + b], d[a + b..];
    DigitsOfDigits(x);
    DigitsOfDigits(y);
    DigitsOfDigits(z);
    DigitsAroundDash(x, y);
    DigitsAroundDash(x + "-" + y, z);
    ThreeSlices(d, a, b);
  }

  /** The numbering plan the formatter applies: Japanese for JP patterns and for a generic number with a trunk '0'. */
  predicate JapaneseMode(digits: string, patternType: string) {
    patternType == "JP" || patternType == "JP_INTL" || (patternType == "GENERIC" && StartsWith(digits, "0"))
  }

  /** The digits after the Japanese country code '81' has been replaced by the trunk prefix '0'. */
  function DomesticDigits(digits: string): (r: string)
    ensures StartsWith(digits, "81") ==> r == "0" + digits[2..]
    ensures !StartsWith(digits, "81") ==> r == digits
  {
    if StartsWith(digits, "81") then "0" + digits[2..] else digits
  }

  /** The digits the formatter goes on with after the Japanese-mode rewrite. */
  function WorkingDigits(phone: string, patternType: string): string {
    var digits := Digits(NarrowPhone(phone));
    if JapaneseMode(digits, patternType) then DomesticDigits(digits) else digits
  }

  /** f"81-{digits[2:4]}-{digits[4:8]}-{digits[8:]}" */
  function InternationalLayout(d: string): string {
    "81-" + Slice(d, 2, 4) + "-" + Slice(d, 4, 8) + "-" + Slice(d, 8, |d|)
  }

  /** The layout's three slices are plain slices of a number of eight or more digits. */
  lemma InternationalLayoutPieces(d: string)
    requires |d| >= 8
    ensures InternationalLayout(d) == "81-" + d[2..4] + "-" + d[4..8] + "-" + d[8..]
  {
    assert Slice(d, 2, 4) == d[2..4] && Slice(d, 4, 8) == d[4..8];
    assert Slice(d, 8, |d|) == d[8..] by {
      if |d| == 8 {
        assert d[8..] == [];
      }
    }
  }

  /** Dashes at 2, 5 and 10 around two and four digits add nothing to the digits. */
  lemma DashedGroupsDigits(x: string, y: string, z: string)
    requires |x| == 2 && |y| == 4 && AllDigits(x) && AllDigits(y) && AllDigits(z)
    ensures var r := "81-" + x + "-" + y + "-" + z;
            |r| == |x| + |y| + |z| + 5 && r[..3] == "81-" && r[5] == '-' && r[10] == '-'
            && Digits(r) == "81" + x + y + z
  {
    var head := "81-" + x;
    DigitsAppend("81-", x);
    assert Digits("81-") == "81";
    DigitsOfDigits(x);
    DigitsOfDigits(y);
    DigitsOfDigits(z);
    DigitsAroundDash(head, y);
    DigitsAroundDash(head + "-" + y, z);
  }

  /** An '81' number of eight or more digits is laid out with dashes at 2, 5 and 10, keeping its digits. */
  lemma InternationalLayoutDigits(d: string)
    requires AllDigits(d) && StartsWith(d, "81") && |d| >= 8
    ensures var r := InternationalLayout(d);
            |r| == |d| + 3 && r[..3] == "81-" && r[5] == '-' && r[10] == '-' && Digits(r) == d
  {
    var x, y, z := d[2..4], d[4..8], d[8..];
    InternationalLayoutPieces(d);
    assert AllDigits(x) && AllDigits(y) && AllDigits(z);
    DashedGroupsDigits(x, y, z);
    assert d[4..] == y + z;
    assert d == "81" + x + d[4..];
  }

  /**
   * _standardize_phone_format: full-width digits and parentheses narrowed,
   * then a Japanese mobile (3-4-4), a Japanese landline (2-4-4 for a major
   * city code, otherwise 3-3-4), an '81' international number
   * (81-xx-xxxx-rest), a 10 or 11 digit number grouped 3-3-4 or 3-4-4, and
   * anything else returned stripped.
   */
  function StandardizePhoneFormat(phone: string, patternType: string): (r: string)
  {
    var p := NarrowPhone(phone);
    var digits := Digits(p);
    var jp := JapaneseMode(digits, patternType);
    var d := WorkingDigits(phone, patternType);
    if jp && |d| == 11 && d[0] == '0' then Dash3(d, 3, 4)
    else if jp && |d| == 10 && d[0] == '0' then
      (if d[1] in "3456789" then Dash3(d, 2, 4) else Dash3(d, 3, 3))
    else if StartsWith(d, "81") then InternationalLayout(d)
    else if |d| == 10 then Dash3(d, 3, 3)
    else if |d| == 11 then Dash3(d, 3, 4)
    else Strip(p)
  }

  lemma WorkingDigitsAreDigits(phone: string, patternType: string)
    ensures AllDigits(WorkingDigits(phone, patternType))
  {
    var digits := Digits(NarrowPhone(phone));
    if StartsWith(digits, "81") {
      TrunkZeroDigits(digits);
    }
  }

  /** Replacing the country code '81' of a digit string by '0' keeps it all digits. */
  lemma TrunkZeroDigits(digits: string)
    requires AllDigits(digits) && |digits| >= 2
    ensures AllDigits("0" + digits[2..])
  {
    var rest := digits[2..];
    assert forall i :: 0 <= i < |rest| ==> rest[i] == digits[i + 2];
  }

  /**
   * In Japanese mode a number with a trunk '0' is laid out by its length and
   * area code, and the dashes are the only thing added: the digits of the
   * result are the number's digits, with a leading '81' turned into '0'.
   */
  lemma StandardizePhoneFormatJapanese(phone: string, patternType: string)
    requires JapaneseMode(Digits(NarrowPhone(phone)), patternType)
    ensures var d := WorkingDigits(phone, patternType);
            var r := StandardizePhoneFormat(phone, patternType);
            (|d| == 11 && d[0] == '0' ==>
               |r| == 13 && r[3] == '-' && r[8] == '-' && Digits(r) == d)
            && (|d| == 10 && d[0] == '0' && d[1] in "3456789" ==>
               |r| == 12 && r[2] == '-' && r[7] == '-' && Digits(r) == d)
            && (|d| == 10 && d[0] == '0' && d[1] !in "3456789" ==>
               |r| == 12 && r[3] == '-' && r[7] == '-' && Digits(r) == d)
  {
    var d := WorkingDigits(phone, patternType);
    WorkingDigitsAreDigits(phone, patternType);
    if |d| == 11 && d[0] == '0' {
      Dash3Digits(d, 3, 4);
    } else if |d| == 10 && d[0] == '0' {
      if d[1] in "3456789" {
        Dash3Digits(d, 2, 4);
      } else {
        Dash3Digits(d, 3, 3);
      }
    }
  }

  /** Outside Japanese mode a 10 or 11 digit number that does not start with '81' is grouped, keeping its digits. */
  lemma StandardizePhoneFormatGrouped(phone: string, patternType: string)
    requires !JapaneseMode(Digits(NarrowPhone(phone)), patternType)
    requires !StartsWith(Digits(NarrowPhone(phone)), "81")
    requires |Digits(NarrowPhone(phone))| == 10 || |Digits(NarrowPhone(phone))| == 11
    ensures Digits(StandardizePhoneFormat(phone, patternType)) == Digits(NarrowPhone(phone))
    ensures |StandardizePhoneFormat(phone, patternType)| == |Digits(NarrowPhone(phone))| + 2
  {
    var d := Digits(NarrowPhone(phone));
    if |d| == 10 {
      Dash3Digits(d, 3, 3);
    } else {
      Dash3Digits(d, 3, 4);
    }
  }

  /**
   * Outside Japanese mode a number of eight or more digits starting with the
   * country code '81' is laid out 81-xx-xxxx-rest, keeping its digits.
   */
  lemma StandardizePhoneFormatInternational(phone: string, patternType: string)
    requires !JapaneseMode(Digits(NarrowPhone(phone)), patternType)
    requires StartsWith(Digits(NarrowPhone(phone)), "81") && |Digits(NarrowPhone(phone))| >= 8
    ensures var d := Digits(NarrowPhone(phone));
            var r := StandardizePhoneFormat(phone, patternType);
            |r| == |d| + 3 && r[..3] == "81-" && r[5] == '-' && r[10] == '-' && Digits(r) == d
  {
    var d := Digits(NarrowPhone(phone));
    assert WorkingDigits(phone, patternType) == d;
    InternationalLayoutDigits(d);
  }

  // ---------------------------------------------------------------------------
  // Phone validators
  // ---------------------------------------------------------------------------

  /** 0[5789]0 at the start: a mobile, IP or pager prefix. */
  predicate MobilePrefix(d: string) {
    |d| >= 3 && d[0] == '0' && d[1] in "5789" && d[2] == '0'
  }

  /**
   * _is_valid_japanese_phone: 10 or 11 digits; a mobile prefix requires
   * exactly 11, any other number exactly 10 digits starting with '0'.
   */
  function IsValidJapanesePhone(phone: string): (r: bool)
    ensures r ==> 10 <= |Digits(phone)| <= 11 && Digits(phone)[0] == '0'
    ensures MobilePrefix(Digits(phone)) ==> (r <==> |Digits(phone)| == 11)
    ensures !MobilePrefix(Digits(phone)) ==> (r <==> |Digits(phone)| == 10 && Digits(phone)[0] == '0')
  {
    var d := Digits(phone);
    if !(10 <= |d| <= 11) then false
    else if MobilePrefix(d) then |d| == 11
    else |d| == 10 && d[0] == '0'
  }

  /** re.match(r'^(\d)\1+$', d) on a digit string: two or more copies of one digit. */
  function AllSameDigit(d: string): (r: bool)
    ensures r <==> |d| >= 2 && forall i :: 0 <= i < |d| ==> d[i] == d[0]
  {
    |d| >= 2 && RepeatsFrom(d, 1)
  }

  function RepeatsFrom(d: string, i: nat): (r: bool)
    requires 1 <= i <= |d|
    ensures r <==> forall k :: i <= k < |d| ==> d[k] == d[0]
    decreases |d| - i
  {
    if i == |d| then true else d[i] == d[0] && RepeatsFrom(d, i + 1)
  }

  /** _is_valid_international_phone: 7 to 15 digits, not all the same digit. */
  function IsValidInternationalPhone(phone: string): (r: bool)
    ensures r <==> 7 <= |Digits(phone)| <= 15 && exists i :: 0 <= i < |Digits(phone)| && Digits(phone)[i] != Digits(phone)[0]
  {
    var d := Digits(phone);
    7 <= |d| <= 15 && !AllSameDigit(d)
  }

  /** all(int(d[i]) == int(d[i-1]) + step for i in range(i, n)), evaluated left to right; int() of a non-digit raises ValueError. */
  function StepsFrom(d: string, i: nat, n: nat, step: int): (r: Outcome<bool>)
    requires 1 <= i && n <= |d|
    ensures (forall k :: 0 <= k < n ==> IsDigit(d[k])) && i <= n ==>
              r == Returned(forall k :: i <= k < n ==> DigitValue(d[k]) == DigitValue(d[k - 1]) + step)
    decreases n - i
  {
    if i >= n then Returned(true)
    else if !IsDigit(d[i]) || !IsDigit(d[i - 1]) then Raised("ValueError")
    else if DigitValue(d[i]) == DigitValue(d[i - 1]) + step then StepsFrom(d, i + 1, n, step)
    else Returned(false)
  }

  /**
   * _is_sequential: false below six characters; otherwise whether the first
   * six digits run up, or run down, by one.
   */
  function IsSequential(digits: string): (r: Outcome<bool>)
    ensures |digits| < 6 ==> r == Returned(false)
    ensures |digits| >= 6 && (forall k :: 0 <= k < 6 ==> IsDigit(digits[k])) ==>
              r == Returned((forall k :: 1 <= k < 6 ==> DigitValue(digits[k]) == DigitValue(digits[k - 1]) + 1)
                            || (forall k :: 1 <= k < 6 ==> DigitValue(digits[k]) == DigitValue(digits[k - 1]) - 1))
  {
    if |digits| < 6 then Returned(false)
    else
      var asc := StepsFrom(digits, 1, 6, 1);
      if asc.Raised? then asc
      else
        var desc := StepsFrom(digits, 1, 6, -1);
        if desc.Raised? then desc
        else Returned(asc.value || desc.value)
  }

  // ---------------------------------------------------------------------------
  // Search windows
  // ---------------------------------------------------------------------------

  /** text[max(0, pos - radius):min(len, pos + radius)] as a pair of bounds. */
  function WindowBounds(len: nat, pos: nat, radius: nat): (r: (nat, nat))
    requires pos <= len
    ensures r.0 <= pos <= r.1 <= len
    ensures pos - radius <= r.0 && (r.0 == 0 || r.0 == pos - radius)
    ensures r.1 <= pos + radius && (r.1 == len || r.1 == pos + radius)
  {
    (if pos < radius then 0 else pos - radius, if pos + radius > len then len else pos + radius)
  }

  function Window(text: string, pos: nat, radius: nat): (r: string)
    requires pos <= |text|
    ensures |r| <= 2 * radius
    ensures r == text[WindowBounds(|text|, pos, radius).0..WindowBounds(|text|, pos, radius).1]
  {
    var b := WindowBounds(|text|, pos, radius);
    text[b.0..b.1]
  }

  /**
   * _find_contact_area: the 500 characters either side of the first
   * e-mail address, else of the first US-style phone number, else None.
   * The two regex searches are given as the start of their first match.
   */
  function FindContactArea(text: string, emailAt: Option<nat>, phoneAt: Option<nat>): (r: Option<string>)
    requires emailAt.Some? ==> emailAt.value <= |text|
    requires phoneAt.Some? ==> phoneAt.value <= |text|
    ensures r.None? <==> emailAt.None? && phoneAt.None?
    ensures emailAt.Some? ==> r == Some(Window(text, emailAt.value, 500))
    ensures emailAt.None? && phoneAt.Some? ==> r == Some(Window(text, phoneAt.value, 500))
    ensures r.Some? ==> |r.value| <= 1000
  {
    if emailAt.Some? then Some(Window(text, emailAt.value, 500))
    else if phoneAt.Some? then Some(Window(text, phoneAt.value, 500))
    else None
  }

  // ---------------------------------------------------------------------------
  // English phone search (_extract_phone_english)
  // ---------------------------------------------------------------------------

  /** The texts searched, in order: 300 characters either side of the e-mail when it occurs, then the whole text. */
  function SearchAreas(text: string, email: Option<string>): (r: seq<string>)
    ensures 1 <= |r| <= 2 && r[|r| - 1] == text
    ensures |r| == 2 <==> email.Some? && email.value != [] && Find(text, email.value) != -1
    ensures |r| == 2 ==> r[0] == Window(text, Find(text, email.value), 300)
  {
    if email.Some? && email.value != [] && Find(text, email.value) != -1 then
      [Window(text, Find(text, email.value), 300), text]
    else [text]
  }

  /** A match is taken when it has 10 to 15 digits, not all alike, and standardises to a non-empty number. */
  predicate PhoneCandidateOk(c: string) {
    var d := Digits(c);
    10 <= |d| <= 15 && !AllSameDigit(d)
    && StandardizePhoneNumber(c).Some? && StandardizePhoneNumber(c).value != []
  }

  /** The standardised form of the first acceptable candidate in cands[i..]. */
  function FirstPhone(cands: seq<string>, i: nat): (r: Option<string>)
    requires i <= |cands|
    ensures r.Some? ==> exists k :: i <= k < |cands| && PhoneCandidateOk(cands[k]) && r == StandardizePhoneNumber(cands[k])
    ensures r.None? ==> forall k :: i <= k < |cands| ==> !PhoneCandidateOk(cands[k])
    decreases |cands| - i
  {
    if i == |cands| then None
    else if PhoneCandidateOk(cands[i]) then StandardizePhoneNumber(cands[i])
    else FirstPhone(cands, i + 1)
  }

  function FirstPhoneInAreas(areas: seq<string>, matches: string -> seq<string>, j: nat): (r: Option<string>)
    requires j <= |areas|
    ensures r.Some? ==> exists a, k :: (j <= a < |areas| && 0 <= k < |matches(areas[a])|
              && PhoneCandidateOk(matches(areas[a])[k]) && r == StandardizePhoneNumber(matches(areas[a])[k]))
    decreases |areas| - j
  {
    if j == |areas| then None
    else
      var p := FirstPhone(matches(areas[j]), 0);
      if p.Some? then p else FirstPhoneInAreas(areas, matches, j + 1)
  }

  /**
   * _extract_phone_english. matches(area) lists the text of every match of
   * the six phone patterns in area, pattern by pattern, each in order.
   */
  function ExtractPhoneEnglish(text: string, email: Option<string>, matches: string -> seq<string>): (r: Option<string>)
  {
    FirstPhoneInAreas(SearchAreas(text, email), matches, 0)
  }

  /**
   * A phone found in English text has 10 to 15 digits, not all the same,
   * written with digits, '+', '-', parentheses and spaces only.
   */
  lemma ExtractPhoneEnglishSound(text: string, email: Option<string>, matches: string -> seq<string>)
    requires ExtractPhoneEnglish(text, email, matches).Some?
    ensures var p := ExtractPhoneEnglish(text, email, matches).value;
            10 <= |Digits(p)| <= 15 && !AllSameDigit(Digits(p)) && AllPhoneChars(p)
  {
    var areas := SearchAreas(text, email);
    var r := ExtractPhoneEnglish(text, email, matches);
    var a, k :| 0 <= a < |areas| && 0 <= k < |matches(areas[a])|
              && PhoneCandidateOk(matches(areas[a])[k]) && r == StandardizePhoneNumber(matches(areas[a])[k]);
    StandardizePhoneNumberSound(matches(areas[a])[k]);
  }

  // ---------------------------------------------------------------------------
  // Date of birth (_extract_dob_from_text)
  // ---------------------------------------------------------------------------

  /** How the three groups of a date-of-birth pattern are read. */
  datatype DobOrder = YearMonthDay | MonthDayYear | EraYearMonthDay

  /** The eight date-of-birth patterns in the order they are tried. */
  const DobOrders: seq<DobOrder> := [
    YearMonthDay, MonthDayYear, EraYearMonthDay, YearMonthDay,
    YearMonthDay, YearMonthDay, YearMonthDay, YearMonthDay
  ]

  const Reiwa: string := "\U{4EE4}\U{548C}"
  const Heisei: string := "\U{5E73}\U{6210}"
  const Showa: string := "\U{662D}\U{548C}"

  /** The 50 characters either side of the first occurrence of the era-year text. */
  function EraContext(text: string, eraText: string): (r: string)
  {
    var f := Find(text, eraText);
    Slice(text, if f < 50 then 0 else f - 50, f + 50)
  }

  /** The Gregorian year of an era year, by the era named nearby; Heisei when none is. */
  function EraYear(context: string, y: nat): (r: nat)
    ensures Contains(context, Reiwa) ==> r == 2018 + y
    ensures !Contains(context, Reiwa) && Contains(context, Heisei) ==> r == 1988 + y
    ensures !Contains(context, Reiwa) && !Contains(context, Heisei) && Contains(context, Showa) ==> r == 1925 + y
    ensures !Contains(context, Reiwa) && !Contains(context, Heisei) && !Contains(context, Showa) ==> r == 1988 + y
  {
    if Contains(context, Reiwa) then 2018 + y
    else if Contains(context, Heisei) then 1988 + y
    else if Contains(context, Showa) then 1925 + y
    else 1988 + y
  }

  datatype Ymd = Ymd(year: nat, month: nat, day: nat)

  /** The year, month and day a match denotes; None when int() rejects a group. */
  function ReadDob(text: string, order: DobOrder, g: Groups): (r: Option<Ymd>)
    ensures r.Some? ==> AllDigits(NarrowDigits(g.g1)) && AllDigits(NarrowDigits(g.g2)) && AllDigits(NarrowDigits(g.g3))
  {
    var a := ParseNat(NarrowDigits(g.g1));
    var b := ParseNat(NarrowDigits(g.g2));
    var c := ParseNat(NarrowDigits(g.g3));
    if a.None? || b.None? || c.None? then None
    else match order
      case EraYearMonthDay => Some(Ymd(EraYear(EraContext(text, g.g1), a.value), b.value, c.value))
      case YearMonthDay => Some(Ymd(a.value, b.value, c.value))
      case MonthDayYear => Some(Ymd(c.value, a.value, b.value))
  }

  /** f"{year:04d}-{month:02d}-{day:02d}" */
  function DobText(d: Ymd): string {
    Pad(d.year, 4) + "-" + Pad(d.month, 2) + "-" + Pad(d.day, 2)
  }

  /** The year test: a non-zero year between the bounds. */
  predicate YearAccepted(y: nat, minYear: int, maxYear: int) {
    y != 0 && minYear <= y <= maxYear
  }

  function DobSearch(text: string, minYear: int, maxYear: int, found: nat -> seq<Groups>, k: nat, j: nat): (r: Option<string>)
    requires k <= |DobOrders|
    ensures r.Some? ==> exists d :: r.value == DobText(d) && YearAccepted(d.year, minYear, maxYear)
    decreases |DobOrders| - k, |found(k)| - j
  {
    if k == |DobOrders| then None
    else if j >= |found(k)| then DobSearch(text, minYear, maxYear, found, k + 1, 0)
    else
      var d := ReadDob(text, DobOrders[k], found(k)[j]);
      if d.Some? && YearAccepted(d.value.year, minYear, maxYear) then Some(DobText(d.value))
      else DobSearch(text, minYear, maxYear, found, k, j + 1)
  }

  /**
   * _extract_dob_from_text. found(k) lists the groups of every match of the
   * k-th date-of-birth pattern in text (re.findall). The first match, pattern
   * by pattern, whose groups read as numbers and whose year is accepted
   * gives the date.
   */
  function ExtractDobFromText(text: string, minYear: int, maxYear: int, found: nat -> seq<Groups>): (r: Option<string>)
    ensures r.Some? ==> exists d :: r.value == DobText(d) && YearAccepted(d.year, minYear, maxYear)
  {
    DobSearch(text, minYear, maxYear, found, 0, 0)
  }

  /** The date text reads back as the year, month and day it was written from. */
  lemma DobTextRoundTrip(d: Ymd)
    requires d.year < 10000 && d.month < 100 && d.day < 100
    ensures var s := DobText(d);
            |s| == 10 && s[4] == '-' && s[7] == '-'
            && ParseNat(s[..4]) == Some(d.year) && ParseNat(s[5..7]) == Some(d.month) && ParseNat(s[8..]) == Some(d.day)
  {
    NatToStringShort(d.year);
    NatToStringShort(d.month);
    NatToStringShort(d.day);
    var s := DobText(d);
    var y, m, dd := Pad(d.year, 4), Pad(d.month, 2), Pad(d.day, 2);
    assert s[..4] == y;
    assert s[5..7] == m;
    assert s[8..] == dd;
    PadValue(d.year, 4);
    PadValue(d.month, 2);
    PadValue(d.day, 2);
  }

  // ---------------------------------------------------------------------------
  // main.py as stored: its non-ASCII literals are UTF-8 bytes read back as
  // Mac Roman, so each full-width digit is three Latin-1 characters
  // ---------------------------------------------------------------------------

  /** str.maketrans(x, y) for two strings: each character of x maps to the one at its place in y, a later repeat winning. */
  function MakeTrans(x: string, y: string): (r: Outcome<map<char, char>>)
    ensures r.Raised? <==> |x| != |y|
    ensures r.Returned? ==> forall c :: c in r.value <==> c in x
  {
    if |x| != |y| then Raised("ValueError")
    else if x == [] then Returned(map[])
    else
      var prev := MakeTrans(x[..|x| - 1], y[..|y| - 1]);
      assert forall c :: c in x <==> c in x[..|x| - 1] || c == x[|x| - 1];
      Returned(prev.value[x[|x| - 1] := y[|y| - 1]])
  }

  /** The digit table's first argument as main.py stores it (lines 486 and 587): ten groups of three characters. */
  const WideDigitsAsStored: string :=
    "\U{00D4}\U{00BA}\U{00EA}\U{00D4}\U{00BA}\U{00EB}\U{00D4}\U{00BA}\U{00ED}\U{00D4}\U{00BA}\U{00EC}\U{00D4}\U{00BA}\U{00EE}"
    + "\U{00D4}\U{00BA}\U{00EF}\U{00D4}\U{00BA}\U{00F1}\U{00D4}\U{00BA}\U{00F3}\U{00D4}\U{00BA}\U{00F2}\U{00D4}\U{00BA}\U{00F4}"

  /** The digit table as intended: the ten full-width digits. */
  const WideDigits: string :=
    "\U{FF10}\U{FF11}\U{FF12}\U{FF13}\U{FF14}\U{FF15}\U{FF16}\U{FF17}\U{FF18}\U{FF19}"

  /** The stored table has 30 characters against 10, so str.maketrans raises; the intended one is built. */
  lemma DigitTables()
    ensures MakeTrans(WideDigitsAsStored, "0123456789").Raised?
    ensures MakeTrans(WideDigits, "0123456789").Returned?
  {
    assert |WideDigitsAsStored| == 30;
    assert |WideDigits| == 10;
  }

  /**
   * _standardize_phone_format as main.py stores it: the digit table on its
   * first line raises ValueError before anything else runs, and no caller
   * catches it.
   */
  function StandardizePhoneFormatAsStored(phone: string, patternType: string): (r: Outcome<string>)
  {
    match MakeTrans(WideDigitsAsStored, "0123456789")
    case Raised(e) => Raised(e)
    case Returned(_) => Returned(StandardizePhoneFormat(phone, patternType))
  }

  /** As stored, formatting any phone number raises ValueError; the intended formatter returns a number. */
  lemma PhoneFormatAsStoredRaises(phone: string, patternType: string)
    ensures StandardizePhoneFormatAsStored(phone, patternType) == Raised("ValueError")
  {
    DigitTables();
  }

  /**
   * _extract_dob_from_text as main.py stores it: normalize_numbers runs on
   * the first group of every match before anything else and raises
   * ValueError; the except clause skips the match, so none yields a date.
   */
  function ExtractDobAsStored(text: string, minYear: int, maxYear: int, found: nat -> seq<Groups>): (r: Option<string>)
  {
    if MakeTrans(WideDigitsAsStored, "0123456789").Raised? then None
    else ExtractDobFromText(text, minYear, maxYear, found)
  }

  /** The groups a labelled "DOB: 1990/01/15" yields: one match of the first pattern. */
  function Dob1990(k: nat): seq<Groups> {
    if k == 0 then [Groups("1990", "01", "15")] else []
  }

  /** The intended code reads that date; the stored one loses it. */
  lemma DobAsStoredLosesDate()
    ensures ExtractDobFromText("DOB: 1990/01/15", 1950, 2010, Dob1990) == Some("1990-01-15")
    ensures ExtractDobAsStored("DOB: 1990/01/15", 1950, 2010, Dob1990) == None
  {
    DigitTables();
    ReadDob1990();
    DobText1990();
  }

  lemma ReadDob1990()
    ensures ReadDob("DOB: 1990/01/15", YearMonthDay, Groups("1990", "01", "15")) == Some(Ymd(1990, 1, 15))
  {
    assert NarrowDigits("1990") == "1990";
    assert NarrowDigits("01") == "01";
    assert NarrowDigits("15") == "15";
    assert DigitsValue("1990") == 1990 by {
      assert "1990"[..3] == "199" && "199"[..2] == "19" && "19"[..1] == "1" && "1"[..0] == "";
    }
    assert DigitsValue("01") == 1 by {
      assert "01"[..1] == "0" && "0"[..0] == "";
    }
    assert DigitsValue("15") == 15 by {
      assert "15"[..1] == "1" && "1"[..0] == "";
    }
  }

  lemma DobText1990()
    ensures DobText(Ymd(1990, 1, 15)) == "1990-01-15"
  {
    assert NatToString(19) == "19";
    assert NatToString(199) == "199";
    assert NatToString(1990) == "1990";
    assert NatToString(1) == "1";
    assert NatToString(15) == "15";
  }

  // ---------------------------------------------------------------------------
  // Name validation
  // ---------------------------------------------------------------------------

  /** str.isupper(): at least one cased character and no lower-case one. */
  predicate PyIsUpper(s: string) {
    (exists i :: 0 <= i < |s| && IsLetter(s[i])) && forall i :: 0 <= i < |s| ==> !IsLower(s[i])
  }

  /** str.islower(): at least one cased character and no upper-case one. */
  predicate PyIsLower(s: string) {
    (exists i :: 0 <= i < |s| && IsLetter(s[i])) && forall i :: 0 <= i < |s| ==> !IsUpper(s[i])
  }

  predicate HasUpper(s: string) {
    exists i :: 0 <= i < |s| && IsUpper(s[i])
  }

  /** The class [A-Za-z\s\-'\.] of a name written in Latin letters. */
  predicate LatinNameChar(c: char) {
    IsLetter(c) || IsSpace(c) || c == '-' || c == '\'' || c == '.'
  }

  predicate AllLatinNameChars(s: string) {
    forall i :: 0 <= i < |s| ==> LatinNameChar(s[i])
  }

  /** Words allowed to start in lower case. */
  const NameSuffixes: set<string> := {"Jr", "Sr", "II", "III", "IV"}

  /** Every word longer than one character starts with a capital, name suffixes aside. */
  predicate Capitalised(words: seq<string>) {
    forall k :: 0 <= k < |words| && |words[k]| > 1 ==> words[k] in NameSuffixes || IsUpper(words[k][0])
  }

  /** The lower-cased name, or one of its words, is a known non-name. */
  predicate Blacklisted(name: string, notNames: set<string>) {
    Lower(name) in notNames || exists w :: w in Words(Lower(name)) && w in notNames
  }

  /**
   * _is_valid_english_name: 3 to 50 characters, not blacklisted as a whole
   * or word by word, only Latin letters, whitespace, '-', an apostrophe or
   * '.', every longer word capitalised, and not shouted in capitals when
   * longer than five characters.
   */
  function IsValidEnglishName(name: string, notNames: set<string>): (r: bool)
    ensures r <==> 3 <= |name| <= 50 && !Blacklisted(name, notNames) && AllLatinNameChars(name)
                   && Capitalised(Words(name)) && !(PyIsUpper(name) && |name| > 5)
  {
    if |name| < 3 || |name| > 50 then false
    else if Lower(name) in notNames then false
    else if exists w :: w in Words(Lower(name)) && w in notNames then false
    else if !AllLatinNameChars(name) then false
    else if !Capitalised(Words(name)) then false
    else if PyIsUpper(name) && |name| > 5 then false
    else true
  }

  /** The words _is_valid_name_strict refuses: section headings and job titles. */
  const StrictNotNames: set<string> := {
    "profile", "summary", "objective", "experience", "education",
    "skills", "references", "career", "professional", "personal",
    "address", "location", "portfolio", "contact", "information",
    "programmer", "analyst", "developer", "engineer", "manager",
    "coordinator", "specialist", "consultant", "designer", "architect",
    "administrator", "executive", "director", "supervisor", "lead",
    "senior", "junior", "intern", "trainee", "associate", "assistant",
    "officer", "technician", "expert", "advisor", "coach",
    "\U{5C65}\U{6B74}\U{66F8}", "\U{8077}\U{52D9}\U{7D4C}\U{6B74}\U{66F8}", "\U{7D4C}\U{6B74}",
    "\U{5B66}\U{6B74}", "\U{8077}\U{6B74}", "\U{30B9}\U{30AD}\U{30EB}",
    "\U{30D7}\U{30ED}\U{30D5}\U{30A3}\U{30FC}\U{30EB}", "\U{30B5}\U{30DE}\U{30EA}\U{30FC}",
    "\U{6982}\U{8981}", "\U{81EA}\U{5DF1}\U{7D39}\U{4ECB}",
    "\U{65E5}\U{672C}\U{8A9E}\U{80FD}\U{529B}\U{8A66}\U{9A13}", "\U{8A66}\U{9A13}",
    "\U{30C6}\U{30B9}\U{30C8}", "\U{691C}\U{5B9A}"
  }

  /** Fragments that mark an e-mail, a URL, a path or markup rather than a name. */
  const NonNameFragments: seq<string> := ["@", "http", "www", "/", "\\", "|", "{", "}", "[", "]"]

  predicate HasNonNameFragment(name: string) {
    exists k :: 0 <= k < |NonNameFragments| && Contains(name, NonNameFragments[k])
  }

  /**
   * _is_valid_name_strict: 2 to 50 characters, no heading or job title,
   * not capitals-only beyond four characters, no e-mail, URL or markup
   * fragment, and a name in Latin letters must have a capital and must not
   * be lower case beyond three characters.
   */
  function IsValidNameStrict(name: string): (r: bool)
    ensures r <==> 2 <= |name| <= 50 && !Blacklisted(name, StrictNotNames)
                   && !(PyIsUpper(name) && |name| > 4) && !HasNonNameFragment(name)
                   && (AllLatinNameChars(name) ==> HasUpper(name) && !(PyIsLower(name) && |name| > 3))
  {
    if |name| < 2 || |name| > 50 then false
    else if Lower(name) in StrictNotNames || exists w :: w in Words(Lower(name)) && w in StrictNotNames then false
    else if PyIsUpper(name) && |name| > 4 then false
    else if HasNonNameFragment(name) then false
    else if AllLatinNameChars(name) && (!HasUpper(name) || (PyIsLower(name) && |name| > 3)) then false
    else true
  }

  /** A Latin-letter name the strict check accepts has a capital letter and no e-mail sign. */
  lemma StrictNameHasCapital(name: string)
    requires IsValidNameStrict(name) && AllLatinNameChars(name)
    ensures HasUpper(name)
    ensures !Contains(name, "@")
  {
    assert NonNameFragments[0] == "@";
  }

  // ---------------------------------------------------------------------------
  // Name cleaning (_clean_name)
  // ---------------------------------------------------------------------------

  predicate OpenBracket(c: char) { c == '(' || c == '\U{FF08}' }
  predicate CloseBracket(c: char) { c == ')' || c == '\U{FF09}' }

  /** Where `.*?[）)]` ends in u: the first closing bracket before any line break, or -1. */
  function CloseIn(u: string): (r: int)
    ensures -1 <= r < |u|
    ensures r >= 0 ==> CloseBracket(u[r]) && forall k :: 0 <= k < r ==> u[k] != '\n' && !CloseBracket(u[k])
    ensures r == -1 ==> forall k :: 0 <= k < |u| && CloseBracket(u[k]) ==> exists j :: 0 <= j < k && u[j] == '\n'
  {
    if u == [] then -1
    else if u[0] == '\n' then -1
    else if CloseBracket(u[0]) then 0
    else
      var k := CloseIn(u[1..]);
      if k < 0 then -1 else k + 1
  }

  /** re.sub(r'[（(].*?[）)]', '', s): every bracketed stretch on one line removed, scanning left to right. */
  function RemoveBracketed(s: string): (r: string)
    ensures |r| <= |s|
    decreases |s|
  {
    if s == [] then []
    else if OpenBracket(s[0]) && CloseIn(s[1..]) >= 0 then RemoveBracketed(s[CloseIn(s[1..]) + 2..])
    else [s[0]] + RemoveBracketed(s[1..])
  }

  /** No opening bracket is followed by a closing one on the same line. */
  predicate NoBracketed(t: string) {
    forall i :: 0 <= i < |t| && OpenBracket(t[i]) ==> CloseIn(t[i + 1..]) == -1
  }

  /** _clean_name: bracketed asides removed, then surrounding whitespace. */
  function CleanName(name: string): (r: string)
    ensures |r| <= |name|
  {
    Strip(RemoveBracketed(name))
  }

  /** Removal leaves alone a line start that holds no closing bracket. */
  lemma {:induction false} RemoveKeepsOpenLine(u: string)
    requires CloseIn(u) == -1
    ensures CloseIn(RemoveBracketed(u)) == -1
    decreases |u|
  {
    if u != [] && u[0] != '\n' {
      assert !CloseBracket(u[0]);
      assert CloseIn(u[1..]) == -1;
      RemoveKeepsOpenLine(u[1..]);
      var r := RemoveBracketed(u);
      assert r == [u[0]] + RemoveBracketed(u[1..]);
      assert r[1..] == RemoveBracketed(u[1..]);
    }
  }

  lemma {:induction false} RemoveBracketedClean(s: string)
    ensures NoBracketed(RemoveBracketed(s))
    decreases |s|
  {
    if s != [] {
      if OpenBracket(s[0]) && CloseIn(s[1..]) >= 0 {
        RemoveBracketedClean(s[CloseIn(s[1..]) + 2..]);
      } else {
        var rest := RemoveBracketed(s[1..]);
        RemoveBracketedClean(s[1..]);
        var r := [s[0]] + rest;
        forall i | 0 <= i < |r| && OpenBracket(r[i])
          ensures CloseIn(r[i + 1..]) == -1
        {
          if i == 0 {
            RemoveKeepsOpenLine(s[1..]);
            assert r[1..] == rest;
          } else {
            assert r[i + 1..] == rest[i..];
          }
        }
      }
    }
  }

  /** A string with no bracketed stretch is left as it is. */
  lemma {:induction false} RemoveBracketedNone(t: string)
    requires NoBracketed(t)
    ensures RemoveBracketed(t) == t
    decreases |t|
  {
    if t != [] {
      var u := t[1..];
      forall i | 0 <= i < |u| && OpenBracket(u[i])
        ensures CloseIn(u[i + 1..]) == -1
      {
        assert u[i + 1..] == t[i + 2..];
        assert t[i + 1] == u[i];
      }
      RemoveBracketedNone(u);
    }
  }

  /** A line start free of closing brackets stays free when cut short. */
  lemma {:induction false} CloseInPrefix(u: string, n: nat)
    requires n <= |u| && CloseIn(u) == -1
    ensures CloseIn(u[..n]) == -1
    decreases n
  {
    if n > 0 && u[0] != '\n' {
      assert u[..n][1..] == u[1..][..n - 1];
      CloseInPrefix(u[1..], n - 1);
    }
  }

  lemma {:induction false} NoBracketedSlice(t: string, a: nat, b: nat)
    requires a <= b <= |t| && NoBracketed(t)
    ensures NoBracketed(t[a..b])
  {
    var w := t[a..b];
    forall i | 0 <= i < |w| && OpenBracket(w[i])
      ensures CloseIn(w[i + 1..]) == -1
    {
      assert w[i] == t[a + i];
      assert w[i + 1..] == t[a + i + 1..][..b - a - i - 1];
      CloseInPrefix(t[a + i + 1..], b - a - i - 1);
    }
  }

  /** A cleaned name has no bracketed aside left on any line. */
  lemma CleanNameNoBrackets(name: string)
    ensures NoBracketed(CleanName(name))
  {
    var t := RemoveBracketed(name);
    RemoveBracketedClean(name);
    var i := SkipLeft(t, 0, IsSpace);
    var j := SkipRight(t, |t|, IsSpace);
    if i < j {
      NoBracketedSlice(t, i, j);
    }
  }

  /** Cleaning a cleaned name changes nothing. */
  lemma CleanNameIdempotent(name: string)
    ensures CleanName(CleanName(name)) == CleanName(name)
  {
    var c := CleanName(name);
    CleanNameNoBrackets(name);
    RemoveBracketedNone(c);
    StripIdempotent(RemoveBracketed(name));
  }

  // ---------------------------------------------------------------------------
  // The name in a candidate's folder (_extract_name_from_folder)
  // ---------------------------------------------------------------------------

  /** `^\d+_`: the index just past the underscore that ends the leading number. */
  function IdPrefixEnd(s: string): (r: Option<nat>)
    ensures r.Some? ==> 2 <= r.value <= |s| && s[r.value - 1] == '_'
                        && forall k :: 0 <= k < r.value - 1 ==> IsDigit(s[k])
  {
    var e := SkipLeft(s, 0, IsDigit);
    if e > 0 && e < |s| && s[e] == '_' then Some(e + 1) else None
  }

  /**
   * `([A-Z][A-Z]+)\s+([A-Za-z]+)` at i (or `([A-Za-z]+)\s+([A-Za-z]+)` when
   * upperFirst is false): the two names, each as long as possible.
   */
  function TwoNames(s: string, i: nat, upperFirst: bool): (r: Option<(string, string)>)
    requires i <= |s|
    ensures r.Some? ==> r.value.0 != [] && r.value.1 != []
    ensures r.Some? ==> (forall k :: 0 <= k < |r.value.0| ==> IsLetter(r.value.0[k]))
                        && (forall k :: 0 <= k < |r.value.1| ==> IsLetter(r.value.1[k]))
  {
    var e := if upperFirst then SkipLeft(s, i, IsUpper) else SkipLeft(s, i, IsLetter);
    if e - i < (if upperFirst then 2 else 1) then None
    else
      var sp := SkipLeft(s, e, IsSpace);
      if sp == e then None
      else
        var f := SkipLeft(s, sp, IsLetter);
        if f == sp then None else Some((s[i..e], s[sp..f]))
  }

  const Titles: seq<string> := ["Mr", "Ms", "Mrs", "Dr"]

  /** `(?:Mr|Ms|Mrs|Dr)?\s*` then the two names, trying the titles from the k-th on and then no title. */
  function TitledNames(s: string, p: nat, k: nat): (r: Option<(string, string)>)
    requires p <= |s| && k <= |Titles|
    ensures r.Some? ==> r.value.0 != [] && r.value.1 != []
    decreases |Titles| - k
  {
    if k == |Titles| then TwoNames(s, SkipLeft(s, p, IsSpace), true)
    else if OccursAt(s, Titles[k], p) then
      var m := TwoNames(s, SkipLeft(s, p + |Titles[k]|, IsSpace), true);
      if m.Some? then m else TitledNames(s, p, k + 1)
    else TitledNames(s, p, k + 1)
  }

  /** The three folder patterns in order: family name in capitals after an optional title, then without, then any case. */
  function FolderPatterns(s: string): (r: Option<(string, string)>)
    ensures r.Some? ==> r.value.0 != [] && r.value.1 != []
  {
    var p := IdPrefixEnd(s);
    if p.None? then None
    else
      var m1 := TitledNames(s, p.value, 0);
      if m1.Some? then m1
      else
        var m2 := TwoNames(s, p.value, true);
        if m2.Some? then m2 else TwoNames(s, p.value, false)
  }

  /** re.sub(r'^\d+_', '', s) */
  function DropIdPrefix(s: string): string {
    var p := IdPrefixEnd(s);
    if p.Some? then s[p.value..] else s
  }

  /** Length of `(Mr|Ms|Mrs|Dr)\s+` at the start of s, trying the titles from the k-th on; 0 when none matches. */
  function TitleSpaceEnd(s: string, k: nat): (r: nat)
    requires k <= |Titles|
    ensures r <= |s|
    ensures r > 0 ==> r >= 3
    decreases |Titles| - k
  {
    if k == |Titles| then 0
    else
      var t := Titles[k];
      if StartsWith(s, t) && |s| > |t| && IsSpace(s[|t|]) then SkipLeft(s, |t|, IsSpace)
      else TitleSpaceEnd(s, k + 1)
  }

  /** re.sub(r'(Mr|Ms|Mrs|Dr)\s+', '', s): every title followed by whitespace removed, with the whitespace. */
  function RemoveTitles(s: string): (r: string)
    ensures |r| <= |s|
    decreases |s|
  {
    if s == [] then []
    else
      var t := TitleSpaceEnd(s, 0);
      if t > 0 then RemoveTitles(s[t..]) else [s[0]] + RemoveTitles(s[1..])
  }

  const Alias: string := "\U{5225}\U{540D}"

  predicate NotNewline(c: char) { c != '\n' }

  /** re.sub(r'別名.*', '', s): from each alias marker to the end of its line. */
  function RemoveAlias(s: string): (r: string)
    ensures |r| <= |s|
    decreases |s|
  {
    if s == [] then []
    else if StartsWith(s, Alias) then
      var e := SkipLeft(s, 0, NotNewline);
      assert NotNewline(s[0]) && NotNewline(s[1]);
      RemoveAlias(s[e..])
    else [s[0]] + RemoveAlias(s[1..])
  }

  /**
   * _extract_name_from_folder: the two names of the first folder pattern
   * that matches, given name first; otherwise the folder name without its
   * number, titles and alias, kept when longer than two characters.
   */
  function NameFromFolder(folderPath: string): (r: Option<string>)
    ensures r.Some? ==> r.value != [] && !IsSpace(r.value[0]) && !IsSpace(r.value[|r.value| - 1])
  {
    var folder := BaseName(folderPath);
    var m := FolderPatterns(folder);
    var full := if m.Some? then Strip(m.value.1 + " " + m.value.0) else [];
    if full != [] then Some(full)
    else
      var part := Strip(RemoveAlias(RemoveTitles(DropIdPrefix(folder))));
      if |part| > 2 then Some(part) else None
  }

  /** SkipLeft stops exactly at the first character outside the class. */
  lemma SkipLeftAt(s: string, i: nat, j: nat, p: char -> bool)
    requires i <= j <= |s|
    requires forall k :: i <= k < j ==> p(s[k])
    requires j < |s| ==> !p(s[j])
    ensures SkipLeft(s, i, p) == j
  {
  }

  /** A run of two or more capitals, one space and a run of letters to the end are read as the two names. */
  lemma TwoNamesAt(s: string, p: nat, q: nat)
    requires p + 2 <= q && q + 1 < |s| && s[q] == ' '
    requires forall k :: p <= k < q ==> IsUpper(s[k])
    requires forall k :: q + 1 <= k < |s| ==> IsLetter(s[k])
    ensures TwoNames(s, p, true) == Some((s[p..q], s[q + 1..]))
  {
    SkipLeftAt(s, p, q, IsUpper);
    SkipLeftAt(s, q, q + 1, IsSpace);
    SkipLeftAt(s, q + 1, |s|, IsLetter);
    var e := SkipLeft(s, p, IsUpper);
    var sp := SkipLeft(s, e, IsSpace);
    var f := SkipLeft(s, sp, IsLetter);
    assert e == q && sp == q + 1 && f == |s|;
    assert s[sp..f] == s[q + 1..];
  }

  /**
   * "108_ATWAL Prateek": a numbered folder holding a family name in capitals
   * and a given name yields "Prateek ATWAL".
   */
  lemma NameFromFolderFamilyFirst(id: string, family: string, given: string)
    requires id != [] && AllDigits(id)
    requires |family| >= 2 && forall k :: 0 <= k < |family| ==> IsUpper(family[k])
    requires given != [] && forall k :: 0 <= k < |given| ==> IsLetter(given[k])
    ensures NameFromFolder(id + "_" + family + " " + given) == Some(given + " " + family)
  {
    var s := id + "_" + family + " " + given;
    var p := |id| + 1;
    var q := p + |family|;
    FolderShape(id, family, given);
    StripOfTrimmed(given + " " + family);
  }

  /** Such a folder name is its own base name, and the first folder pattern reads the two names from it. */
  lemma FolderShape(id: string, family: string, given: string)
    requires id != [] && AllDigits(id)
    requires |family| >= 2 && forall k :: 0 <= k < |family| ==> IsUpper(family[k])
    requires given != [] && forall k :: 0 <= k < |given| ==> IsLetter(given[k])
    ensures var s := id + "_" + family + " " + given;
            FolderPatterns(BaseName(s)) == Some((family, given))
  {
    FolderLayout(id, family, given);
    FolderRest(id, family, given);
    FolderNames(id + "_" + family + " " + given, |id| + 1, family, given);
  }

  /** After the number and its '_' come the two names. */
  lemma FolderRest(id: string, family: string, given: string)
    ensures (id + "_" + family + " " + given)[|id| + 1..] == family + " " + given
  {
    var s := id + "_" + family + " " + given;
    assert s == (id + "_") + (family + " " + given);
  }

  /** A folder name whose number ends at p and is followed by the two names reads as those names. */
  lemma FolderNames(s: string, p: nat, family: string, given: string)
    requires IdPrefixEnd(s) == Some(p)
    requires |family| >= 2 && forall k :: 0 <= k < |family| ==> IsUpper(family[k])
    requires given != [] && forall k :: 0 <= k < |given| ==> IsLetter(given[k])
    requires s[p..] == family + " " + given
    ensures FolderPatterns(s) == Some((family, given))
  {
    NamesLayout(s, p, family, given);
    var q := p + |family|;
    assert p + 2 <= q && q + 1 < |s| && s[q] == ' ';
    assert forall k :: p <= k < q ==> IsUpper(s[k]);
    assert forall k :: q + 1 <= k < |s| ==> IsLetter(s[k]);
    FolderPatternsAt(s, p, q);
    assert s[p..q] == family;
    assert s[q + 1..] == given;
  }

  /** The folder name has no '/' and its number ends just before the family name. */
  lemma FolderLayout(id: string, family: string, given: string)
    requires id != [] && AllDigits(id)
    requires forall k :: 0 <= k < |family| ==> IsUpper(family[k])
    requires forall k :: 0 <= k < |given| ==> IsLetter(given[k])
    ensures var s := id + "_" + family + " " + given;
            BaseName(s) == s && IdPrefixEnd(s) == Some(|id| + 1)
  {
    var s := id + "_" + family + " " + given;
    var p := |id| + 1;
    var q := p + |family|;
    forall k | 0 <= k < |s|
      ensures s[k] != '/'
    {
      if k < |id| {
        assert s[k] == id[k];
      } else if p <= k < q {
        assert s[k] == family[k - p];
      } else if q < k {
        assert s[k] == given[k - q - 1];
      }
    }
    assert forall k :: 0 <= k < |id| ==> s[k] == id[k];
    SkipLeftAt(s, 0, |id|, IsDigit);
  }

  /** The family name in capitals, one space, and the given name in letters to the end. */
  lemma NamesLayout(s: string, p: nat, family: string, given: string)
    requires |family| >= 2 && forall k :: 0 <= k < |family| ==> IsUpper(family[k])
    requires given != [] && forall k :: 0 <= k < |given| ==> IsLetter(given[k])
    requires p <= |s| && s[p..] == family + " " + given
    ensures var q := p + |family|;
            q + 1 < |s| && s[q] == ' ' && s[p..q] == family && s[q + 1..] == given &&
            (forall k :: p <= k < q ==> IsUpper(s[k])) && (forall k :: q + 1 <= k < |s| ==> IsLetter(s[k]))
  {
    var q := p + |family|;
    var t := family + " " + given;
    assert forall k :: p <= k < |s| ==> s[k] == t[k - p];
    forall k | p <= k < q
      ensures IsUpper(s[k])
    {
      assert t[k - p] == family[k - p];
    }
    forall k | q + 1 <= k < |s|
      ensures IsLetter(s[k])
    {
      assert t[k - p] == given[k - q - 1];
    }
    assert s[p..q] == t[..|family|] == family;
    assert s[q + 1..] == t[|family| + 1..] == given;
  }

  /** After the number, capitals that do not begin a title are read as the family name by the first pattern. */
  lemma FolderPatternsAt(s: string, p: nat, q: nat)
    requires IdPrefixEnd(s) == Some(p)
    requires p + 2 <= q && q + 1 < |s| && s[q] == ' '
    requires forall k :: p <= k < q ==> IsUpper(s[k])
    requires forall k :: q + 1 <= k < |s| ==> IsLetter(s[k])
    ensures FolderPatterns(s) == Some((s[p..q], s[q + 1..]))
  {
    forall k | 0 <= k < |Titles|
      ensures !OccursAt(s, Titles[k], p)
    {
      assert IsUpper(s[p + 1]);
    }
    NoTitleAt(s, p, 0);
    SkipLeftAt(s, p, p, IsSpace);
    TwoNamesAt(s, p, q);
  }

  lemma {:induction false} NoTitleAt(s: string, p: nat, k: nat)
    requires p <= |s| && k <= |Titles|
    requires forall j :: k <= j < |Titles| ==> !OccursAt(s, Titles[j], p)
    ensures TitledNames(s, p, k) == TitledNames(s, p, |Titles|)
    decreases |Titles| - k
  {
    if k < |Titles| {
      NoTitleAt(s, p, k + 1);
    }
  }

  // ---------------------------------------------------------------------------
  // One text block: AI first, regex for the gaps (_extract_data_from_text)
  // ---------------------------------------------------------------------------

  const RequiredFields: seq<string> := [
    "name", "email", "phone", "date_of_birth", "skills", "working_experience", "location", "school_university"
  ]

  const OutputKeys: set<string> := {
    "Name", "Email", "Phone", "Date_of_Birth", "Skills", "Working_Experience", "Location", "School_University"
  }

  predicate Distinct(xs: seq<string>) {
    forall a, b :: 0 <= a < b < |xs| ==> xs[a] != xs[b]
  }

  /** [f for f in fs if not d.get(f)] */
  function MissingOf(d: Dict, fs: seq<string>): (r: seq<string>)
    ensures forall f :: f in r <==> f in fs && !Truthy(Get(d, f))
    ensures Distinct(fs) ==> Distinct(r)
  {
    if fs == [] then []
    else
      var init := MissingOf(d, fs[..|fs| - 1]);
      var last := fs[|fs| - 1];
      assert forall f :: f in fs <==> f in fs[..|fs| - 1] || f == last;
      if !Truthy(Get(d, last)) then init + [last] else init
  }

  /** The dictionary the AI step leaves: the model's when the call returned a non-empty one, else empty. */
  function AiStart(ai: Option<Outcome<Dict>>): (r: Dict)
    ensures r != map[] <==> ai.Some? && ai.value.Returned? && ai.value.value != map[]
  {
    if ai.Some? && ai.value.Returned? && ai.value.value != map[] then ai.value.value else map[]
  }

  /** The value a required field ends up with: the AI's when truthy, else the regex's when truthy, else the AI's. */
  function Pick(start: Dict, regex: Dict, f: string): Value {
    if Truthy(Get(start, f)) then Get(start, f)
    else if Truthy(Get(regex, f)) then Get(regex, f)
    else Get(start, f)
  }

  /** standardize_date on whatever the field holds: None for a falsy value, and a TypeError for a non-string. */
  function StandardizeDobValue(today: Date, v: Value): (r: Outcome<Value>)
    requires Valid(today)
    ensures !Truthy(v) ==> r == Returned(Null)
    ensures v.Str? ==> r == Returned(OptStr(StandardizeDate(today, v.s)))
    ensures r.Raised? <==> Truthy(v) && !v.Str?
  {
    if !Truthy(v) then Returned(Null)
    else if v.Str? then Returned(OptStr(StandardizeDate(today, v.s)))
    else Raised("TypeError")
  }

  /** The output row of one text block, under its eight fixed keys. */
  function FormatFields(today: Date, m: Dict): (r: Outcome<Dict>)
    requires Valid(today)
    ensures r.Returned? ==> r.value.Keys == OutputKeys
    ensures r.Raised? <==> StandardizeDobValue(today, Get(m, "date_of_birth")).Raised?
  {
    var dob := StandardizeDobValue(today, Get(m, "date_of_birth"));
    if dob.Raised? then Raised(dob.error)
    else Returned(map[
      "Name" := Get(m, "name"),
      "Email" := Get(m, "email"),
      "Phone" := Get(m, "phone"),
      "Date_of_Birth" := dob.value,
      "Skills" := Get(m, "skills"),
      "Working_Experience" := Get(m, "working_experience"),
      "Location" := Get(m, "location"),
      "School_University" := Get(m, "school_university")
    ])
  }

  lemma FormatFieldsByRequired(today: Date, m1: Dict, m2: Dict)
    requires Valid(today)
    requires forall f :: f in RequiredFields ==> Get(m1, f) == Get(m2, f)
    ensures FormatFields(today, m1) == FormatFields(today, m2)
  {
    assert RequiredFields[0] == "name" && RequiredFields[1] == "email" && RequiredFields[2] == "phone";
    assert RequiredFields[3] == "date_of_birth" && RequiredFields[4] == "skills";
    assert RequiredFields[5] == "working_experience" && RequiredFields[6] == "location";
    assert RequiredFields[7] == "school_university";
  }

  /** The merged fields: each required field as Pick chooses it. */
  function Merged(start: Dict, regex: Dict): Dict {
    map f | f in RequiredFields :: Pick(start, regex, f)
  }

  /**
   * _extract_data_from_text. ai is None when AI extraction is disabled, and
   * otherwise what extract_all_fields did (an exception is swallowed);
   * regex is what the regex extractor finds in the same text. The phone is
   * passed through as it is and the date of birth is standardised.
   */
  method ExtractDataFromText(today: Date, ai: Option<Outcome<Dict>>, regex: Dict)
    returns (r: Outcome<Dict>, aiAssisted: bool)
    requires Valid(today)
    ensures aiAssisted <==> ai.Some? && ai.value.Returned? && ai.value.value != map[]
    ensures r == FormatFields(today, Merged(AiStart(ai), regex))
  {
    var start := AiStart(ai);
    var final := start;
    aiAssisted := start != map[];
    var missing := CollectMissing(final);
    if ai.None? || missing != [] {
      final := FillMissing(start, regex, missing);
      FillMissingPicks(start, regex);
    } else {
      assert forall f :: f in RequiredFields ==> Truthy(Get(start, f));
    }
    assert forall f :: f in RequiredFields ==> Get(final, f) == Get(Merged(start, regex), f);
    FormatFieldsByRequired(today, final, Merged(start, regex));
    r := FormatFields(today, final);
  }

  lemma RequiredDistinct()
    ensures Distinct(RequiredFields)
  {
  }

  /** The loop listing the required fields that are not truthy, in order. */
  method CollectMissing(final: Dict) returns (missing: seq<string>)
    ensures missing == MissingOf(final, RequiredFields)
  {
    missing := [];
    var i := 0;
    while i < |RequiredFields|
      invariant i <= |RequiredFields|
      invariant missing == MissingOf(final, RequiredFields[..i])
    {
      MissingOfSnoc(final, RequiredFields, i);
      if !Truthy(Get(final, RequiredFields[i])) {
        missing := missing + [RequiredFields[i]];
      }
      i := i + 1;
    }
    assert RequiredFields[..i] == RequiredFields;
  }

  lemma MissingOfSnoc(d: Dict, fs: seq<string>, i: nat)
    requires i < |fs|
    ensures MissingOf(d, fs[..i + 1]) == MissingOf(d, fs[..i]) + (if !Truthy(Get(d, fs[i])) then [fs[i]] else [])
  {
    assert fs[..i + 1][..i] == fs[..i];
  }

  lemma FillFromSnoc(start: Dict, regex: Dict, ms: seq<string>, j: nat)
    requires j < |ms|
    ensures FillFrom(start, regex, ms[..j + 1]) == FillOne(FillFrom(start, regex, ms[..j]), regex, ms[j])
  {
    assert ms[..j + 1][..j] == ms[..j];
  }

  /** The loop filling each missing field from the regex results when they have it. */
  method FillMissing(start: Dict, regex: Dict, missing: seq<string>) returns (final: Dict)
    ensures final == FillFrom(start, regex, missing)
  {
    final := start;
    var j := 0;
    while j < |missing|
      invariant j <= |missing|
      invariant final == FillFrom(start, regex, missing[..j])
    {
      final := FillOne(final, regex, missing[j]);
      FillFromSnoc(start, regex, missing, j);
      j := j + 1;
    }
    assert missing[..j] == missing;
  }

  /** Filling the missing required fields gives each required field the value Pick chooses. */
  lemma FillMissingPicks(start: Dict, regex: Dict)
    ensures forall f :: f in RequiredFields ==>
              Get(FillFrom(start, regex, MissingOf(start, RequiredFields)), f) == Pick(start, regex, f)
  {
    var missing := MissingOf(start, RequiredFields);
    RequiredDistinct();
    forall f | f in RequiredFields
      ensures Get(FillFrom(start, regex, missing), f) == Pick(start, regex, f)
    {
      FillFromAt(start, regex, missing, f);
    }
  }

  /** One step of the fill loop: a falsy field takes the regex value when that is truthy. */
  function FillOne(m: Dict, regex: Dict, f: string): Dict {
    if !Truthy(Get(m, f)) && Truthy(Get(regex, f)) then m[f := Get(regex, f)] else m
  }

  /** The fill loop over the fields ms, in order. */
  function FillFrom(start: Dict, regex: Dict, ms: seq<string>): Dict
    decreases |ms|
  {
    if ms == [] then start else FillOne(FillFrom(start, regex, ms[..|ms| - 1]), regex, ms[|ms| - 1])
  }

  /** With no field repeated, a listed field is filled once from its start value; any other keeps it. */
  lemma {:induction false} FillFromAt(start: Dict, regex: Dict, ms: seq<string>, f: string)
    requires Distinct(ms)
    ensures f in ms ==> Get(FillFrom(start, regex, ms), f) == Get(FillOne(start, regex, f), f)
    ensures f !in ms ==> Get(FillFrom(start, regex, ms), f) == Get(start, f)
    decreases |ms|
  {
    if ms != [] {
      var init, g := ms[..|ms| - 1], ms[|ms| - 1];
      assert Distinct(init);
      FillFromAt(start, regex, init, f);
      if f == g {
        assert f !in init by {
          assert forall k :: 0 <= k < |init| ==> init[k] == ms[k] != ms[|ms| - 1];
        }
      } else {
        assert f in ms ==> f in init;
      }
    }
  }

  /**
   * The merge: a truthy AI value is kept, a regex value fills only a field
   * the AI left empty, and a field neither filled keeps what the AI gave.
   */
  lemma MergePrecedence(start: Dict, regex: Dict, f: string)
    requires f in RequiredFields
    ensures Truthy(Get(start, f)) ==> Get(Merged(start, regex), f) == Get(start, f)
    ensures !Truthy(Get(start, f)) && Truthy(Get(regex, f)) ==> Get(Merged(start, regex), f) == Get(regex, f)
    ensures !Truthy(Get(start, f)) && !Truthy(Get(regex, f)) ==> !Truthy(Get(Merged(start, regex), f))
  {
  }

  // ---------------------------------------------------------------------------
  // The result row (_set_extraction_status, _emergency_contact_extraction)
  // ---------------------------------------------------------------------------

  /** Python truthiness of an optional string. */
  predicate Present(o: Option<string>) { o.Some? && o.value != [] }

  function CountSome(xs: seq<Option<string>>): (r: nat)
    ensures r <= |xs|
    ensures r == |xs| <==> forall k :: 0 <= k < |xs| ==> xs[k].Some?
    ensures r == 0 <==> forall k :: 0 <= k < |xs| ==> xs[k].None?
  {
    if xs == [] then 0 else (if xs[0].Some? then 1 else 0) + CountSome(xs[1..])
  }

  /**
   * The ID taken from a folder name: int() of its leading run of digits
   * (`^(\d+)`), None when it does not start with a digit.
   */
  function FolderId(folderName: string): (r: Option<nat>)
    ensures r.Some? <==> folderName != [] && IsDigit(folderName[0])
  {
    var e := SkipLeft(folderName, 0, IsDigit);
    if e > 0 then Some(DigitsValue(folderName[..e])) else None
  }

  /** A folder named by a number and an underscore has that number as its ID. */
  lemma FolderIdOfNumber(n: nat, rest: string)
    ensures FolderId(NatToString(n) + "_" + rest) == Some(n)
  {
    var d := NatToString(n);
    var s := d + "_" + rest;
    assert forall k :: 0 <= k < |d| ==> s[k] == d[k];
    assert s[|d|] == '_';
    SkipLeftAt(s, 0, |d|, IsDigit);
    assert s[..|d|] == d;
    NatToStringValue(n);
  }

  /** Python truthiness of the integer ID: None and 0 are both false. */
  predicate IdPresent(id: Option<nat>) { id.Some? && id.value != 0 }

  /**
   * The extraction status: Failed without a name or a truthy ID, otherwise
   * Complete when ID, name, e-mail, phone and date of birth are all set,
   * Success with at least three of them and Partial below that.
   */
  function StatusFor(id: Option<nat>, name: Option<string>, email: Option<string>,
                     phone: Option<string>, dob: Option<string>): (r: string)
    ensures r == "Failed" <==> !Present(name) || !IdPresent(id)
    ensures r == "Complete" <==> Present(name) && IdPresent(id) && email.Some? && phone.Some? && dob.Some?
    ensures r == "Partial" <==> Present(name) && IdPresent(id) && email.None? && phone.None? && dob.None?
    ensures r == "Success" <==> Present(name) && IdPresent(id) && !(email.Some? && phone.Some? && dob.Some?)
                                && (email.Some? || phone.Some? || dob.Some?)
  {
    if !Present(name) || !IdPresent(id) then "Failed"
    else
      var n := (if id.Some? then 1 else 0) + CountSome([name, email, phone, dob]);
      CountFour(name, email, phone, dob);
      if n >= 5 then "Complete" else if n >= 3 then "Success" else "Partial"
  }

  /** An ID of 0 is false in Python, so a folder numbered 0 fails whatever else was found. */
  lemma ZeroIdFails(rest: string, name: Option<string>, email: Option<string>, phone: Option<string>, dob: Option<string>)
    ensures FolderId("000_" + rest) == Some(0)
    ensures StatusFor(FolderId("000_" + rest), name, email, phone, dob) == "Failed"
  {
    var s := "000_" + rest;
    assert s[..3] == "000" && s[3] == '_';
    SkipLeftAt(s, 0, 3, IsDigit);
    assert DigitsValue("000") == 0 by {
      assert "000"[..2] == "00" && "00"[..1] == "0" && "0"[..0] == "";
    }
  }

  function Indicator(o: Option<string>): nat { if o.Some? then 1 else 0 }

  lemma CountFour(b: Option<string>, c: Option<string>, d: Option<string>, e: Option<string>)
    ensures CountSome([b, c, d, e]) == Indicator(b) + Indicator(c) + Indicator(d) + Indicator(e)
  {
    assert [e][1..] == [];
    assert CountSome([e]) == Indicator(e);
    assert [d, e][1..] == [e];
    assert CountSome([d, e]) == Indicator(d) + Indicator(e);
    assert [c, d, e][1..] == [d, e];
    assert CountSome([c, d, e]) == Indicator(c) + Indicator(d) + Indicator(e);
    assert [b, c, d, e][1..] == [c, d, e];
  }

  /** A match of an emergency pattern: the whole match and its first group. */
  datatype Hit = Hit(whole: string, group: string)

  /** One emergency pattern applied to (e-mail, phone). */
  function EmergencyStep(contact: (Option<string>, Option<string>), h: Option<Hit>): (Option<string>, Option<string>) {
    if h.None? then contact
    else if Contains(h.value.whole, "@") && !Present(contact.0) then (Some(Lower(h.value.group)), contact.1)
    else if !Present(contact.1) then (contact.0, Some(h.value.group))
    else contact
  }

  /** The emergency patterns applied in order. */
  function EmergencyFrom(contact: (Option<string>, Option<string>), hits: seq<Option<Hit>>): (Option<string>, Option<string>)
    decreases |hits|
  {
    if hits == [] then contact else EmergencyFrom(EmergencyStep(contact, hits[0]), hits[1..])
  }

  /** The emergency search never overwrites an e-mail or a phone that is already there. */
  lemma {:induction false} EmergencyKeepsPresent(contact: (Option<string>, Option<string>), hits: seq<Option<Hit>>)
    ensures Present(contact.0) ==> EmergencyFrom(contact, hits).0 == contact.0
    ensures Present(contact.1) ==> EmergencyFrom(contact, hits).1 == contact.1
    decreases |hits|
  {
    if hits != [] {
      EmergencyKeepsPresent(EmergencyStep(contact, hits[0]), hits[1..]);
    }
  }

  /** The e-mail found in an emergency search is lower case. */
  lemma {:induction false} EmergencyEmailLower(contact: (Option<string>, Option<string>), hits: seq<Option<Hit>>)
    requires !Present(contact.0)
    ensures var e := EmergencyFrom(contact, hits).0;
            e == contact.0 || (e.Some? && forall k :: 0 <= k < |e.value| ==> !IsUpper(e.value[k]))
    decreases |hits|
  {
    if hits != [] {
      var next := EmergencyStep(contact, hits[0]);
      if Present(next.0) {
        EmergencyKeepsPresent(next, hits[1..]);
      } else {
        EmergencyEmailLower(next, hits[1..]);
      }
    }
  }

  const NoNameNote: string := "\U{1F6A8} CRITICAL: No name found! "
  const NoIdNote: string := "\U{1F6A8} No ID found in folder name!"
  const NoContactNote: string := " \U{1F6A8} NO CONTACT INFO FOUND!"

  /** The notes a status decision adds. */
  function StatusNotes(id: Option<nat>, name: Option<string>): string {
    (if !Present(name) then NoNameNote else "") + (if !IdPresent(id) then NoIdNote else "")
  }

  /** The fields of a result row the status logic reads and writes. */
  class ResultRow {
    var id: Option<nat>
    var name: Option<string>
    var email: Option<string>
    var phone: Option<string>
    var dateOfBirth: Option<string>
    var status: string
    var notes: string

    constructor (id: Option<nat>, name: Option<string>, email: Option<string>,
                 phone: Option<string>, dateOfBirth: Option<string>)
      ensures this.id == id && this.name == name && this.email == email
      ensures this.phone == phone && this.dateOfBirth == dateOfBirth
      ensures status == "" && notes == ""
    {
      this.id := id;
      this.name := name;
      this.email := email;
      this.phone := phone;
      this.dateOfBirth := dateOfBirth;
      status := "";
      notes := "";
    }

    /**
     * _emergency_contact_extraction. hits holds, per emergency pattern in
     * order (an e-mail address, then a number after a contact label), its
     * first match in the text.
     */
    method EmergencyContactExtraction(hits: seq<Option<Hit>>)
      modifies this
      ensures (email, phone) == EmergencyFrom(old((email, phone)), hits)
      ensures old(Present(email)) ==> email == old(email)
      ensures old(Present(phone)) ==> phone == old(phone)
      ensures id == old(id) && name == old(name) && dateOfBirth == old(dateOfBirth)
      ensures status == old(status) && notes == old(notes)
    {
      var i := 0;
      while i < |hits|
        invariant i <= |hits|
        invariant EmergencyFrom((email, phone), hits[i..]) == EmergencyFrom(old((email, phone)), hits)
        invariant id == old(id) && name == old(name) && dateOfBirth == old(dateOfBirth)
        invariant status == old(status) && notes == old(notes)
      {
        assert hits[i..][1..] == hits[i + 1..];
        var h := hits[i];
        if h.Some? {
          if Contains(h.value.whole, "@") && !Present(email) {
            email := Some(Lower(h.value.group));
          } else if !Present(phone) {
            phone := Some(h.value.group);
          }
        }
        i := i + 1;
      }
      EmergencyKeepsPresent(old((email, phone)), hits);
    }

    /**
     * _set_extraction_status: the status from the fields present, notes on
     * a missing name or ID, and an emergency contact search when neither an
     * e-mail nor a phone is there.
     */
    method SetExtractionStatus(hits: seq<Option<Hit>>)
      modifies this
      ensures status == StatusFor(old(id), old(name), old(email), old(phone), old(dateOfBirth))
      ensures !old(Present(email)) && !old(Present(phone)) ==>
                notes == old(notes) + StatusNotes(old(id), old(name)) + NoContactNote
                && (email, phone) == EmergencyFrom(old((email, phone)), hits)
      ensures old(Present(email)) || old(Present(phone)) ==>
                notes == old(notes) + StatusNotes(old(id), old(name))
                && email == old(email) && phone == old(phone)
      ensures old(Present(email)) ==> email == old(email)
      ensures old(Present(phone)) ==> phone == old(phone)
      ensures id == old(id) && name == old(name) && dateOfBirth == old(dateOfBirth)
    {
      status := StatusFor(id, name, email, phone, dateOfBirth);
      notes := notes + StatusNotes(id, name);
      if !Present(email) && !Present(phone) {
        notes := notes + NoContactNote;
        EmergencyContactExtraction(hits);
      }
    }
  }
}
