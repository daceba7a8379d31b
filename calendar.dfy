/**
 * Calendar dates as Python's datetime sees them: validity of a
 * (year, month, day) triple, day ordinals, the 18-70 age window the
 * résumé pipeline applies, strftime('%Y-%m-%d'), a model of
 * datetime.strptime for the directives the pipeline uses, and the two
 * date regexes that several modules search with.
 */
module Calendar {
  import opened Text

  /** config.MIN_AGE and config.MAX_AGE */
  const MIN_AGE: int := 18
  const MAX_AGE: int := 70

  datatype Date = Date(year: int, month: int, day: int)

  predicate IsLeap(y: int) {
    y % 4 == 0 && (y % 100 != 0 || y % 400 == 0)
  }

  function DaysInMonth(y: int, m: int): int
    requires 1 <= m <= 12
  {
    if m == 2 then (if IsLeap(y) then 29 else 28)
    else if m == 4 || m == 6 || m == 9 || m == 11 then 30
    else 31
  }

  /** datetime(year, month, day) accepts the triple (MINYEAR 1, MAXYEAR 9999). */
  predicate Valid(d: Date) {
    1 <= d.year <= 9999 && 1 <= d.month <= 12 && 1 <= d.day <= DaysInMonth(d.year, d.month)
  }

  function DaysBeforeYear(y: int): int {
    var p := y - 1;
    p * 365 + p / 4 - p / 100 + p / 400
  }

  function DaysBeforeMonth(y: int, m: int): int
    requires 1 <= m <= 12
  {
    if m == 1 then 0 else DaysBeforeMonth(y, m - 1) + DaysInMonth(y, m - 1)
  }

  /** date.toordinal(): day 1 is 0001-01-01. */
  function Ordinal(d: Date): int
    requires Valid(d)
  {
    DaysBeforeYear(d.year) + DaysBeforeMonth(d.year, d.month) + d.day
  }

  /**
   * `MIN_AGE <= (now - dt).days / 365.25 <= MAX_AGE` with now on the day
   * `today`: the whole days elapsed are the ordinal difference, and the
   * float comparison is exact on four times the day count.
   */
  predicate AgeInWindow(today: Date, dt: Date)
    requires Valid(today) && Valid(dt)
  {
    var days := Ordinal(today) - Ordinal(dt);
    MIN_AGE * 1461 <= 4 * days <= MAX_AGE * 1461
  }

  // ---------------------------------------------------------------------------
  // The YYYY-MM-DD form
  // ---------------------------------------------------------------------------

  /** dt.strftime('%Y-%m-%d') */
  function FormatIso(d: Date): (r: string)
    requires Valid(d)
  {
    Pad(d.year, 4) + "-" + Pad(d.month, 2) + "-" + Pad(d.day, 2)
  }

  /** re.match(r'^\d{4}-\d{2}-\d{2}$', s); `$` also matches before a final newline. */
  predicate IsoShape(s: string) {
    (|s| == 10 || (|s| == 11 && s[10] == '\n'))
    && AllDigits(s[0..4]) && s[4] == '-' && AllDigits(s[5..7]) && s[7] == '-' && AllDigits(s[8..10])
  }

  /** The three numbers an IsoShape string spells. */
  function IsoFields(s: string): Date
    requires IsoShape(s)
  {
    Date(DigitsValue(s[0..4]), DigitsValue(s[5..7]), DigitsValue(s[8..10]))
  }

  lemma {:induction false} NatToStringLength(n: nat, bound: nat, k: nat)
    requires k >= 1 && n < bound
    requires bound == if k == 1 then 10 else if k == 2 then 100 else if k == 3 then 1000 else 10000
    requires k <= 4
    ensures |NatToString(n)| <= k
  {
    if n >= 10 {
      var b' := if k == 2 then 10 else if k == 3 then 100 else 1000;
      NatToStringLength(n / 10, b', k - 1);
    }
  }

  /** strftime('%Y-%m-%d') of a valid date has the YYYY-MM-DD shape and reads back as that date. */
  lemma FormatIsoRoundTrip(d: Date)
    requires Valid(d)
    ensures |FormatIso(d)| == 10
    ensures IsoShape(FormatIso(d))
    ensures IsoFields(FormatIso(d)) == d
  {
    NatToStringLength(d.year, 10000, 4);
    NatToStringLength(d.month, 100, 2);
    NatToStringLength(d.day, 100, 2);
    var y := Pad(d.year, 4);
    var m := Pad(d.month, 2);
    var dd := Pad(d.day, 2);
    var s := FormatIso(d);
    assert s[0..4] == y;
    assert s[5..7] == m;
    assert s[8..10] == dd;
    PadValue(d.year, 4);
    PadValue(d.month, 2);
    PadValue(d.day, 2);
  }

  /** Two digits or fewer denote a number below 100. */
  lemma SmallDigitsValue(g: string)
    requires AllDigits(g) && |g| <= 2
    ensures DigitsValue(g) < 100
  {
    if |g| == 2 {
      var h := g[..1];
      assert h[..0] == [];
      assert DigitsValue(h) == DigitValue(h[0]);
    } else if |g| == 1 {
      assert g[..0] == [];
    }
  }

  /** f"{int(g):02d}" for one or two digits: two digits with the same value. */
  function TwoDigits(g: string): (r: string)
    requires AllDigits(g) && 1 <= |g| <= 2
    ensures |r| == 2 && AllDigits(r) && DigitsValue(r) == DigitsValue(g)
  {
    SmallDigitsValue(g);
    NatToStringShort(DigitsValue(g));
    PadValue(DigitsValue(g), 2);
    Pad(DigitsValue(g), 2)
  }

  /** A year of four digits with two two-digit numbers, joined by dashes, has the YYYY-MM-DD shape. */
  lemma DashedShape(y: string, m: string, d: string)
    requires |y| == 4 && AllDigits(y) && |m| == 2 && AllDigits(m) && |d| == 2 && AllDigits(d)
    ensures var r := y + "-" + m + "-" + d;
            IsoShape(r) && r[0..4] == y && r[5..7] == m && r[8..10] == d
  {
    var r := y + "-" + m + "-" + d;
    assert r[0..4] == y && r[5..7] == m && r[8..10] == d;
  }

  // ---------------------------------------------------------------------------
  // datetime.strptime
  // ---------------------------------------------------------------------------

  /**
   * The directives of a strptime format. A run of whitespace in a format
   * becomes `\s+`; any other character must match itself, ignoring case.
   */
  datatype Directive = Year4 | Month2 | Day2 | MonthName | MonthAbbr | Lit(c: char) | Spaces

  datatype Field = NoField | YearField | MonthField | DayField

  /** One way a directive can match: its length and the field value it sets. */
  datatype Piece = Piece(len: nat, field: Field, value: int)

  /** The fields strptime has collected; unset fields keep the defaults 1900-01-01. */
  datatype Fields = Fields(year: int, month: int, day: int)

  function Apply(f: Fields, p: Piece): Fields {
    match p.field
    case NoField => f
    case YearField => f.(year := p.value)
    case MonthField => f.(month := p.value)
    case DayField => f.(day := p.value)
  }

  const MonthNames: seq<string> := ["january", "february", "march", "april", "may", "june", "july",
                                    "august", "september", "october", "november", "december"]
  const MonthAbbrs: seq<string> := ["jan", "feb", "mar", "apr", "may", "jun", "jul", "aug", "sep",
                                    "oct", "nov", "dec"]

  predicate DigitIn(c: char, lo: char, hi: char) { lo <= c <= hi }

  /** The name n is at position i of s, ignoring case. */
  predicate NameAt(s: string, i: nat, n: string) {
    i + |n| <= |s| && Lower(s[i..i + |n|]) == n
  }

  /** Month names that match at i, ignoring case; at most one does, so their order does not matter. */
  function NamePieces(s: string, i: nat, names: seq<string>, k: nat): (r: seq<Piece>)
    requires i <= |s| && k <= |names|
    ensures forall j :: 0 <= j < |r| ==> i + r[j].len <= |s|
    decreases |names| - k
  {
    if k == |names| then []
    else
      var n := names[k];
      var here := if NameAt(s, i, n) then [Piece(|n|, MonthField, k + 1)] else [];
      here + NamePieces(s, i, names, k + 1)
  }

  /** Whitespace runs from i of every length, longest first (greedy `\s+`). */
  function SpacePieces(s: string, i: nat, e: nat): (r: seq<Piece>)
    requires i <= e <= |s|
    ensures forall j :: 0 <= j < |r| ==> i + r[j].len <= |s| && r[j].len > 0
    decreases e - i
  {
    if e == i then [] else [Piece(e - i, NoField, 0)] + SpacePieces(s, i, e - 1)
  }

  function SpaceEnd(s: string, i: nat): (r: nat)
    requires i <= |s|
    ensures i <= r <= |s|
    ensures forall k :: i <= k < r ==> IsSpace(s[k])
    decreases |s| - i
  {
    if i < |s| && IsSpace(s[i]) then SpaceEnd(s, i + 1) else i
  }

  /**
   * The alternatives of a directive that match at position i, in the order
   * CPython's _strptime regex tries them:
   *   %Y  \d\d\d\d
   *   %m  1[0-2] | 0[1-9] | [1-9]
   *   %d  3[01] | [12]\d | 0[1-9] | [1-9] | ' '[1-9]
   */
  function Alternatives(s: string, i: nat, d: Directive): (r: seq<Piece>)
    requires i <= |s|
    ensures forall j :: 0 <= j < |r| ==> i + r[j].len <= |s|
  {
    var has1 := i + 1 <= |s|;
    var has2 := i + 2 <= |s|;
    match d
    case Year4 =>
      if i + 4 <= |s| && AllDigits(s[i..i + 4]) then [Piece(4, YearField, DigitsValue(s[i..i + 4]))] else []
    case Month2 =>
      (if has2 && s[i] == '1' && DigitIn(s[i + 1], '0', '2') then [Piece(2, MonthField, 10 + DigitValue(s[i + 1]))] else [])
      + (if has2 && s[i] == '0' && DigitIn(s[i + 1], '1', '9') then [Piece(2, MonthField, DigitValue(s[i + 1]))] else [])
      + (if has1 && DigitIn(s[i], '1', '9') then [Piece(1, MonthField, DigitValue(s[i]))] else [])
    case Day2 =>
      (if has2 && s[i] == '3' && DigitIn(s[i + 1], '0', '1') then [Piece(2, DayField, 30 + DigitValue(s[i + 1]))] else [])
      + (if has2 && DigitIn(s[i], '1', '2') && IsDigit(s[i + 1]) then [Piece(2, DayField, 10 * DigitValue(s[i]) + DigitValue(s[i + 1]))] else [])
      + (if has2 && s[i] == '0' && DigitIn(s[i + 1], '1', '9') then [Piece(2, DayField, DigitValue(s[i + 1]))] else [])
      + (if has1 && DigitIn(s[i], '1', '9') then [Piece(1, DayField, DigitValue(s[i]))] else [])
      + (if has2 && s[i] == ' ' && DigitIn(s[i + 1], '1', '9') then [Piece(2, DayField, DigitValue(s[i + 1]))] else [])
    case MonthName => NamePieces(s, i, MonthNames, 0)
    case MonthAbbr => NamePieces(s, i, MonthAbbrs, 0)
    case Lit(c) => if has1 && LowerChar(s[i]) == LowerChar(c) then [Piece(1, NoField, 0)] else []
    case Spaces => SpacePieces(s, i, SpaceEnd(s, i))
  }

  /** The first match of the directives from position i, with backtracking, as re.match finds it. */
  function MatchFrom(s: string, i: nat, fmt: seq<Directive>, f: Fields): (r: Option<(Fields, nat)>)
    requires i <= |s|
    ensures r.Some? ==> i <= r.value.1 <= |s|
    decreases |fmt|
  {
    if fmt == [] then Some((f, i))
    else TryPieces(s, i, fmt, f, Alternatives(s, i, fmt[0]), 0)
  }

  function TryPieces(s: string, i: nat, fmt: seq<Directive>, f: Fields, alts: seq<Piece>, k: nat): (r: Option<(Fields, nat)>)
    requires i <= |s| && fmt != [] && k <= |alts|
    requires forall j :: 0 <= j < |alts| ==> i + alts[j].len <= |s|
    ensures r.Some? ==> i <= r.value.1 <= |s|
    decreases |fmt|, |alts| - k
  {
    if k == |alts| then None
    else
      var p := alts[k];
      var m := MatchFrom(s, i + p.len, fmt[1..], Apply(f, p));
      if m.Some? then m else TryPieces(s, i, fmt, f, alts, k + 1)
  }

  /**
   * datetime.strptime(s, fmt): the first regex match must consume all of s
   * ("unconverted data remains" otherwise) and the fields must form a valid date.
   */
  function Strptime(s: string, fmt: seq<Directive>): (r: Option<Date>)
    ensures r.Some? ==> Valid(r.value)
  {
    var m := MatchFrom(s, 0, fmt, Fields(1900, 1, 1));
    if m.None? || m.value.1 != |s| then None
    else
      var d := Date(m.value.0.year, m.value.0.month, m.value.0.day);
      if Valid(d) then Some(d) else None
  }

  // ---------------------------------------------------------------------------
  // strftime, and strptime reading back what it wrote
  // ---------------------------------------------------------------------------

  /** Which month a three-letter lower-case abbreviation names (0-11), or -1. */
  function AbbrIndex(a: string): int {
    if a == "jan" then 0 else if a == "feb" then 1 else if a == "mar" then 2 else if a == "apr" then 3
    else if a == "may" then 4 else if a == "jun" then 5 else if a == "jul" then 6 else if a == "aug" then 7
    else if a == "sep" then 8 else if a == "oct" then 9 else if a == "nov" then 10 else if a == "dec" then 11
    else -1
  }

  predicate AllLower(s: string) { forall c :: 0 <= c < |s| ==> IsLower(s[c]) }

  /** The month tables: lower-case names of three letters or more, abbreviated by their first three, told apart by those three. */
  lemma MonthTable(k: nat)
    requires k < 12
    ensures |MonthNames[k]| >= 3 && AllLower(MonthNames[k])
    ensures MonthAbbrs[k] == MonthNames[k][..3]
    ensures AbbrIndex(MonthNames[k][..3]) == k
  {
    if k < 3 {
      MonthTable0(k);
    } else if k < 6 {
      MonthTable1(k);
    } else if k < 9 {
      MonthTable2(k);
    } else {
      MonthTable3(k);
    }
  }

  lemma MonthTable0(k: nat)
    requires 0 <= k < 3
    ensures |MonthNames[k]| >= 3 && AllLower(MonthNames[k])
    ensures MonthAbbrs[k] == MonthNames[k][..3]
    ensures AbbrIndex(MonthNames[k][..3]) == k
  {
    if k == 0 {
      assert MonthNames[0] == "january" && MonthAbbrs[0] == "jan";
    } else if k == 1 {
      assert MonthNames[1] == "february" && MonthAbbrs[1] == "feb";
    } else {
      assert MonthNames[2] == "march" && MonthAbbrs[2] == "mar";
    }
  }

  lemma MonthTable1(k: nat)
    requires 3 <= k < 6
    ensures |MonthNames[k]| >= 3 && AllLower(MonthNames[k])
    ensures MonthAbbrs[k] == MonthNames[k][..3]
    ensures AbbrIndex(MonthNames[k][..3]) == k
  {
    if k == 3 {
      assert MonthNames[3] == "april" && MonthAbbrs[3] == "apr";
    } else if k == 4 {
      assert MonthNames[4] == "may" && MonthAbbrs[4] == "may";
    } else {
      assert MonthNames[5] == "june" && MonthAbbrs[5] == "jun";
    }
  }

  lemma MonthTable2(k: nat)
    requires 6 <= k < 9
    ensures |MonthNames[k]| >= 3 && AllLower(MonthNames[k])
    ensures MonthAbbrs[k] == MonthNames[k][..3]
    ensures AbbrIndex(MonthNames[k][..3]) == k
  {
    if k == 6 {
      assert MonthNames[6] == "july" && MonthAbbrs[6] == "jul";
    } else if k == 7 {
      assert MonthNames[7] == "august" && MonthAbbrs[7] == "aug";
    } else {
      assert MonthNames[8] == "september" && MonthAbbrs[8] == "sep";
    }
  }

  lemma MonthTable3(k: nat)
    requires 9 <= k < 12
    ensures |MonthNames[k]| >= 3 && AllLower(MonthNames[k])
    ensures MonthAbbrs[k] == MonthNames[k][..3]
    ensures AbbrIndex(MonthNames[k][..3]) == k
  {
    if k == 9 {
      assert MonthNames[9] == "october" && MonthAbbrs[9] == "oct";
    } else if k == 10 {
      assert MonthNames[10] == "november" && MonthAbbrs[10] == "nov";
    } else {
      assert MonthNames[11] == "december" && MonthAbbrs[11] == "dec";
    }
  }

  /** %B as the C locale writes it: the month's name with a capital first letter. */
  function MonthTitle(m: int): (r: string)
    requires 1 <= m <= 12
  {
    MonthTable(m - 1);
    [UpperChar(MonthNames[m - 1][0])] + MonthNames[m - 1][1..]
  }

  lemma MonthTitleFacts(m: int)
    requires 1 <= m <= 12
    ensures |MonthTitle(m)| >= 3 && IsUpper(MonthTitle(m)[0])
    ensures Lower(MonthTitle(m)) == MonthNames[m - 1]
    ensures Lower(MonthTitle(m)[..3]) == MonthAbbrs[m - 1]
  {
    MonthTable(m - 1);
    Capitalised(MonthNames[m - 1]);
  }

  /** Lower-casing a capitalised lower-case word gives the word back. */
  lemma Capitalised(n: string)
    requires |n| >= 3 && AllLower(n)
    ensures var t := [UpperChar(n[0])] + n[1..];
            IsUpper(t[0]) && Lower(t) == n && Lower(t[..3]) == n[..3]
  {
    var t := [UpperChar(n[0])] + n[1..];
    assert IsLower(n[0]);
    forall k | 0 <= k < |t| ensures Lower(t)[k] == n[k] {
      if k > 0 {
        assert t[k] == n[k] && IsLower(n[k]);
      }
    }
    assert Lower(t) == n;
    assert Lower(t[..3]) == Lower(t)[..3];
  }

  /** strftime of one directive; %B and %b are written as the C locale writes them. */
  function WrittenOne(d: Date, x: Directive): (r: string)
    requires Valid(d)
  {
    match x
    case Year4 => Pad(d.year, 4)
    case Month2 => Pad(d.month, 2)
    case Day2 => Pad(d.day, 2)
    case MonthName => MonthTitle(d.month)
    case MonthAbbr => MonthTitle(d.month)[..3]
    case Lit(c) => [c]
    case Spaces => " "
  }

  /** dt.strftime(fmt) for the directives strptime is given here. */
  function Written(d: Date, fmt: seq<Directive>): string
    requires Valid(d)
  {
    if fmt == [] then [] else WrittenOne(d, fmt[0]) + Written(d, fmt[1..])
  }

  function FieldOf(x: Directive): Field {
    match x
    case Year4 => YearField
    case Month2 => MonthField
    case Day2 => DayField
    case MonthName => MonthField
    case MonthAbbr => MonthField
    case Lit(_) => NoField
    case Spaces => NoField
  }

  /** The piece strptime matches for a directive in the text of d. */
  function PieceOf(d: Date, x: Directive): Piece
    requires Valid(d)
  {
    var v := match FieldOf(x)
      case YearField => d.year
      case MonthField => d.month
      case DayField => d.day
      case NoField => 0;
    Piece(|WrittenOne(d, x)|, FieldOf(x), v)
  }

  /** The fields after matching every directive of fmt against the text of d. */
  function FieldsAfter(f: Fields, d: Date, fmt: seq<Directive>): Fields
    requires Valid(d)
    decreases fmt
  {
    if fmt == [] then f else FieldsAfter(Apply(f, PieceOf(d, fmt[0])), d, fmt[1..])
  }

  /** Whether some directive of fmt sets the field. */
  predicate Sets(fmt: seq<Directive>, field: Field) {
    exists j :: 0 <= j < |fmt| && FieldOf(fmt[j]) == field
  }

  lemma SetsCons(fmt: seq<Directive>, field: Field)
    requires fmt != []
    ensures Sets(fmt, field) <==> FieldOf(fmt[0]) == field || Sets(fmt[1..], field)
  {
    if Sets(fmt, field) && FieldOf(fmt[0]) != field {
      var j :| 0 <= j < |fmt| && FieldOf(fmt[j]) == field;
      assert fmt[1..][j - 1] == fmt[j];
    }
    if Sets(fmt[1..], field) {
      var j :| 0 <= j < |fmt[1..]| && FieldOf(fmt[1..][j]) == field;
      assert fmt[j + 1] == fmt[1..][j];
    }
  }

  predicate SpaceLed(x: Directive) { x == Spaces || (x.Lit? && IsSpace(x.c)) }

  /** No whitespace directive is followed by more whitespace, so `\s+` takes exactly the space written. */
  predicate WellSpaced(fmt: seq<Directive>) {
    forall j :: 0 <= j < |fmt| - 1 && fmt[j] == Spaces ==> !SpaceLed(fmt[j + 1])
  }

  /** A format strftime and strptime agree on: well spaced, and setting year, month and day. */
  predicate Readable(fmt: seq<Directive>) {
    WellSpaced(fmt) && Sets(fmt, YearField) && Sets(fmt, MonthField) && Sets(fmt, DayField)
  }

  /** A well-spaced format with a year, a month and a day directive at the given places is readable. */
  lemma ReadableAt(fmt: seq<Directive>, y: nat, m: nat, d: nat)
    requires WellSpaced(fmt) && y < |fmt| && m < |fmt| && d < |fmt|
    requires FieldOf(fmt[y]) == YearField && FieldOf(fmt[m]) == MonthField && FieldOf(fmt[d]) == DayField
    ensures Readable(fmt)
  {
  }

  lemma {:induction false} FieldsAfterValue(f: Fields, d: Date, fmt: seq<Directive>)
    requires Valid(d)
    ensures FieldsAfter(f, d, fmt).year == if Sets(fmt, YearField) then d.year else f.year
    ensures FieldsAfter(f, d, fmt).month == if Sets(fmt, MonthField) then d.month else f.month
    ensures FieldsAfter(f, d, fmt).day == if Sets(fmt, DayField) then d.day else f.day
    decreases |fmt|
  {
    if fmt != [] {
      FieldsAfterValue(Apply(f, PieceOf(d, fmt[0])), d, fmt[1..]);
      SetsCons(fmt, YearField);
      SetsCons(fmt, MonthField);
      SetsCons(fmt, DayField);
    }
  }

  /** int() of a two-digit text. */
  lemma TwoDigitsValue(x: string)
    requires |x| == 2 && AllDigits(x)
    ensures DigitsValue(x) == 10 * DigitValue(x[0]) + DigitValue(x[1])
  {
    var h := x[..1];
    assert h[..0] == [] && h[0] == x[0];
    assert DigitsValue(h) == DigitValue(x[0]);
  }

  /** A two-digit month 01-12 is matched first by its two-character alternative. */
  lemma Month2First(s: string, i: nat)
    requires i + 2 <= |s| && AllDigits(s[i..i + 2]) && 1 <= DigitsValue(s[i..i + 2]) <= 12
    ensures var alts := Alternatives(s, i, Month2);
            alts != [] && alts[0] == Piece(2, MonthField, DigitsValue(s[i..i + 2]))
  {
    TwoDigitsValue(s[i..i + 2]);
    assert s[i..i + 2][0] == s[i] && s[i..i + 2][1] == s[i + 1];
  }

  /** A two-digit day 01-31 is matched first by its two-character alternative. */
  lemma Day2First(s: string, i: nat)
    requires i + 2 <= |s| && AllDigits(s[i..i + 2]) && 1 <= DigitsValue(s[i..i + 2]) <= 31
    ensures var alts := Alternatives(s, i, Day2);
            alts != [] && alts[0] == Piece(2, DayField, DigitsValue(s[i..i + 2]))
  {
    TwoDigitsValue(s[i..i + 2]);
    assert s[i..i + 2][0] == s[i] && s[i..i + 2][1] == s[i + 1];
  }

  /** The piece for the t-th name comes first when no earlier name matches. */
  lemma {:induction false} NamePiecesAt(s: string, i: nat, names: seq<string>, t: nat, k: nat)
    requires i <= |s| && k <= t < |names|
    requires NameAt(s, i, names[t])
    requires forall j :: k <= j < t ==> !NameAt(s, i, names[j])
    ensures NamePieces(s, i, names, k) != [] && NamePieces(s, i, names, k)[0] == Piece(|names[t]|, MonthField, t + 1)
    decreases t - k
  {
    var rest := NamePieces(s, i, names, k + 1);
    assert NamePieces(s, i, names, k) == (if NameAt(s, i, names[k]) then [Piece(|names[k]|, MonthField, k + 1)] else []) + rest;
    if k < t {
      NamePiecesAt(s, i, names, t, k + 1);
    }
  }

  /** A name table's t-th entry matched at i comes first when every earlier entry differs in its first three letters. */
  lemma {:induction false} NameFirstIn(s: string, i: nat, names: seq<string>, w: string, t: nat)
    requires i + |w| <= |s| && s[i..i + |w|] == w && |w| >= 3
    requires t < |names| && Lower(w) == names[t]
    requires forall j :: 0 <= j < t ==> |names[j]| >= 3 && names[j][..3] != Lower(w)[..3]
    ensures NamePieces(s, i, names, 0) != [] && NamePieces(s, i, names, 0)[0] == Piece(|w|, MonthField, t + 1)
  {
    forall j | 0 <= j < t
      ensures !NameAt(s, i, names[j])
    {
      if i + |names[j]| <= |s| {
        var u := Lower(s[i..i + |names[j]|]);
        assert u[..3] == Lower(w)[..3];
      }
    }
    NamePiecesAt(s, i, names, t, 0);
  }

  /** Earlier months differ from month m in their first three letters. */
  lemma EarlierMonthsDiffer(m: int, full: bool)
    requires 1 <= m <= 12
    ensures var names := if full then MonthNames else MonthAbbrs;
            forall j :: 0 <= j < m - 1 ==> |names[j]| >= 3 && names[j][..3] != MonthAbbrs[m - 1]
  {
    var names := if full then MonthNames else MonthAbbrs;
    forall j | 0 <= j < m - 1
      ensures |names[j]| >= 3 && names[j][..3] != MonthAbbrs[m - 1]
    {
      MonthTable(j);
      MonthTable(m - 1);
      assert names[j][..3] == MonthAbbrs[j];
      assert AbbrIndex(MonthAbbrs[j]) != AbbrIndex(MonthAbbrs[m - 1]);
    }
  }

  /** A written month name is matched by that month's %B alternative first. */
  lemma NameFirst(s: string, i: nat, m: int)
    requires 1 <= m <= 12 && i + |MonthTitle(m)| <= |s| && s[i..i + |MonthTitle(m)|] == MonthTitle(m)
    ensures NamePieces(s, i, MonthNames, 0) != []
    ensures NamePieces(s, i, MonthNames, 0)[0] == Piece(|MonthTitle(m)|, MonthField, m)
  {
    MonthTitleFacts(m);
    EarlierMonthsDiffer(m, true);
    assert Lower(MonthTitle(m))[..3] == MonthAbbrs[m - 1];
    NameFirstIn(s, i, MonthNames, MonthTitle(m), m - 1);
  }

  /** A written month abbreviation is matched by that month's %b alternative first. */
  lemma AbbrFirst(s: string, i: nat, m: int)
    requires 1 <= m <= 12 && |MonthTitle(m)| >= 3 && i + 3 <= |s| && s[i..i + 3] == MonthTitle(m)[..3]
    ensures NamePieces(s, i, MonthAbbrs, 0) != []
    ensures NamePieces(s, i, MonthAbbrs, 0)[0] == Piece(3, MonthField, m)
  {
    MonthTitleFacts(m);
    EarlierMonthsDiffer(m, false);
    var w := MonthTitle(m)[..3];
    assert Lower(w)[..3] == Lower(w);
    NameFirstIn(s, i, MonthAbbrs, w, m - 1);
  }

  /** What a directive writes never starts with whitespace unless the directive is whitespace. */
  lemma LeadNotSpace(d: Date, x: Directive)
    requires Valid(d) && !SpaceLed(x)
    ensures WrittenOne(d, x) != [] && !IsSpace(WrittenOne(d, x)[0])
  {
    if x.MonthName? || x.MonthAbbr? {
      MonthTitleFacts(d.month);
    }
  }

  /** Pad(n, w) for n below 10^w is w digits long and reads back as n. */
  lemma PadExact(n: nat, w: nat)
    requires w == 2 || w == 4
    requires n < if w == 2 then 100 else 10000
    ensures |Pad(n, w)| == w && DigitsValue(Pad(n, w)) == n
  {
    NatToStringShort(n);
    PadValue(n, w);
  }

  /** On the text of d, %Y, %m and %d first match the number written. */
  lemma NumberFirst(s: string, i: nat, d: Date, x: Directive)
    requires Valid(d) && (x == Year4 || x == Month2 || x == Day2)
    requires i + |WrittenOne(d, x)| <= |s| && s[i..i + |WrittenOne(d, x)|] == WrittenOne(d, x)
    ensures Alternatives(s, i, x) != [] && Alternatives(s, i, x)[0] == PieceOf(d, x)
  {
    if x == Year4 {
      PadExact(d.year, 4);
      assert PieceOf(d, x) == Piece(4, YearField, d.year);
    } else if x == Month2 {
      PadExact(d.month, 2);
      Month2First(s, i);
      assert PieceOf(d, x) == Piece(2, MonthField, d.month);
    } else {
      PadExact(d.day, 2);
      Day2First(s, i);
      assert PieceOf(d, x) == Piece(2, DayField, d.day);
    }
  }

  /** On the text of d, %B and %b first match the month written. */
  lemma MonthWordFirst(s: string, i: nat, d: Date, x: Directive)
    requires Valid(d) && (x == MonthName || x == MonthAbbr)
    requires i + |WrittenOne(d, x)| <= |s| && s[i..i + |WrittenOne(d, x)|] == WrittenOne(d, x)
    ensures Alternatives(s, i, x) != [] && Alternatives(s, i, x)[0] == PieceOf(d, x)
  {
    MonthTitleFacts(d.month);
    if x == MonthName {
      NameFirst(s, i, d.month);
      assert PieceOf(d, x) == Piece(|MonthTitle(d.month)|, MonthField, d.month);
    } else {
      AbbrFirst(s, i, d.month);
      assert PieceOf(d, x) == Piece(3, MonthField, d.month);
    }
  }

  /** On the text of d, a whitespace directive first matches the single space written. */
  lemma SpacesFirst(s: string, i: nat, d: Date, rest: seq<Directive>)
    requires Valid(d) && i <= |s| && s[i..] == " " + Written(d, rest)
    requires rest != [] ==> !SpaceLed(rest[0])
    ensures Alternatives(s, i, Spaces) != [] && Alternatives(s, i, Spaces)[0] == Piece(1, NoField, 0)
  {
    assert IsSpace(s[i]);
    if rest != [] {
      LeadNotSpace(d, rest[0]);
      assert s[i + 1] == WrittenOne(d, rest[0])[0];
    }
    assert SpaceEnd(s, i + 1) == i + 1;
    assert SpaceEnd(s, i) == i + 1;
  }

  /** On the text of d, the first alternative of each directive is the piece that directive wrote. */
  lemma FirstAlternative(s: string, i: nat, d: Date, x: Directive, rest: seq<Directive>)
    requires Valid(d) && i <= |s| && s[i..] == WrittenOne(d, x) + Written(d, rest)
    requires x == Spaces && rest != [] ==> !SpaceLed(rest[0])
    ensures Alternatives(s, i, x) != [] && Alternatives(s, i, x)[0] == PieceOf(d, x)
  {
    var w := WrittenOne(d, x);
    assert s[i..i + |w|] == w;
    if x == Year4 || x == Month2 || x == Day2 {
      NumberFirst(s, i, d, x);
    } else if x == MonthName || x == MonthAbbr {
      MonthWordFirst(s, i, d, x);
    } else if x == Spaces {
      SpacesFirst(s, i, d, rest);
    } else {
      assert s[i] == x.c;
    }
  }

  /** Matching fmt against the text of d consumes all of it and collects d's fields. */
  lemma {:induction false} MatchWritten(s: string, i: nat, d: Date, fmt: seq<Directive>, f: Fields)
    requires Valid(d) && WellSpaced(fmt) && i <= |s| && s[i..] == Written(d, fmt)
    ensures MatchFrom(s, i, fmt, f) == Some((FieldsAfter(f, d, fmt), |s|))
    decreases |fmt|
  {
    if fmt != [] {
      var w := WrittenOne(d, fmt[0]);
      var p := PieceOf(d, fmt[0]);
      var j := i + |w|;
      assert s[i..] == w + Written(d, fmt[1..]);
      assert s[j..] == Written(d, fmt[1..]);
      assert p.len == |w|;
      assert WellSpaced(fmt[1..]) by {
        forall k | 0 <= k < |fmt[1..]| - 1 && fmt[1..][k] == Spaces ensures !SpaceLed(fmt[1..][k + 1]) {
          assert fmt[k + 1] == Spaces && fmt[1..][k + 1] == fmt[k + 2];
        }
      }
      FirstAlternative(s, i, d, fmt[0], fmt[1..]);
      MatchWritten(s, j, d, fmt[1..], Apply(f, p));
      MatchStep(s, i, j, fmt, f, p);
      assert FieldsAfter(f, d, fmt) == FieldsAfter(Apply(f, p), d, fmt[1..]);
    }
  }

  /** When the first alternative leads to a match, that match is the result. */
  lemma {:induction false} MatchStep(s: string, i: nat, j: nat, fmt: seq<Directive>, f: Fields, p: Piece)
    requires i + p.len == j <= |s| && fmt != []
    requires Alternatives(s, i, fmt[0]) != [] && Alternatives(s, i, fmt[0])[0] == p
    requires MatchFrom(s, j, fmt[1..], Apply(f, p)).Some?
    ensures MatchFrom(s, i, fmt, f) == MatchFrom(s, j, fmt[1..], Apply(f, p))
  {
    var alts := Alternatives(s, i, fmt[0]);
    assert MatchFrom(s, i, fmt, f) == TryPieces(s, i, fmt, f, alts, 0);
    TryFirst(s, i, j, fmt, f, alts, p);
  }

  /** TryPieces settles on the first alternative when it leads to a match. */
  lemma {:induction false} TryFirst(s: string, i: nat, j: nat, fmt: seq<Directive>, f: Fields, alts: seq<Piece>, p: Piece)
    requires i + p.len == j <= |s| && fmt != [] && alts != [] && alts[0] == p
    requires forall k :: 0 <= k < |alts| ==> i + alts[k].len <= |s|
    requires MatchFrom(s, j, fmt[1..], Apply(f, p)).Some?
    ensures TryPieces(s, i, fmt, f, alts, 0) == MatchFrom(s, j, fmt[1..], Apply(f, p))
  {
  }

  /** strptime reads back what strftime wrote, for every valid date and readable format. */
  lemma StrptimeRoundTrip(d: Date, fmt: seq<Directive>)
    requires Valid(d) && Readable(fmt)
    ensures Strptime(Written(d, fmt), fmt) == Some(d)
  {
    var s := Written(d, fmt);
    var f0 := Fields(1900, 1, 1);
    MatchWritten(s, 0, d, fmt, f0);
    FieldsAfterValue(f0, d, fmt);
  }

  // ---------------------------------------------------------------------------
  // The two date regexes searched for in free text
  // ---------------------------------------------------------------------------

  /** The three groups of a date regex match, as text. */
  datatype Groups = Groups(g1: string, g2: string, g3: string)

  predicate IsSep(c: char, seps: string) { c in seps }

  /** `\d{1,2}` at q, greedy: two digits when there are two. */
  function OneOrTwo(s: string, q: nat): (r: string)
    requires q < |s| && IsDigit(s[q])
    ensures 1 <= |r| <= 2 && AllDigits(r)
  {
    if q + 1 < |s| && IsDigit(s[q + 1]) then s[q..q + 2] else s[q..q + 1]
  }

  /** `(\d{4})[sep1](\d{1,2})[sep2](\d{1,2})` matched at position i. */
  function YmdAt(s: string, i: nat, sep1: string, sep2: string): (r: Option<Groups>)
    ensures r.Some? ==> |r.value.g1| == 4 && AllDigits(r.value.g1)
    ensures r.Some? ==> 1 <= |r.value.g2| <= 2 && AllDigits(r.value.g2)
    ensures r.Some? ==> 1 <= |r.value.g3| <= 2 && AllDigits(r.value.g3)
  {
    if !(i + 5 <= |s| && AllDigits(s[i..i + 4]) && IsSep(s[i + 4], sep1)) then None
    else
      var p := i + 5;
      if p + 3 < |s| && IsDigit(s[p]) && IsDigit(s[p + 1]) && IsSep(s[p + 2], sep2) && IsDigit(s[p + 3]) then
        Some(Groups(s[i..i + 4], s[p..p + 2], OneOrTwo(s, p + 3)))
      else if p + 2 < |s| && IsDigit(s[p]) && IsSep(s[p + 1], sep2) && IsDigit(s[p + 2]) then
        Some(Groups(s[i..i + 4], s[p..p + 1], OneOrTwo(s, p + 2)))
      else None
  }

  /** `(\d{1,2})[seps](\d{1,2})[seps](\d{4})` at i with group lengths a and b. */
  function MdyWith(s: string, i: nat, a: nat, b: nat, seps: string): (r: Option<Groups>)
    requires 1 <= a <= 2 && 1 <= b <= 2
    ensures r.Some? ==> |r.value.g1| == a && AllDigits(r.value.g1)
    ensures r.Some? ==> |r.value.g2| == b && AllDigits(r.value.g2)
    ensures r.Some? ==> |r.value.g3| == 4 && AllDigits(r.value.g3)
  {
    var p := i + a;
    var q := p + 1 + b;
    if q + 5 <= |s| && AllDigits(s[i..p]) && IsSep(s[p], seps) && AllDigits(s[p + 1..q])
       && IsSep(s[q], seps) && AllDigits(s[q + 1..q + 5])
    then Some(Groups(s[i..p], s[p + 1..q], s[q + 1..q + 5]))
    else None
  }

  /** `(\d{1,2})[seps](\d{1,2})[seps](\d{4})` at i: greedy groups, backtracking in regex order. */
  function MdyAt(s: string, i: nat, seps: string): (r: Option<Groups>)
    ensures r.Some? ==> 1 <= |r.value.g1| <= 2 && AllDigits(r.value.g1)
    ensures r.Some? ==> 1 <= |r.value.g2| <= 2 && AllDigits(r.value.g2)
    ensures r.Some? ==> |r.value.g3| == 4 && AllDigits(r.value.g3)
  {
    var m22 := MdyWith(s, i, 2, 2, seps);
    if m22.Some? then m22 else
    var m21 := MdyWith(s, i, 2, 1, seps);
    if m21.Some? then m21 else
    var m12 := MdyWith(s, i, 1, 2, seps);
    if m12.Some? then m12 else
    MdyWith(s, i, 1, 1, seps)
  }

  /** re.search of the year-first pattern: the match at the leftmost position where one exists. */
  function YmdSearch(s: string, i: nat, sep1: string, sep2: string): (r: Option<Groups>)
    requires i <= |s|
    ensures r.Some? ==> exists k :: i <= k <= |s| && YmdAt(s, k, sep1, sep2) == r &&
                          (forall j :: i <= j < k ==> YmdAt(s, j, sep1, sep2).None?)
    ensures r.None? ==> forall k :: i <= k <= |s| ==> YmdAt(s, k, sep1, sep2).None?
    decreases |s| - i
  {
    var m := YmdAt(s, i, sep1, sep2);
    if m.Some? then m
    else if i == |s| then None
    else
      var r := YmdSearch(s, i + 1, sep1, sep2);
      assert r.Some? ==> exists k :: i <= k <= |s| && YmdAt(s, k, sep1, sep2) == r &&
                                     (forall j :: i <= j < k ==> YmdAt(s, j, sep1, sep2).None?) by {
        if r.Some? {
          var k :| i + 1 <= k <= |s| && YmdAt(s, k, sep1, sep2) == r &&
                   (forall j :: i + 1 <= j < k ==> YmdAt(s, j, sep1, sep2).None?);
          assert forall j :: i <= j < k ==> YmdAt(s, j, sep1, sep2).None?;
        }
      }
      r
  }

  /** re.search of the year-last pattern. */
  function MdySearch(s: string, i: nat, seps: string): (r: Option<Groups>)
    requires i <= |s|
    ensures r.Some? ==> exists k :: i <= k <= |s| && MdyAt(s, k, seps) == r &&
                          (forall j :: i <= j < k ==> MdyAt(s, j, seps).None?)
    ensures r.None? ==> forall k :: i <= k <= |s| ==> MdyAt(s, k, seps).None?
    decreases |s| - i
  {
    var m := MdyAt(s, i, seps);
    if m.Some? then m
    else if i == |s| then None
    else
      var r := MdySearch(s, i + 1, seps);
      assert r.Some? ==> exists k :: i <= k <= |s| && MdyAt(s, k, seps) == r &&
                                     (forall j :: i <= j < k ==> MdyAt(s, j, seps).None?) by {
        if r.Some? {
          var k :| i + 1 <= k <= |s| && MdyAt(s, k, seps) == r &&
                   (forall j :: i + 1 <= j < k ==> MdyAt(s, j, seps).None?);
          assert forall j :: i <= j < k ==> MdyAt(s, j, seps).None?;
        }
      }
      r
  }
}
