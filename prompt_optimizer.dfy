/**
 * The prompt optimiser (prompt_optimizer.py): each prompt strategy is
 * scored by asking the language model for one field of every labelled
 * sample and counting how many answers match the sample's ground truth.
 *
 * The model's reply to sample i is the oracle `replies[i]` (None when the
 * call raised); fuzz.ratio is the oracle `similarity`. Building the
 * prompts, loading the dataset and printing the ranking are outside the
 * model.
 */
module PromptOptimizer {
  import opened Text
  import opened Json
  import opened Calendar
  import Evaluator

  // ---------------------------------------------------------------------------
  // _call_ai: cleaning the reply
  // ---------------------------------------------------------------------------

  /** The prefixes `^(Answer:|Result:|Output:)` recognises, in lower case (the match ignores case). */
  const AnswerPrefixes: seq<string> := ["answer:", "result:", "output:"]

  predicate HasAnswerPrefix(s: string) {
    |s| >= 7 && Lower(s[..7]) in AnswerPrefixes
  }

  /** Where the text after `^(Answer:|Result:|Output:)\s*` starts: past the prefix and its spaces, or 0. */
  function PrefixEnd(s: string): (r: nat)
    ensures r <= |s|
    ensures r == 0 <==> !HasAnswerPrefix(s)
    ensures r < |s| ==> !HasAnswerPrefix(s) || !IsSpace(s[r])
  {
    if HasAnswerPrefix(s) then SkipLeft(s, 7, IsSpace) else 0
  }

  /**
   * The reply after _call_ai's clean-up: surrounding whitespace stripped,
   * one leading "Answer:", "Result:" or "Output:" label and the spaces
   * after it dropped, surrounding quotes stripped; None when nothing is left.
   */
  function CleanAnswer(content: string): (r: Option<string>)
    ensures r.Some? ==> r.value != [] && !IsQuote(r.value[0]) && !IsQuote(r.value[|r.value| - 1])
    ensures r.Some? ==> |r.value| <= |content|
  {
    var t := Strip(content);
    var v := StripBy(t[PrefixEnd(t)..], IsQuote);
    if v == [] then None else Some(v)
  }

  /** What _call_ai returns for a reply, or None when the call raised. */
  function CallAi(reply: Option<string>): (r: Option<string>)
    ensures reply.None? ==> r.None?
    ensures r.Some? ==> r.value != []
  {
    if reply.None? then None else CleanAnswer(reply.value)
  }

  /** A reply that is already a bare value (no label, quotes or surrounding spaces) is returned as it is. */
  lemma CleanAnswerKeepsBareValue(s: string)
    requires s != [] && !IsSpace(s[0]) && !IsSpace(s[|s| - 1])
    requires !HasAnswerPrefix(s) && !IsQuote(s[0]) && !IsQuote(s[|s| - 1])
    ensures CleanAnswer(s) == Some(s)
  {
    StripUnspaced(s);
    assert s[0..] == s;
    assert SkipLeft(s, 0, IsQuote) == 0;
    assert SkipRight(s, |s|, IsQuote) == |s|;
    assert s[0..|s|] == s;
  }

  /** A label such as "Answer:" or "RESULT:" and the spaces after it are dropped from a reply. */
  lemma CleanAnswerDropsLabel(p: string, spaces: string, s: string)
    requires |p| == 7 && Lower(p) in AnswerPrefixes
    requires forall k :: 0 <= k < |spaces| ==> IsSpace(spaces[k])
    requires s != [] && !IsSpace(s[0]) && !IsSpace(s[|s| - 1]) && !HasAnswerPrefix(s)
    ensures CleanAnswer(p + spaces + s) == CleanAnswer(s)
  {
    var t := p + spaces + s;
    assert t[0] == p[0];
    assert !IsSpace(p[0]) by {
      assert Lower(p)[0] == LowerChar(p[0]);
      assert Lower(p)[0] in {'a', 'r', 'o'};
    }
    assert t[|t| - 1] == s[|s| - 1];
    StripUnspaced(t);
    StripUnspaced(s);
    assert t[..7] == p;
    assert forall k :: 7 <= k < 7 + |spaces| ==> t[k] == spaces[k - 7];
    assert t[7 + |spaces|] == s[0];
    var e := SkipLeft(t, 7, IsSpace);
    assert e == 7 + |spaces|;
    assert t[e..] == s;
    assert s[0..] == s;
  }

  /** A reply that is blank, or only quotes, counts as no answer. */
  lemma CleanAnswerBlank(s: string)
    requires forall k :: 0 <= k < |s| ==> IsSpace(s[k])
    ensures CleanAnswer(s) == None
  {
    StripEmpty(s);
  }

  // ---------------------------------------------------------------------------
  // _parse_date
  // ---------------------------------------------------------------------------

  /** The text `$` lets a pattern end before: s without one final newline. */
  function Chomp(s: string): (r: string)
    ensures |r| <= |s| && r == s[..|r|]
  {
    if s != [] && s[|s| - 1] == '\n' then s[..|s| - 1] else s
  }

  /** `^(\d{a})/(\d{b})/(\d{c})$` on the whole of t, as three groups. */
  function SlashGroups(t: string, a: nat, b: nat, c: nat): (r: Option<Groups>)
    ensures r.Some? ==> |r.value.g1| == a && |r.value.g2| == b && |r.value.g3| == c
    ensures r.Some? ==> AllDigits(r.value.g1) && AllDigits(r.value.g2) && AllDigits(r.value.g3)
    ensures r.Some? ==> t == r.value.g1 + "/" + r.value.g2 + "/" + r.value.g3
  {
    if |t| == a + b + c + 2 && AllDigits(t[..a]) && t[a] == '/' && AllDigits(t[a + 1..a + 1 + b])
       && t[a + 1 + b] == '/' && AllDigits(t[a + b + 2..])
    then
      var g := Groups(t[..a], t[a + 1..a + 1 + b], t[a + b + 2..]);
      assert t == g.g1 + "/" + g.g2 + "/" + g.g3;
      Some(g)
    else None
  }

  /** `^(\d{1,2})/(\d{1,2})/(\d{4})$`: the greedy groups, backtracking in regex order. */
  function YearLast(t: string): (r: Option<Groups>)
    ensures r.Some? ==> 1 <= |r.value.g1| <= 2 && 1 <= |r.value.g2| <= 2 && |r.value.g3| == 4
    ensures r.Some? ==> AllDigits(r.value.g1) && AllDigits(r.value.g2) && AllDigits(r.value.g3)
  {
    var m22 := SlashGroups(t, 2, 2, 4);
    if m22.Some? then m22 else
    var m21 := SlashGroups(t, 2, 1, 4);
    if m21.Some? then m21 else
    var m12 := SlashGroups(t, 1, 2, 4);
    if m12.Some? then m12 else
    SlashGroups(t, 1, 1, 4)
  }

  /** `^(\d{4})/(\d{1,2})/(\d{1,2})$` */
  function YearFirst(t: string): (r: Option<Groups>)
    ensures r.Some? ==> |r.value.g1| == 4 && 1 <= |r.value.g2| <= 2 && 1 <= |r.value.g3| <= 2
    ensures r.Some? ==> AllDigits(r.value.g1) && AllDigits(r.value.g2) && AllDigits(r.value.g3)
  {
    var m22 := SlashGroups(t, 4, 2, 2);
    if m22.Some? then m22 else
    var m21 := SlashGroups(t, 4, 2, 1);
    if m21.Some? then m21 else
    var m12 := SlashGroups(t, 4, 1, 2);
    if m12.Some? then m12 else
    SlashGroups(t, 4, 1, 1)
  }

  /**
   * _parse_date: "" gives None; a YYYY-MM-DD text is returned as it is;
   * a whole-text a/b/yyyy is read day first; a whole-text yyyy/m/d year,
   * month, day; anything else None. The month-first branch that follows
   * the day-first one has the same pattern and is never reached.
   */
  function ParseDate(s: string): (r: Option<string>)
    ensures s == [] ==> r.None?
    ensures s != [] && IsoShape(s) ==> r == Some(s)
    ensures r.Some? ==> IsoShape(r.value)
  {
    if s == [] then None
    else if IsoShape(s) then Some(s)
    else
      var t := Chomp(s);
      var dmy := YearLast(t);
      if dmy.Some? then
        var g := dmy.value;
        DashedShape(g.g3, TwoDigits(g.g2), TwoDigits(g.g1));
        Some(g.g3 + "-" + TwoDigits(g.g2) + "-" + TwoDigits(g.g1))
      else
        var ymd := YearFirst(t);
        if ymd.Some? then
          var g := ymd.value;
          DashedShape(g.g1, TwoDigits(g.g2), TwoDigits(g.g3));
          Some(g.g1 + "-" + TwoDigits(g.g2) + "-" + TwoDigits(g.g3))
        else None
  }

  /** A parsed date parses to itself. */
  lemma ParseDateIdempotent(s: string)
    requires ParseDate(s).Some?
    ensures ParseDate(ParseDate(s).value) == ParseDate(s)
  {
  }

  /** Whichever way a/b/yyyy is split, the groups are the ones it was written with. */
  lemma YearLastGroups(d: string, m: string, y: string)
    requires 1 <= |d| <= 2 && AllDigits(d) && 1 <= |m| <= 2 && AllDigits(m) && |y| == 4 && AllDigits(y)
    ensures YearLast(d + "/" + m + "/" + y) == Some(Groups(d, m, y))
  {
    var t := d + "/" + m + "/" + y;
    assert t[|d|] == '/' && t[|d| + 1 + |m|] == '/';
    assert t[..|d|] == d && t[|d| + 1..|d| + 1 + |m|] == m && t[|d| + |m| + 2..] == y;
    if |d| == 1 {
      assert !IsDigit(t[1]);
    }
    if |m| == 1 {
      assert !IsDigit(t[|d| + 1 + 1]);
    }
  }

  /**
   * A slash date with the year last is always read as day/month/year:
   * "03/04/1990" is 3 April 1990, never 4 March.
   */
  lemma SlashDateDayFirst(d: string, m: string, y: string)
    requires 1 <= |d| <= 2 && AllDigits(d) && 1 <= |m| <= 2 && AllDigits(m) && |y| == 4 && AllDigits(y)
    ensures ParseDate(d + "/" + m + "/" + y) == Some(y + "-" + TwoDigits(m) + "-" + TwoDigits(d))
  {
    var t := d + "/" + m + "/" + y;
    assert t[|d|] == '/';
    assert !IsoShape(t) by {
      if |t| == 10 {
        assert t[2] == '/';
        assert t[0..4][2] == t[2];
      }
    }
    assert t[|t| - 1] == y[3];
    YearLastGroups(d, m, y);
  }

  /** Whichever way yyyy/m/d is split, the groups are the ones it was written with. */
  lemma YearFirstGroups(y: string, m: string, d: string)
    requires |y| == 4 && AllDigits(y) && 1 <= |m| <= 2 && AllDigits(m) && 1 <= |d| <= 2 && AllDigits(d)
    ensures YearFirst(y + "/" + m + "/" + d) == Some(Groups(y, m, d))
  {
    var t := y + "/" + m + "/" + d;
    assert t[4] == '/' && t[5 + |m|] == '/';
    assert t[..4] == y && t[5..5 + |m|] == m && t[|m| + 6..] == d;
    if |m| == 1 {
      assert !IsDigit(t[6]);
    }
  }

  /** A slash date with the year first is read as year/month/day, each part padded to two digits. */
  lemma SlashDateYearFirst(y: string, m: string, d: string)
    requires |y| == 4 && AllDigits(y) && 1 <= |m| <= 2 && AllDigits(m) && 1 <= |d| <= 2 && AllDigits(d)
    ensures ParseDate(y + "/" + m + "/" + d) == Some(y + "-" + TwoDigits(m) + "-" + TwoDigits(d))
  {
    var t := y + "/" + m + "/" + d;
    assert t[1] == y[1] && t[2] == y[2] && t[4] == '/';
    assert !IsoShape(t) by {
      if |t| == 10 {
        assert t[0..5][4] == t[4];
      }
    }
    assert t[|t| - 1] == d[|d| - 1];
    assert YearLast(t).None?;
    YearFirstGroups(y, m, d);
  }

  // ---------------------------------------------------------------------------
  // _is_match
  // ---------------------------------------------------------------------------

  /** The phone test as written: equal digit strings, or either inside the other, which an empty one always is. */
  predicate PhoneDigitsMatchAsWritten(ex: string, gt: string) {
    var a := Digits(ex);
    var b := Digits(gt);
    a == b || Contains(b, a) || Contains(a, b)
  }

  /** The phone test as intended: both sides have digits, and one digit string holds the other. */
  predicate PhoneDigitsMatch(ex: string, gt: string) {
    var a := Digits(ex);
    var b := Digits(gt);
    a != [] && b != [] && (a == b || Contains(b, a) || Contains(a, b))
  }

  /** _is_match with the phone test passed in. */
  function MatchWith(field: string, extracted: Option<string>, gt: string, similarity: (string, string) -> int,
                     phone: (string, string) -> bool): (r: bool)
    ensures extracted.None? || extracted.value == [] || gt == [] ==> !r
    ensures field !in Evaluator.EvalFields ==> !r
  {
    if extracted.None? || extracted.value == [] || gt == [] then false
    else
      var ex := extracted.value;
      if field == "phone" then phone(ex, gt)
      else if field == "email" then Strip(Lower(ex)) == Strip(Lower(gt))
      else if field == "name" then similarity(Lower(ex), Lower(gt)) >= 85
      else if field == "date_of_birth" then
        var a := ParseDate(ex);
        var b := ParseDate(gt);
        a.Some? && b.Some? && a == b
      else false
  }

  /** _is_match as written. */
  function IsMatchAsWritten(field: string, extracted: Option<string>, gt: string, similarity: (string, string) -> int): (r: bool)
    ensures extracted.None? || extracted.value == [] || gt == [] ==> !r
  {
    MatchWith(field, extracted, gt, similarity, PhoneDigitsMatchAsWritten)
  }

  /** As written, a phone answer without any digit ("N/A", "unknown") matches every phone number. */
  lemma NoDigitsMatchAsWritten(ex: string, gt: string, similarity: (string, string) -> int)
    requires ex != [] && gt != [] && Digits(ex) == []
    ensures IsMatchAsWritten("phone", Some(ex), gt, similarity)
  {
    assert OccursAt(Digits(gt), [], 0);
    ContainsAt(Digits(gt), [], 0);
  }

  /** _is_match with the phone test corrected to need digits on both sides. */
  function IsMatch(field: string, extracted: Option<string>, gt: string, similarity: (string, string) -> int): (r: bool)
    ensures extracted.None? || extracted.value == [] || gt == [] ==> !r
    ensures field !in Evaluator.EvalFields ==> !r
    ensures field == "phone" && r ==> Digits(extracted.value) != [] && Digits(gt) != []
    ensures field == "date_of_birth" && r ==> ParseDate(extracted.value) == ParseDate(gt) != None
  {
    MatchWith(field, extracted, gt, similarity, PhoneDigitsMatch)
  }

  /** Phone numbers match exactly when both have digits and one digit string holds the other, formatting aside. */
  lemma PhoneMatchDigits(ex: string, gt: string, similarity: (string, string) -> int)
    requires ex != [] && gt != []
    ensures IsMatch("phone", Some(ex), gt, similarity) <==>
            Digits(ex) != [] && Digits(gt) != [] && (Contains(Digits(gt), Digits(ex)) || Contains(Digits(ex), Digits(gt)))
  {
    if Digits(ex) == Digits(gt) {
      assert OccursAt(Digits(gt), Digits(ex), 0);
      ContainsAt(Digits(gt), Digits(ex), 0);
    }
  }

  /** Phone, e-mail and date matching do not depend on which side is the extraction. */
  lemma MatchSymmetric(field: string, a: string, b: string, similarity: (string, string) -> int)
    requires field != "name"
    ensures IsMatch(field, Some(a), b, similarity) == IsMatch(field, Some(b), a, similarity)
  {
  }

  /** E-mail addresses match ignoring case and surrounding whitespace. */
  lemma EmailMatchIgnoresCase(a: string, b: string, similarity: (string, string) -> int)
    requires a != [] && b != [] && Lower(a) == Lower(b)
    ensures IsMatch("email", Some(a), b, similarity)
  {
  }

  /** Two spellings of one date match: a day-first slash date and its YYYY-MM-DD form. */
  lemma SlashAndIsoDatesMatch(d: string, m: string, y: string, similarity: (string, string) -> int)
    requires 1 <= |d| <= 2 && AllDigits(d) && 1 <= |m| <= 2 && AllDigits(m) && |y| == 4 && AllDigits(y)
    ensures IsMatch("date_of_birth", Some(d + "/" + m + "/" + y), y + "-" + TwoDigits(m) + "-" + TwoDigits(d), similarity)
  {
    SlashDateDayFirst(d, m, y);
    DashedShape(y, TwoDigits(m), TwoDigits(d));
  }

  // ---------------------------------------------------------------------------
  // _test_strategy
  // ---------------------------------------------------------------------------

  /** xs[:n], with Python's reading of a negative bound as counting from the end. */
  function SliceTo<T>(xs: seq<T>, n: int): (r: seq<T>)
    ensures |r| <= |xs| && r == xs[..|r|]
    ensures n >= 0 ==> |r| == if n <= |xs| then n else |xs|
    ensures n < 0 ==> |r| == if |xs| + n > 0 then |xs| + n else 0
  {
    if n >= 0 then Take(xs, n) else if |xs| + n > 0 then xs[..|xs| + n] else []
  }

  /** d[key] on a parsed JSON value. */
  function Item(v: Value, key: string): (r: Outcome<Value>)
    ensures r.Returned? <==> v.Obj? && key in v.fields
  {
    if !v.Obj? then Raised("TypeError")
    else if key in v.fields then Returned(v.fields[key])
    else Raised("KeyError")
  }

  /** x[0]: the first item of a list or character of a string; IndexError when empty, KeyError on a dict. */
  function Index0(v: Value): (r: Outcome<Value>)
    ensures r.Returned? <==> (v.List? && v.items != []) || (v.Str? && v.s != [])
  {
    match v
    case List(xs) => if xs == [] then Raised("IndexError") else Returned(xs[0])
    case Str(t) => if t == [] then Raised("IndexError") else Returned(Str([t[0]]))
    case Obj(_) => Raised("KeyError")
    case _ => Raised("TypeError")
  }

  /** contact_info.get(key, [None])[0]: None when the key is absent. */
  function FirstEntry(ci: Dict, key: string): (r: Outcome<Value>)
    ensures key !in ci ==> r == Returned(Null)
  {
    if key in ci then Index0(ci[key]) else Returned(Null)
  }

  /**
   * The ground-truth value _test_strategy reads for a field from a sample:
   * its input and output must be present, a list output gives its first
   * element, the phone and email are the first entries of contact_info, the
   * date of birth is read from it as it is and the name from the top level.
   * A field outside the four reads as None.
   */
  function SampleTruth(sample: Value, field: string): (r: Outcome<Value>)
    ensures r.Returned? ==> sample.Obj? && "input" in sample.fields && "output" in sample.fields
    ensures field !in Evaluator.EvalFields && r.Returned? ==> r.value == Null
  {
    var input := Item(sample, "input");
    if input.Raised? then Raised(input.error)
    else
      var output := Item(sample, "output");
      if output.Raised? then Raised(output.error)
      else
        var out := output.value;
        if out.List? && out.items == [] then Raised("IndexError")
        else
          var d := if out.List? then out.items[0] else out;
          if field !in Evaluator.EvalFields then Returned(Null)
          else if !d.Obj? then Raised("AttributeError")
          else if field == "name" then Returned(Get(d.fields, "candidate_name"))
          else
            var ci := GetOr(d.fields, "contact_info", Obj(map[]));
            if !ci.Obj? then Raised("AttributeError")
            else if field == "phone" then FirstEntry(ci.fields, "phone")
            else if field == "email" then FirstEntry(ci.fields, "email")
            else Returned(Get(ci.fields, "date_of_birth"))
  }

  /**
   * _is_match on a ground truth that came from the dataset: a string is
   * compared; any other true value raises where the comparison first
   * treats it as a string.
   */
  function MatchValue(field: string, extracted: Option<string>, gt: Value, similarity: (string, string) -> int)
    : (r: Outcome<bool>)
    ensures gt.Str? ==> r == Returned(IsMatch(field, extracted, gt.s, similarity))
    ensures extracted.None? || !Truthy(gt) ==> r == Returned(false)
  {
    if extracted.None? || extracted.value == [] || !Truthy(gt) then Returned(false)
    else if gt.Str? then Returned(IsMatch(field, extracted, gt.s, similarity))
    else if field == "phone" || field == "date_of_birth" then Raised("TypeError")
    else if field == "name" || field == "email" then Raised("AttributeError")
    else Returned(false)
  }

  /**
   * The verdict on one sample: the comparison of the cleaned reply with a
   * true ground truth; samples without one are not compared.
   */
  function Verdict(field: string, reply: Option<string>, gt: Outcome<Value>, similarity: (string, string) -> int)
    : (r: Outcome<bool>)
    ensures gt.Raised? || !Truthy(gt.value) ==> r == Returned(false)
  {
    if gt.Raised? || !Truthy(gt.value) then Returned(false)
    else MatchValue(field, CallAi(reply), gt.value, similarity)
  }

  /** The ground truth of each sample. */
  function Truths(samples: seq<Value>, field: string): (r: seq<Outcome<Value>>)
    ensures |r| == |samples|
  {
    seq(|samples|, i requires 0 <= i < |samples| => SampleTruth(samples[i], field))
  }

  /** The verdict on each sample, given the model's reply to each. */
  function Verdicts(samples: seq<Value>, field: string, replies: seq<Option<string>>,
                    similarity: (string, string) -> int): (r: seq<Outcome<bool>>)
    requires |samples| <= |replies|
    ensures |r| == |samples|
  {
    seq(|samples|, i requires 0 <= i < |samples| => Verdict(field, replies[i], SampleTruth(samples[i], field), similarity))
  }

  /** Sample k's ground truth and verdict are the k-th entries of the two sequences. */
  lemma TruthsAndVerdicts(samples: seq<Value>, field: string, replies: seq<Option<string>>,
                          similarity: (string, string) -> int)
    requires |samples| <= |replies|
    ensures var truths := Truths(samples, field);
            forall k :: 0 <= k < |samples| ==> truths[k] == SampleTruth(samples[k], field)
    ensures var truths, verdicts := Truths(samples, field), Verdicts(samples, field, replies, similarity);
            forall k :: 0 <= k < |samples| ==> verdicts[k] == Verdict(field, replies[k], truths[k], similarity)
  {
  }

  datatype Counts = Counts(correct: nat, total: nat)

  /**
   * The counters of _test_strategy after the first n samples: a sample
   * without a true ground truth is skipped, any other adds one to total
   * and, when its verdict is a match, one to correct. The first error, in
   * reading a ground truth or in comparing, stops the count.
   */
  function Tally(truths: seq<Outcome<Value>>, verdicts: seq<Outcome<bool>>, n: nat): (r: Outcome<Counts>)
    requires n <= |truths| && n <= |verdicts|
    ensures r.Returned? ==> r.value.correct <= r.value.total <= n
  {
    if n == 0 then Returned(Counts(0, 0))
    else
      var prev := Tally(truths, verdicts, n - 1);
      if prev.Raised? then prev else Grade(prev.value, truths[n - 1], verdicts[n - 1])
  }

  /** One sample's effect on the counters, given its ground truth gt and its verdict m. */
  function Grade(c: Counts, gt: Outcome<Value>, m: Outcome<bool>): Outcome<Counts> {
    if gt.Raised? then Raised(gt.error)
    else if !Truthy(gt.value) then Returned(c)
    else if m.Raised? then Raised(m.error)
    else Returned(Counts(c.correct + (if m.value then 1 else 0), c.total + 1))
  }

  /** Once a sample raises, the count stays failed with that error. */
  lemma {:induction false} TallyRaisedStays(truths: seq<Outcome<Value>>, verdicts: seq<Outcome<bool>>, i: nat, n: nat)
    requires i <= n <= |truths| && n <= |verdicts|
    requires Tally(truths, verdicts, i).Raised?
    ensures Tally(truths, verdicts, n) == Tally(truths, verdicts, i)
    decreases n
  {
    if n > i {
      TallyRaisedStays(truths, verdicts, i, n - 1);
    }
  }

  /** The number of the first n ground truths that are true. */
  function Graded(truths: seq<Outcome<Value>>, n: nat): nat
    requires n <= |truths|
  {
    if n == 0 then 0
    else Graded(truths, n - 1) + (if truths[n - 1].Returned? && Truthy(truths[n - 1].value) then 1 else 0)
  }

  /** total counts exactly the samples that have a true ground truth. */
  lemma {:induction false} TotalIsGraded(truths: seq<Outcome<Value>>, verdicts: seq<Outcome<bool>>, n: nat)
    requires n <= |truths| && n <= |verdicts|
    requires Tally(truths, verdicts, n).Returned?
    ensures Tally(truths, verdicts, n).value.total == Graded(truths, n)
  {
    if n > 0 {
      TotalIsGraded(truths, verdicts, n - 1);
    }
  }

  /** correct counts exactly the graded samples whose verdict is a match. */
  lemma {:induction false} CorrectIsMatched(truths: seq<Outcome<Value>>, verdicts: seq<Outcome<bool>>, n: nat)
    requires n <= |truths| && n <= |verdicts|
    requires Tally(truths, verdicts, n).Returned?
    ensures Tally(truths, verdicts, n).value.correct
            == |set k | 0 <= k < n && truths[k].Returned? && Truthy(truths[k].value) && verdicts[k] == Returned(true)|
  {
    if n > 0 {
      CorrectIsMatched(truths, verdicts, n - 1);
      var prev := set k | 0 <= k < n - 1 && truths[k].Returned? && Truthy(truths[k].value) && verdicts[k] == Returned(true);
      var now := set k | 0 <= k < n && truths[k].Returned? && Truthy(truths[k].value) && verdicts[k] == Returned(true);
      if truths[n - 1].Returned? && Truthy(truths[n - 1].value) && verdicts[n - 1] == Returned(true) {
        assert now == prev + {n - 1} && n - 1 !in prev;
        assert |now| == |prev| + 1;
      } else {
        assert now == prev;
      }
    }
  }

  /** Counting with no true ground truth among the first n samples counts nothing. */
  lemma {:induction false} GradedNone(truths: seq<Outcome<Value>>, n: nat)
    requires n <= |truths|
    requires forall k :: 0 <= k < n ==> truths[k].Raised? || !Truthy(truths[k].value)
    ensures Graded(truths, n) == 0
  {
    if n > 0 {
      GradedNone(truths, n - 1);
    }
  }

  /** A field outside the four reads no ground truth, so a strategy for it grades nothing and scores 0. */
  lemma UnknownFieldGradesNothing(samples: seq<Value>, field: string)
    requires field !in Evaluator.EvalFields
    ensures Graded(Truths(samples, field), |samples|) == 0
  {
    var truths := Truths(samples, field);
    forall k | 0 <= k < |samples|
      ensures truths[k].Raised? || !Truthy(truths[k].value)
    {
      assert truths[k] == SampleTruth(samples[k], field);
    }
    GradedNone(truths, |samples|);
  }

  /** The counters after one more sample. */
  lemma TallyNext(truths: seq<Outcome<Value>>, verdicts: seq<Outcome<bool>>, i: nat, c: Counts)
    requires i < |truths| && i < |verdicts| && Tally(truths, verdicts, i) == Returned(c)
    ensures Tally(truths, verdicts, i + 1) == Grade(c, truths[i], verdicts[i])
  {
  }

  /**
   * The score of a strategy over the first maxSamples samples: correct
   * over total as a percentage, 0 when nothing was counted.
   */
  function Score(labeled: seq<Value>, field: string, maxSamples: int, replies: seq<Option<string>>,
                 similarity: (string, string) -> int): (r: Outcome<real>)
    requires |labeled| <= |replies|
    ensures r.Returned? ==> 0.0 <= r.value <= 100.0
  {
    var samples := SliceTo(labeled, maxSamples);
    var c := Tally(Truths(samples, field), Verdicts(samples, field, replies, similarity), |samples|);
    if c.Raised? then Raised(c.error)
    else
      Evaluator.AccuracyRange(c.value.correct, c.value.total);
      Returned(Evaluator.Accuracy(c.value.correct, c.value.total))
  }

  /** The score once the count over all the samples is known. */
  lemma ScoreOf(labeled: seq<Value>, field: string, maxSamples: int, replies: seq<Option<string>>,
                similarity: (string, string) -> int, c: Outcome<Counts>)
    requires |labeled| <= |replies|
    requires var samples := SliceTo(labeled, maxSamples);
             Tally(Truths(samples, field), Verdicts(samples, field, replies, similarity), |samples|) == c
    ensures Score(labeled, field, maxSamples, replies, similarity)
            == if c.Raised? then Raised(c.error) else Returned(Evaluator.Accuracy(c.value.correct, c.value.total))
    ensures c.Returned? && c.value.total == 0 ==> Score(labeled, field, maxSamples, replies, similarity) == Returned(0.0)
    ensures c.Returned? && c.value.total > 0 ==>
              Score(labeled, field, maxSamples, replies, similarity)
              == Returned((c.value.correct as real / c.value.total as real) * 100.0)
  {
  }

  /** A strategy scores 0 when no sample in its range has a true ground truth for the field, an unknown field included. */
  lemma ScoreZeroWithoutTruth(labeled: seq<Value>, field: string, maxSamples: int, replies: seq<Option<string>>,
                              similarity: (string, string) -> int)
    requires |labeled| <= |replies|
    requires Score(labeled, field, maxSamples, replies, similarity).Returned?
    requires var samples := SliceTo(labeled, maxSamples);
             field !in Evaluator.EvalFields || Graded(Truths(samples, field), |samples|) == 0
    ensures Score(labeled, field, maxSamples, replies, similarity) == Returned(0.0)
  {
    var samples := SliceTo(labeled, maxSamples);
    var truths := Truths(samples, field);
    var verdicts := Verdicts(samples, field, replies, similarity);
    if field !in Evaluator.EvalFields {
      UnknownFieldGradesNothing(samples, field);
    }
    TotalIsGraded(truths, verdicts, |samples|);
  }

  /**
   * The body of _test_strategy's loop for one sample: its ground truth;
   * then, only when that is true, the model's answer and the verdict on
   * it; then the counters updated as Grade says.
   */
  method GradeSample(sample: Value, field: string, reply: Option<string>, similarity: (string, string) -> int,
                     c: Counts) returns (r: Outcome<Counts>)
    ensures r == Grade(c, SampleTruth(sample, field), Verdict(field, reply, SampleTruth(sample, field), similarity))
  {
    var gt := SampleTruth(sample, field);
    var m: Outcome<bool> := Returned(false);
    if gt.Returned? && Truthy(gt.value) {
      var extracted := CallAi(reply);
      m := MatchValue(field, extracted, gt.value, similarity);
    }
    r := Grade(c, gt, m);
  }

  /**
   * The counting loop of _test_strategy: one sample after the other, the
   * first error stopping the loop. truths and verdicts name what each
   * sample yields.
   */
  method CountSamples(samples: seq<Value>, field: string, replies: seq<Option<string>>,
                      similarity: (string, string) -> int,
                      ghost truths: seq<Outcome<Value>>, ghost verdicts: seq<Outcome<bool>>)
    returns (c: Outcome<Counts>)
    requires |samples| == |truths| == |verdicts| && |samples| <= |replies|
    requires forall k :: 0 <= k < |samples| ==> truths[k] == SampleTruth(samples[k], field)
    requires forall k :: 0 <= k < |samples| ==> verdicts[k] == Verdict(field, replies[k], truths[k], similarity)
    ensures c == Tally(truths, verdicts, |samples|)
  {
    var counts := Counts(0, 0);
    var i := 0;
    while i < |samples|
      invariant 0 <= i <= |samples|
      invariant Tally(truths, verdicts, i) == Returned(counts)
    {
      var next := GradeSample(samples[i], field, replies[i], similarity, counts);
      TallyNext(truths, verdicts, i, counts);
      if next.Raised? {
        TallyRaisedStays(truths, verdicts, i + 1, |samples|);
        return next;
      }
      counts := next.value;
      i := i + 1;
    }
    return Returned(counts);
  }

  /**
   * _test_strategy: the counting loop over the first maxSamples labelled
   * samples, then the score as a percentage.
   */
  method TestStrategy(labeled: seq<Value>, field: string, maxSamples: int, replies: seq<Option<string>>,
                      similarity: (string, string) -> int) returns (r: Outcome<real>)
    requires |labeled| <= |replies|
    ensures r == Score(labeled, field, maxSamples, replies, similarity)
  {
    var samples := SliceTo(labeled, maxSamples);
    ghost var truths, verdicts := Truths(samples, field), Verdicts(samples, field, replies, similarity);
    TruthsAndVerdicts(samples, field, replies, similarity);
    var c := CountSamples(samples, field, replies, similarity, truths, verdicts);
    ScoreOf(labeled, field, maxSamples, replies, similarity, c);
    if c.Raised? {
      return Raised(c.error);
    }
    if c.value.total == 0 {
      return Returned(0.0);
    }
    return Returned((c.value.correct as real / c.value.total as real) * 100.0);
  }
}
