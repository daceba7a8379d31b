/**
 * Character classes and the small set of Python string operations the
 * extraction pipeline relies on (str.strip, str.split, str.find, slicing,
 * str.lower on ASCII, re's \d and \w), stated once and reused by every module.
 */
module Text {

  datatype Option<T> = None | Some(value: T)

  // ---------------------------------------------------------------------------
  // Character classes
  // ---------------------------------------------------------------------------

  /** Python's str.isspace(), which is also what re's \s matches in a str pattern. */
  predicate IsSpace(c: char) {
    c == ' ' || c == '\t' || c == '\n' || c == '\r' || c == '\U{000B}' || c == '\U{000C}'
    || ('\U{001C}' <= c <= '\U{001F}') || c == '\U{0085}' || c == '\U{00A0}'
    || c == '\U{1680}' || ('\U{2000}' <= c <= '\U{200A}') || c == '\U{2028}'
    || c == '\U{2029}' || c == '\U{202F}' || c == '\U{205F}' || c == '\U{3000}'
  }

  /** A single or double quote, as stripped with str.strip('"\''). */
  predicate IsQuote(c: char) { c == '"' || c == '\'' }

  /** re's \d, restricted to ASCII digits. */
  predicate IsDigit(c: char) { '0' <= c <= '9' }

  predicate IsUpper(c: char) { 'A' <= c <= 'Z' }

  predicate IsLower(c: char) { 'a' <= c <= 'z' }

  predicate IsLetter(c: char) { IsUpper(c) || IsLower(c) }

  /** Letters of the scripts a résumé uses besides ASCII: Latin-1, kana, CJK ideographs, full-width Latin. */
  predicate IsWideLetter(c: char) {
    ('\U{00C0}' <= c <= '\U{00FF}' && c != '\U{00D7}' && c != '\U{00F7}')
    || ('\U{3041}' <= c <= '\U{3096}') || ('\U{30A1}' <= c <= '\U{30FA}') || c == '\U{30FC}'
    || ('\U{4E00}' <= c <= '\U{9FFF}') || ('\U{FF21}' <= c <= '\U{FF3A}') || ('\U{FF41}' <= c <= '\U{FF5A}')
  }

  /** str.isalpha() for one character. */
  predicate IsAlpha(c: char) { IsLetter(c) || IsWideLetter(c) }

  /** re's \w: letters, digits and the underscore. */
  predicate IsWordChar(c: char) {
    IsAlpha(c) || IsDigit(c) || c == '_' || ('\U{FF10}' <= c <= '\U{FF19}')
  }

  function LowerChar(c: char): (r: char)
    ensures IsUpper(c) ==> IsLower(r)
    ensures !IsUpper(c) ==> r == c
  {
    if IsUpper(c) then (c as int + 32) as char else c
  }

  function UpperChar(c: char): (r: char)
    ensures IsLower(c) ==> IsUpper(r)
    ensures !IsLower(c) ==> r == c
  {
    if IsLower(c) then (c as int - 32) as char else c
  }

  /** str.lower() on the ASCII letters. */
  function Lower(s: string): (r: string)
    ensures |r| == |s|
    ensures forall i :: 0 <= i < |s| ==> r[i] == LowerChar(s[i])
  {
    seq(|s|, i requires 0 <= i < |s| => LowerChar(s[i]))
  }

  /** Case-insensitive equality of two strings (re.IGNORECASE on ASCII). */
  predicate EqualsIgnoreCase(a: string, b: string) {
    Lower(a) == Lower(b)
  }

  // ---------------------------------------------------------------------------
  // Filtering
  // ---------------------------------------------------------------------------

  /** re.sub(r'\D', '', s): the digits of s in order. */
  function Digits(s: string): (r: string)
    ensures |r| <= |s|
    ensures forall i :: 0 <= i < |r| ==> IsDigit(r[i])
  {
    if s == [] then [] else (if IsDigit(s[0]) then [s[0]] else []) + Digits(s[1..])
  }

  /** Three consecutive slices put back together. */
  lemma ThreeSlices(d: string, a: nat, b: nat)
    requires a + b <= |d|
    ensures d[..a] + d[a..a + b] + d[a + b..] == d
  {
  }

  /** The three parts of a + b + c, read back by position. */
  lemma ThreeParts(a: string, b: string, c: string)
    ensures var s := a + b + c;
            s[..|a|] == a && s[|a|..|a| + |b|] == b && s[|a| + |b|..] == c
  {
  }

  lemma {:induction false} DigitsAppend(a: string, b: string)
    ensures Digits(a + b) == Digits(a) + Digits(b)
  {
    if a == [] {
      assert a + b == b;
    } else {
      assert (a + b)[1..] == a[1..] + b;
      DigitsAppend(a[1..], b);
    }
  }

  lemma {:induction false} DigitsOfDigits(s: string)
    requires forall i :: 0 <= i < |s| ==> IsDigit(s[i])
    ensures Digits(s) == s
  {
    if s != [] {
      DigitsOfDigits(s[1..]);
    }
  }

  lemma DigitsOfNonDigits(s: string)
    requires forall i :: 0 <= i < |s| ==> !IsDigit(s[i])
    ensures Digits(s) == []
  {
    if s != [] {
      DigitsOfNonDigits(s[1..]);
    }
  }

  predicate AllDigits(s: string) {
    forall i :: 0 <= i < |s| ==> IsDigit(s[i])
  }

  /** Keeps the characters of s that satisfy keep, in order. */
  function Filter(s: string, keep: char -> bool): (r: string)
    ensures |r| <= |s|
    ensures forall i :: 0 <= i < |r| ==> keep(r[i])
  {
    if s == [] then [] else (if keep(s[0]) then [s[0]] else []) + Filter(s[1..], keep)
  }

  /** Replaces each character c by f(c), as a chain of str.replace/str.translate calls on single characters does. */
  function MapChars(s: string, f: char -> string): (r: string)
  {
    if s == [] then [] else f(s[0]) + MapChars(s[1..], f)
  }

  // ---------------------------------------------------------------------------
  // Whitespace: strip, split, join
  // ---------------------------------------------------------------------------

  /** Index of the first character of s[i..] that is not in the strip set. */
  function SkipLeft(s: string, i: nat, strip: char -> bool): (r: nat)
    requires i <= |s|
    ensures i <= r <= |s|
    ensures forall k :: i <= k < r ==> strip(s[k])
    ensures r < |s| ==> !strip(s[r])
    decreases |s| - i
  {
    if i == |s| || !strip(s[i]) then i else SkipLeft(s, i + 1, strip)
  }

  /** Index just past the last character of s[..j] that is not in the strip set. */
  function SkipRight(s: string, j: nat, strip: char -> bool): (r: nat)
    requires j <= |s|
    ensures r <= j
    ensures forall k :: r <= k < j ==> strip(s[k])
    ensures r > 0 ==> !strip(s[r - 1])
  {
    if j == 0 || !strip(s[j - 1]) then j else SkipRight(s, j - 1, strip)
  }

  /** str.strip(chars) for a set of characters given as a predicate. */
  function StripBy(s: string, strip: char -> bool): (r: string)
    ensures |r| <= |s|
    ensures r != [] ==> !strip(r[0]) && !strip(r[|r| - 1])
    ensures (forall k :: 0 <= k < |s| ==> !strip(s[k])) ==> r == s
    ensures (forall k :: 0 <= k < |s| ==> strip(s[k])) ==> r == []
  {
    var i := SkipLeft(s, 0, strip);
    var j := SkipRight(s, |s|, strip);
    if i < j then s[i..j] else []
  }

  /** str.strip() */
  function Strip(s: string): (r: string)
    ensures |r| <= |s|
    ensures r != [] ==> !IsSpace(r[0]) && !IsSpace(r[|r| - 1])
  {
    StripBy(s, IsSpace)
  }

  /** str.strip() leaves a string with no surrounding whitespace unchanged. */
  lemma StripIdempotent(s: string)
    ensures Strip(Strip(s)) == Strip(s)
  {
    var t := Strip(s);
    if t != [] {
      assert SkipLeft(t, 0, IsSpace) == 0;
      assert SkipRight(t, |t|, IsSpace) == |t|;
    }
  }

  /** A text with no space at either end is its own strip. */
  lemma StripUnspaced(t: string)
    requires t != [] && !IsSpace(t[0]) && !IsSpace(t[|t| - 1])
    ensures Strip(t) == t
  {
    assert SkipLeft(t, 0, IsSpace) == 0;
    assert SkipRight(t, |t|, IsSpace) == |t|;
    assert t[0..|t|] == t;
  }

  /** str.strip() of a string that is all whitespace (or empty) is empty, and conversely. */
  lemma StripEmpty(s: string)
    ensures Strip(s) == [] <==> forall k :: 0 <= k < |s| ==> IsSpace(s[k])
  {
    var i := SkipLeft(s, 0, IsSpace);
    var j := SkipRight(s, |s|, IsSpace);
    if i < j {
      assert !IsSpace(s[i]);
    }
  }

  /** Number of leading characters of s that are not whitespace. */
  function WordEnd(s: string, i: nat): (r: nat)
    requires i <= |s|
    ensures i <= r <= |s|
    ensures forall k :: i <= k < r ==> !IsSpace(s[k])
    ensures r < |s| ==> IsSpace(s[r])
    decreases |s| - i
  {
    if i == |s| || IsSpace(s[i]) then i else WordEnd(s, i + 1)
  }

  predicate NoSpace(w: string) {
    forall k :: 0 <= k < |w| ==> !IsSpace(w[k])
  }

  /** str.split() with no separator: the maximal runs of non-whitespace characters. */
  function Words(s: string): (r: seq<string>)
    ensures forall k :: 0 <= k < |r| ==> r[k] != [] && NoSpace(r[k])
    decreases |s|
  {
    var i := SkipLeft(s, 0, IsSpace);
    if i == |s| then []
    else
      var j := WordEnd(s, i);
      [s[i..j]] + Words(s[j..])
  }

  /** sep.join(xs) */
  function Join(sep: string, xs: seq<string>): (r: string)
  {
    if xs == [] then [] else if |xs| == 1 then xs[0] else xs[0] + sep + Join(sep, xs[1..])
  }

  /** Index of the first c in s[i..], or |s| when there is none. */
  function CharFrom(s: string, c: char, i: nat): (r: nat)
    requires i <= |s|
    ensures i <= r <= |s|
    ensures r < |s| ==> s[r] == c
    ensures c !in s[i..] ==> r == |s|
    decreases |s| - i
  {
    if i == |s| || s[i] == c then i else CharFrom(s, c, i + 1)
  }

  /** CharFrom finds the first c: none comes before it. */
  lemma {:induction false} CharFromFirst(s: string, c: char, i: nat)
    requires i <= |s|
    ensures c !in s[i..CharFrom(s, c, i)]
    decreases |s| - i
  {
    if i < |s| && s[i] != c {
      CharFromFirst(s, c, i + 1);
      assert s[i..CharFrom(s, c, i)] == [s[i]] + s[i + 1..CharFrom(s, c, i + 1)];
    }
  }

  /** s.split(c) for a one-character separator: the pieces between the separators, empty ones included. */
  function SplitOn(s: string, c: char): (r: seq<string>)
    ensures |r| >= 1
    ensures c !in s ==> r == [s]
    decreases |s|
  {
    var i := CharFrom(s, c, 0);
    if i == |s| then [s] else [s[..i]] + SplitOn(s[i + 1..], c)
  }

  /** Joining the pieces with the separator gives back the text. */
  lemma {:induction false} SplitOnJoin(s: string, c: char)
    ensures Join([c], SplitOn(s, c)) == s
    decreases |s|
  {
    var i := CharFrom(s, c, 0);
    if i < |s| {
      var rest := SplitOn(s[i + 1..], c);
      SplitOnJoin(s[i + 1..], c);
      JoinCons([c], s[..i], rest);
      assert s == s[..i] + [c] + s[i + 1..];
    }
  }

  /** Joining a piece in front of at least one more. */
  lemma JoinCons(sep: string, a: string, rest: seq<string>)
    requires |rest| >= 1
    ensures Join(sep, [a] + rest) == a + sep + Join(sep, rest)
  {
    assert ([a] + rest)[1..] == rest;
  }

  /** A piece free of the separator, then the separator: the piece is the first line. */
  lemma SplitOnFirst(a: string, c: char, b: string)
    requires c !in a
    ensures SplitOn(a + [c] + b, c) == [a] + SplitOn(b, c)
  {
    var s := a + [c] + b;
    var r := CharFrom(s, c, 0);
    CharFromFirst(s, c, 0);
    assert s[|a|] == c;
    assert r == |a|;
    assert s[..r] == a && s[r + 1..] == b;
  }

  /** Splitting pieces free of c, joined with c, gives the pieces back. */
  lemma {:induction false} JoinSplitOn(xs: seq<string>, c: char)
    requires xs != [] && forall k :: 0 <= k < |xs| ==> c !in xs[k]
    ensures SplitOn(Join([c], xs), c) == xs
    decreases |xs|
  {
    if |xs| > 1 {
      var rest := xs[1..];
      var r := Join([c], rest);
      assert xs == [xs[0]] + rest;
      JoinCons([c], xs[0], rest);
      assert Join([c], xs) == xs[0] + [c] + r;
      JoinSplitOn(rest, c);
      SplitOnFirst(xs[0], c, r);
    }
  }

  /** ' '.join(s.split()): whitespace runs collapsed to one space, ends trimmed. */
  function Collapse(s: string): string {
    Join(" ", Words(s))
  }

  /** The shape ' '.join(s.split()) gives: no whitespace at the ends, and single plain spaces between words. */
  predicate Collapsed(t: string) {
    (t == [] || !IsSpace(t[0])) &&
    forall k :: 0 <= k < |t| && IsSpace(t[k]) ==> t[k] == ' ' && k + 1 < |t| && !IsSpace(t[k + 1])
  }

  lemma {:induction false} SkipLeftDrop(u: string, k: nat, strip: char -> bool)
    requires 1 <= k <= |u|
    ensures SkipLeft(u, k, strip) == 1 + SkipLeft(u[1..], k - 1, strip)
    decreases |u| - k
  {
    if k < |u| {
      assert u[1..][k - 1] == u[k];
      if strip(u[k]) {
        SkipLeftDrop(u, k + 1, strip);
      }
    }
  }

  lemma {:induction false} WordEndDrop(u: string, k: nat)
    requires 1 <= k <= |u|
    ensures WordEnd(u, k) == 1 + WordEnd(u[1..], k - 1)
    decreases |u| - k
  {
    if k < |u| {
      assert u[1..][k - 1] == u[k];
      if !IsSpace(u[k]) {
        WordEndDrop(u, k + 1);
      }
    }
  }

  /** One step of str.split(): the first word found after the leading whitespace. */
  lemma WordsStep(u: string)
    ensures var i := SkipLeft(u, 0, IsSpace);
            (i == |u| ==> Words(u) == []) &&
            (i < |u| ==> Words(u) == [u[i..WordEnd(u, i)]] + Words(u[WordEnd(u, i)..]))
  {
  }

  /** A leading whitespace character does not change the words. */
  lemma WordsDropSpace(u: string)
    requires u != [] && IsSpace(u[0])
    ensures Words(u) == Words(u[1..])
  {
    var v := u[1..];
    var i := SkipLeft(u, 0, IsSpace);
    var i' := SkipLeft(v, 0, IsSpace);
    assert i == SkipLeft(u, 1, IsSpace);
    SkipLeftDrop(u, 1, IsSpace);
    if i < |u| {
      var j := WordEnd(u, i);
      var j' := WordEnd(v, i');
      WordEndDrop(u, i);
      SlicesDrop(u, i, j, i', j');
      WordsAt(u, i);
      WordsAt(v, i');
    } else {
      WordsStep(u);
      WordsStep(v);
    }
  }

  /** Words(u) when its first word starts at i. */
  lemma WordsAt(u: string, i: nat)
    requires i == SkipLeft(u, 0, IsSpace) && i < |u|
    ensures Words(u) == [u[i..WordEnd(u, i)]] + Words(u[WordEnd(u, i)..])
  {
  }

  /** The slices of u from index 1 on, read in u[1..]. */
  lemma SlicesDrop(u: string, i: nat, j: nat, i': nat, j': nat)
    requires 1 <= i <= j <= |u| && i == i' + 1 && j == j' + 1
    ensures u[i..j] == u[1..][i'..j'] && u[j..] == u[1..][j'..]
  {
    var v := u[1..];
    assert forall k :: 0 <= k < j - i ==> u[i..j][k] == u[i + k] == v[i' + k] == v[i'..j'][k];
    assert forall k :: 0 <= k < |u| - j ==> u[j..][k] == u[j + k] == v[j' + k] == v[j'..][k];
  }

  lemma SliceAt(c: string, lo: nat, hi: nat, k: nat)
    requires lo <= k < hi <= |c|
    ensures c[lo..hi][k - lo] == c[k]
  {
  }

  lemma SliceOfSlice(c: string, lo: nat, hi: nat, i: nat, j: nat)
    requires lo <= hi <= |c| && i <= j <= hi - lo
    ensures c[lo..hi][i..j] == c[lo + i..lo + j]
  {
    assert forall k :: 0 <= k < j - i ==> c[lo..hi][i..j][k] == c[lo + i + k] == c[lo + i..lo + j][k];
  }

  /** Stripping a stretch of c leaves a smaller stretch, with only stripped characters cut from either end. */
  lemma StripByWithin(c: string, lo: nat, hi: nat, strip: char -> bool) returns (a: nat, b: nat)
    requires lo <= hi <= |c|
    ensures lo <= a <= b <= hi && StripBy(c[lo..hi], strip) == c[a..b]
    ensures forall k :: lo <= k < a ==> strip(c[k])
    ensures forall k :: b <= k < hi ==> strip(c[k])
  {
    var s := c[lo..hi];
    var i := SkipLeft(s, 0, strip);
    var j := SkipRight(s, |s|, strip);
    forall k | lo <= k < lo + i ensures strip(c[k]) {
      SliceAt(c, lo, hi, k);
    }
    forall k | lo + j <= k < hi ensures strip(c[k]) {
      SliceAt(c, lo, hi, k);
    }
    if i < j {
      a, b := lo + i, lo + j;
      SliceOfSlice(c, lo, hi, i, j);
    } else {
      a, b := lo, lo;
      assert StripBy(s, strip) == [];
    }
  }

  /** Cutting s[i..] at k and joining the two pieces gives it back. */
  lemma SliceJoin(s: string, i: nat, k: nat)
    requires i <= k <= |s|
    ensures s[i..k] + s[k..] == s[i..]
    ensures k == i + 1 ==> s[i..k] == [s[i]]
  {
  }

  /** A prefix of r that copies s[j + 1..e], with s[j] put before both. */
  lemma ConsSlice(s: string, j: nat, e: nat, r: string)
    requires j < e <= |s| && |r| >= e - j - 1 && r[..e - j - 1] == s[j + 1..e]
    ensures ([s[j]] + r)[..e - j] == s[j..e]
    ensures e < |s| && |r| > e - j - 1 && r[e - j - 1] == s[e] ==> ([s[j]] + r)[e - j] == s[e]
  {
    assert s[j..e] == [s[j]] + s[j + 1..e];
  }

  /** A stripped character at i does not move where the stripping stops. */
  lemma SkipLeftStep(s: string, i: nat, strip: char -> bool)
    requires i < |s| && strip(s[i])
    ensures SkipLeft(s, i, strip) == SkipLeft(s, i + 1, strip)
  {
  }

  /** A text that starts with a word: that word, then the words of the rest. */
  lemma WordsFirst(t: string)
    requires t != [] && !IsSpace(t[0])
    ensures Words(t) == [t[..WordEnd(t, 0)]] + Words(t[WordEnd(t, 0)..])
  {
    assert SkipLeft(t, 0, IsSpace) == 0;
  }

  /** After a space of a collapsed text comes a non-empty collapsed text. */
  lemma CollapsedAfterSpace(t: string, j: nat)
    requires Collapsed(t) && j < |t| && IsSpace(t[j])
    ensures t[j] == ' ' && j + 1 < |t| && Collapsed(t[j + 1..])
  {
    var u := t[j + 1..];
    forall k | 0 <= k < |u|
      ensures u[k] == t[j + 1 + k]
    {
    }
  }

  /** A text that starts with a non-space has at least one word. */
  lemma WordsNonEmpty(u: string)
    requires u != [] && !IsSpace(u[0])
    ensures Words(u) != []
  {
    assert SkipLeft(u, 0, IsSpace) == 0;
  }

  /** Collapsing a collapsed text changes nothing. */
  lemma {:induction false} CollapseFixpoint(t: string)
    requires Collapsed(t)
    ensures Collapse(t) == t
    decreases |t|
  {
    if t != [] {
      var j := WordEnd(t, 0);
      WordsFirst(t);
      if j == |t| {
        assert t[j..] == [];
        assert t[..j] == t;
      } else {
        var u := t[j + 1..];
        CollapsedAfterSpace(t, j);
        WordsDropSpace(t[j..]);
        assert t[j..][1..] == u;
        CollapseFixpoint(u);
        WordsNonEmpty(u);
        JoinCons(" ", t[..j], Words(u));
        assert t == t[..j] + " " + u;
      }
    }
  }

  /** Words joined by single spaces form a collapsed text, empty only when there are no words. */
  lemma {:induction false} JoinWordsCollapsed(ws: seq<string>)
    requires forall k :: 0 <= k < |ws| ==> ws[k] != [] && NoSpace(ws[k])
    ensures Collapsed(Join(" ", ws))
    ensures ws != [] ==> Join(" ", ws) != []
  {
    if |ws| > 1 {
      var w := ws[0];
      var rest := ws[1..];
      var J := Join(" ", rest);
      JoinWordsCollapsed(rest);
      var t := w + " " + J;
      assert Join(" ", ws) == t;
      assert forall k :: 0 <= k < |w| ==> t[k] == w[k];
      forall k | 0 <= k < |t|
        ensures IsSpace(t[k]) ==> t[k] == ' ' && k + 1 < |t| && !IsSpace(t[k + 1])
      {
        if k == |w| {
          assert t[k + 1] == J[0];
        } else if k > |w| {
          assert t[k] == J[k - |w| - 1];
          if k + 1 < |t| {
            assert t[k + 1] == J[k - |w|];
          }
        }
      }
      assert t[0] == w[0];
    }
  }

  /** ' '.join(s.split()) is collapsed. */
  lemma CollapseCollapsed(s: string)
    ensures Collapsed(Collapse(s))
  {
    JoinWordsCollapsed(Words(s));
  }

  /** Collapsing twice is collapsing once. */
  lemma CollapseIdempotent(s: string)
    ensures Collapse(Collapse(s)) == Collapse(s)
  {
    CollapseCollapsed(s);
    CollapseFixpoint(Collapse(s));
  }

  /** str.strip() leaves a collapsed text unchanged. */
  lemma StripCollapsed(t: string)
    requires Collapsed(t)
    ensures Strip(t) == t
  {
    if t != [] {
      StripUnspaced(t);
    }
  }

  /** Lower-casing keeps whitespace where it is, so a collapsed text stays collapsed. */
  lemma LowerCollapsed(t: string)
    requires Collapsed(t)
    ensures Collapsed(Lower(t))
  {
    var r := Lower(t);
    forall k | 0 <= k < |r|
      ensures IsSpace(r[k]) <==> IsSpace(t[k])
      ensures IsSpace(r[k]) ==> r[k] == t[k]
    {
    }
  }

  /** Lower-casing twice is lower-casing once. */
  lemma LowerIdempotent(s: string)
    ensures Lower(Lower(s)) == Lower(s)
  {
  }

  // ---------------------------------------------------------------------------
  // Searching
  // ---------------------------------------------------------------------------

  predicate OccursAt(s: string, t: string, i: int) {
    0 <= i && i + |t| <= |s| && s[i..i + |t|] == t
  }

  predicate StartsWith(s: string, p: string) {
    |p| <= |s| && s[..|p|] == p
  }

  predicate EndsWith(s: string, p: string) {
    |p| <= |s| && s[|s| - |p|..] == p
  }

  function FindFrom(s: string, t: string, i: nat): (r: int)
    requires i <= |s| + 1
    ensures r == -1 || (i <= r && OccursAt(s, t, r))
    ensures r == -1 ==> forall k :: i <= k ==> !OccursAt(s, t, k)
    ensures r != -1 ==> forall k :: i <= k < r ==> !OccursAt(s, t, k)
    decreases |s| + 1 - i
  {
    if i + |t| > |s| then -1
    else if s[i..i + |t|] == t then i
    else FindFrom(s, t, i + 1)
  }

  /** str.find(t): the index of the first occurrence of t in s, or -1. */
  function Find(s: string, t: string): (r: int)
    ensures r == -1 || OccursAt(s, t, r)
    ensures r == -1 ==> forall k :: !OccursAt(s, t, k)
    ensures r != -1 ==> forall k :: 0 <= k < r ==> !OccursAt(s, t, k)
  {
    FindFrom(s, t, 0)
  }

  /** The index of the last c in s, or -1. */
  function LastIndexOf(s: string, c: char): (r: int)
    ensures -1 <= r < |s|
    ensures r >= 0 ==> s[r] == c && forall k :: r < k < |s| ==> s[k] != c
    ensures r == -1 ==> forall k :: 0 <= k < |s| ==> s[k] != c
  {
    LastBefore(s, c, |s|)
  }

  function LastBefore(s: string, c: char, n: nat): (r: int)
    requires n <= |s|
    ensures -1 <= r < n
    ensures r >= 0 ==> s[r] == c && forall k :: r < k < n ==> s[k] != c
    ensures r == -1 ==> forall k :: 0 <= k < n ==> s[k] != c
  {
    if n == 0 then -1
    else if s[n - 1] == c then n - 1
    else LastBefore(s, c, n - 1)
  }

  lemma LastIndexIs(s: string, c: char, i: nat)
    requires i < |s| && s[i] == c
    requires forall k :: i < k < |s| ==> s[k] != c
    ensures LastIndexOf(s, c) == i
  {
    var r := LastIndexOf(s, c);
    assert r >= 0;
    assert !(r < i);
  }
  /** os.path.basename: what follows the last '/'. */
  function BaseName(path: string): (r: string)
    ensures '/' !in r
    ensures EndsWith(path, r)
    ensures '/' !in path ==> r == path
  {
    path[LastIndexOf(path, '/') + 1..]
  }

  /** Python's `t in s` for strings. */
  predicate Contains(s: string, t: string) {
    Find(s, t) != -1
  }

  lemma ContainsAt(s: string, t: string, i: int)
    requires OccursAt(s, t, i)
    ensures Contains(s, t)
  {
  }

  /** s[lo:hi] for non-negative bounds, clamped as Python clamps them. */
  function Slice(s: string, lo: int, hi: int): (r: string)
    ensures |r| <= |s|
  {
    var a := if lo < 0 then 0 else if lo > |s| then |s| else lo;
    var b := if hi < 0 then 0 else if hi > |s| then |s| else hi;
    if a < b then s[a..b] else []
  }

  /** s[:n] */
  function Take<T>(s: seq<T>, n: nat): (r: seq<T>)
    ensures |r| == if n <= |s| then n else |s|
    ensures r == s[..|r|]
  {
    if n <= |s| then s[..n] else s
  }

  /** The number of non-overlapping occurrences of t in s, scanned from the left (str.count). */
  function CountFrom(s: string, t: string, i: nat): nat
    requires t != []
    requires i <= |s|
    decreases |s| - i
  {
    if i + |t| > |s| then 0
    else if s[i..i + |t|] == t then 1 + CountFrom(s, t, i + |t|)
    else CountFrom(s, t, i + 1)
  }

  // ---------------------------------------------------------------------------
  // Numbers
  // ---------------------------------------------------------------------------

  function DigitChar(d: nat): char
    requires d < 10
  {
    ('0' as int + d) as char
  }

  function DigitValue(c: char): nat
    requires IsDigit(c)
  {
    c as int - '0' as int
  }

  /** str(n) for a non-negative integer. */
  function NatToString(n: nat): (r: string)
    ensures r != [] && AllDigits(r)
    decreases n
  {
    if n < 10 then [DigitChar(n)] else NatToString(n / 10) + [DigitChar(n % 10)]
  }

  /** f"{n:0{w}d}": n in decimal, zero-padded on the left to at least w digits. */
  function Pad(n: nat, w: nat): (r: string)
    ensures AllDigits(r)
    ensures |r| == if |NatToString(n)| < w then w else |NatToString(n)|
  {
    var d := NatToString(n);
    if |d| < w then seq(w - |d|, _ => '0') + d else d
  }

  /** int(s) for a non-empty string of ASCII digits. */
  function DigitsValue(s: string): nat
    requires AllDigits(s)
  {
    if s == [] then 0 else DigitsValue(s[..|s| - 1]) * 10 + DigitValue(s[|s| - 1])
  }

  /** int(s) restricted to strings of ASCII digits; None where Python's int() would raise or the model does not follow it. */
  function ParseNat(s: string): (r: Option<nat>)
    ensures r.Some? <==> s != [] && AllDigits(s)
  {
    if s != [] && AllDigits(s) then Some(DigitsValue(s)) else None
  }

  lemma {:induction false} NatToStringValue(n: nat)
    ensures DigitsValue(NatToString(n)) == n
    decreases n
  {
    if n >= 10 {
      var d := NatToString(n / 10);
      var r := NatToString(n);
      assert r[..|r| - 1] == d;
      NatToStringValue(n / 10);
    }
  }

  lemma {:induction false} LeadingZerosValue(k: nat, s: string)
    requires AllDigits(s)
    ensures AllDigits(seq(k, _ => '0') + s)
    ensures DigitsValue(seq(k, _ => '0') + s) == DigitsValue(s)
    decreases |s|
  {
    var z: string := seq(k, _ => '0');
    if s == [] {
      assert z + s == z;
      ZerosValue(k);
    } else {
      var t := z + s;
      assert t[..|t| - 1] == z + s[..|s| - 1];
      LeadingZerosValue(k, s[..|s| - 1]);
    }
  }

  lemma {:induction false} ZerosValue(k: nat)
    ensures AllDigits(seq(k, _ => '0'))
    ensures DigitsValue(seq(k, _ => '0')) == 0
  {
    if k > 0 {
      var z: string := seq(k, _ => '0');
      assert z[..k - 1] == seq(k - 1, _ => '0');
      ZerosValue(k - 1);
    }
  }

  /** Reading a zero-padded number back gives the number. */
  lemma PadValue(n: nat, w: nat)
    ensures ParseNat(Pad(n, w)) == Some(n)
  {
    var d := NatToString(n);
    NatToStringValue(n);
    if |d| < w {
      LeadingZerosValue(w - |d|, d);
    }
  }

  lemma NatToStringShort(n: nat)
    ensures n < 10 ==> |NatToString(n)| == 1
    ensures 10 <= n < 100 ==> |NatToString(n)| == 2
    ensures 100 <= n < 1000 ==> |NatToString(n)| == 3
    ensures 1000 <= n < 10000 ==> |NatToString(n)| == 4
  {
  }
}
