/**
 * The résumé-folder report (check_resumes.py): files are grouped by the
 * folder they sit in (one folder per candidate), each file is classified
 * as a Japanese résumé, an English résumé or something else by its name,
 * and the report lists the candidates who have both kinds, with the file
 * formats of each kind deduplicated and sorted.
 *
 * Walking the directory tree and writing the CSV file are left out: the
 * model starts from the list of paths os.walk produced and ends with the
 * rows handed to the DataFrame.
 */
module CheckResumes {
  import opened Text

  // ---------------------------------------------------------------------------
  // Paths (posixpath)
  // ---------------------------------------------------------------------------

  predicate IsSlash(c: char) { c == '/' }

  /**
   * os.path.split(path)[0]: everything up to the last '/', with trailing
   * slashes removed unless it consists of slashes only.
   */
  function DirName(path: string): (r: string)
    ensures |r| <= |path|
  {
    var head := path[..LastIndexOf(path, '/') + 1];
    if exists k :: 0 <= k < |head| && head[k] != '/' then head[..SkipRight(head, |head|, IsSlash)] else head
  }

  /** The candidate a file belongs to: the name of the folder it is in. */
  function Candidate(path: string): (r: string)
    ensures '/' !in r
  {
    BaseName(DirName(path))
  }

  /** A file inside a folder named name is filed under that name, whatever the folders above it. */
  lemma CandidateOfFile(dir: string, name: string, file: string)
    requires name != [] && '/' !in name && '/' !in file
    ensures Candidate(dir + "/" + name + "/" + file) == name
  {
    var p := dir + "/" + name + "/" + file;
    var i := |dir| + 1 + |name|;
    assert p[i] == '/';
    assert forall k :: i < k < |p| ==> p[k] == file[k - i - 1];
    LastIndexIs(p, '/', i);
    var head := p[..i + 1];
    assert head == dir + "/" + name + "/";
    assert head[|head| - 2] == name[|name| - 1];
    assert SkipRight(head, |head|, IsSlash) == |head| - 1;
    var d := head[..|head| - 1];
    assert d == dir + "/" + name;
    assert forall k :: |dir| < k < |d| ==> d[k] == name[k - |dir| - 1];
    LastIndexIs(d, '/', |dir|);
    assert d[|dir| + 1..] == name;
  }

  /**
   * os.path.splitext(filename)[1]: from the last dot on, provided some
   * character before that dot is not a dot (so ".profile" has none).
   */
  function Extension(filename: string): (r: string)
    ensures r == [] || (r[0] == '.' && '.' !in r[1..] && EndsWith(filename, r))
  {
    var d := LastIndexOf(filename, '.');
    if d > 0 && exists k :: 0 <= k < d && filename[k] != '.' then
      assert forall k :: 1 <= k < |filename[d..]| ==> filename[d..][k] == filename[d + k];
      filename[d..]
    else []
  }

  lemma ExtensionExamples()
    ensures Extension("cv.PDF") == ".PDF"
    ensures Extension(".profile") == []
  {
    LastIndexIs("cv.PDF", '.', 2);
    assert "cv.PDF"[0] != '.';
    LastIndexIs(".profile", '.', 0);
  }

  // ---------------------------------------------------------------------------
  // Classifying one file
  // ---------------------------------------------------------------------------

  datatype Language = Japanese | English | Other

  /** The kanji of 履歴書 and 職務経歴書; any one of them marks a Japanese résumé. */
  const JapaneseChars: string := "履歴書職務経歴書"

  predicate HasJapaneseChar(filename: string) {
    exists k :: 0 <= k < |filename| && filename[k] in JapaneseChars
  }

  /**
   * The Japanese test ("japanese" in the lower-cased name, or one of the
   * kanji) is made first; only a name that fails it can be English
   * ("english" or "resume").
   */
  function LanguageOf(filename: string): (r: Language)
    ensures r == Japanese <==> Contains(Lower(filename), "japanese") || HasJapaneseChar(filename)
    ensures r == English <==> r != Japanese && (Contains(Lower(filename), "english") || Contains(Lower(filename), "resume"))
  {
    var lower := Lower(filename);
    if Contains(lower, "japanese") || HasJapaneseChar(filename) then Japanese
    else if Contains(lower, "english") || Contains(lower, "resume") then English
    else Other
  }

  /** A name with a kanji of 履歴書 is Japanese even when it also says "resume". */
  lemma JapaneseTakesPrecedence(rest: string)
    ensures LanguageOf("履歴書" + rest) == Japanese
  {
    assert ("履歴書" + rest)[0] == '履';
  }

  /** The lower-cased extension filed in one of the lists. */
  function Format(filename: string): string {
    Lower(Extension(filename))
  }

  // ---------------------------------------------------------------------------
  // identify_language_and_format
  // ---------------------------------------------------------------------------

  /** What one path contributes: its candidate, the language of its name and its format. */
  datatype Filing = Filing(name: string, lang: Language, format: string)

  function FilingOf(path: string): Filing {
    Filing(Candidate(path), LanguageOf(BaseName(path)), Format(BaseName(path)))
  }

  function Filings(files: seq<string>): (r: seq<Filing>)
    ensures |r| == |files|
  {
    if files == [] then [] else Filings(files[..|files| - 1]) + [FilingOf(files[|files| - 1])]
  }

  /** One candidate's entry: the formats of each kind of file, and how many files there are. */
  datatype Resumes = Resumes(japanese: seq<string>, english: seq<string>, others: seq<string>, fileCount: nat)

  const Fresh := Resumes([], [], [], 0)

  /**
   * The dict of candidates, keys in insertion order (the order in which
   * Python iterates it) beside the values.
   */
  datatype Candidates = Candidates(order: seq<string>, resumes: map<string, Resumes>)

  /** What a Python dict guarantees: the keys are listed once each, in order of insertion. */
  ghost predicate Valid(c: Candidates) {
    (forall i, j :: 0 <= i < j < |c.order| ==> c.order[i] != c.order[j])
    && (forall n :: n in c.resumes <==> n in c.order)
  }

  /** An entry with one more file, its format filed under its language. */
  function Filed(cur: Resumes, x: Filing): Resumes {
    var counted := cur.(fileCount := cur.fileCount + 1);
    match x.lang
    case Japanese => counted.(japanese := counted.japanese + [x.format])
    case English => counted.(english := counted.english + [x.format])
    case Other => counted.(others := counted.others + [x.format])
  }

  /** One file recorded: its candidate's entry is created on first sight, then updated. */
  function Record(c: Candidates, x: Filing): Candidates {
    var cur := if x.name in c.resumes then c.resumes[x.name] else Fresh;
    Candidates(if x.name in c.resumes then c.order else c.order + [x.name], c.resumes[x.name := Filed(cur, x)])
  }

  /** The dict built from the files' filings, one file at a time. */
  function Build(xs: seq<Filing>): Candidates {
    if xs == [] then Candidates([], map[])
    else Record(Build(xs[..|xs| - 1]), xs[|xs| - 1])
  }

  /** The dict identify_language_and_format builds from the paths. */
  function Classified(files: seq<string>): Candidates {
    Build(Filings(files))
  }

  /** identify_language_and_format */
  method IdentifyLanguageAndFormat(files: seq<string>) returns (c: Candidates)
    ensures c == Classified(files)
  {
    var order: seq<string> := [];
    var resumes: map<string, Resumes> := map[];
    var i := 0;
    while i < |files|
      invariant 0 <= i <= |files|
      invariant Candidates(order, resumes) == Classified(files[..i])
    {
      ghost var xs := Filings(files[..i]);
      assert files[..i + 1][..i] == files[..i];
      assert Filings(files[..i + 1]) == xs + [FilingOf(files[i])];
      assert (xs + [FilingOf(files[i])])[..|xs|] == xs;
      order, resumes := FileOne(order, resumes, files[i]);
      i := i + 1;
    }
    assert files[..|files|] == files;
    c := Candidates(order, resumes);
  }

  /** The body of identify_language_and_format's loop: one path filed under its candidate. */
  method FileOne(order: seq<string>, resumes: map<string, Resumes>, filePath: string)
    returns (order': seq<string>, resumes': map<string, Resumes>)
    ensures Candidates(order', resumes') == Record(Candidates(order, resumes), FilingOf(filePath))
  {
    var directory, filename := DirName(filePath), BaseName(filePath);
    var name := BaseName(directory);
    order', resumes' := order, resumes;
    if name !in resumes' {
      resumes' := resumes'[name := Fresh];
      order' := order' + [name];
    }
    var r := CountFile(resumes'[name], name, filename);
    if name !in resumes {
      Overwrite(resumes, name, Fresh, r);
    }
    resumes' := resumes'[name := r];
    RecordAt(order, resumes, FilingOf(filePath), name, filename, r);
  }

  /** A key written twice holds the second value only. */
  lemma Overwrite(m: map<string, Resumes>, k: string, v: Resumes, w: Resumes)
    ensures m[k := v][k := w] == m[k := w]
  {
  }

  /** Record spelled out for a path's candidate name and file name. */
  lemma RecordAt(order: seq<string>, resumes: map<string, Resumes>, x: Filing, name: string, filename: string, r: Resumes)
    requires x == Filing(name, LanguageOf(filename), Format(filename))
    requires r == Filed(if name in resumes then resumes[name] else Fresh, x)
    ensures Record(Candidates(order, resumes), x)
            == Candidates(if name in resumes then order else order + [name], resumes[name := r])
  {
  }

  /** One file added to its candidate's entry: counted, its format filed under its language. */
  method CountFile(cur: Resumes, name: string, filename: string) returns (r: Resumes)
    ensures r == Filed(cur, Filing(name, LanguageOf(filename), Format(filename)))
  {
    r := cur.(fileCount := cur.fileCount + 1);
    var fileFormat := Lower(Extension(filename));
    var lower := Lower(filename);
    if Contains(lower, "japanese") || HasJapaneseChar(filename) {
      r := r.(japanese := r.japanese + [fileFormat]);
    } else if Contains(lower, "english") || Contains(lower, "resume") {
      r := r.(english := r.english + [fileFormat]);
    } else {
      r := r.(others := r.others + [fileFormat]);
    }
  }

  /** How many files sit in the folder name. */
  function FileCount(xs: seq<Filing>, name: string): (r: nat)
    ensures r <= |xs|
  {
    if xs == [] then 0
    else FileCount(xs[..|xs| - 1], name) + (if xs[|xs| - 1].name == name then 1 else 0)
  }

  /** The formats, in file order, of name's files of one language. */
  function FormatsOf(xs: seq<Filing>, name: string, lang: Language): (r: seq<string>)
    ensures |r| <= |xs|
  {
    if xs == [] then []
    else
      var rest := FormatsOf(xs[..|xs| - 1], name, lang);
      var x := xs[|xs| - 1];
      if x.name == name && x.lang == lang then rest + [x.format] else rest
  }

  /** The entry a candidate's files produce, read off the files directly. */
  function EntryOf(xs: seq<Filing>, name: string): Resumes {
    Resumes(FormatsOf(xs, name, Japanese), FormatsOf(xs, name, English), FormatsOf(xs, name, Other),
            FileCount(xs, name))
  }

  predicate Named(xs: seq<Filing>, n: string) {
    exists k :: 0 <= k < |xs| && xs[k].name == n
  }

  /**
   * The dict is well formed; its keys are the folders of the files; each
   * candidate's entry holds the formats of exactly that candidate's files
   * of each language, in file order, and counts exactly its files.
   */
  lemma {:induction false} BuildEntries(xs: seq<Filing>)
    ensures var c := Build(xs);
            Valid(c)
            && (forall n :: n in c.resumes <==> Named(xs, n))
            && (forall n :: n in c.resumes ==> c.resumes[n] == EntryOf(xs, n))
  {
    if xs != [] {
      var ys := xs[..|xs| - 1];
      var x := xs[|xs| - 1];
      BuildEntries(ys);
      var prev := Build(ys);
      if x.name !in prev.resumes {
        NoEntryUnnamed(ys, x.name);
      }
      NamedLast(xs);
    }
  }

  /** The folders named by the files are those named before the last file, and the last file's. */
  lemma NamedLast(xs: seq<Filing>)
    requires xs != []
    ensures forall n :: Named(xs, n) <==> Named(xs[..|xs| - 1], n) || n == xs[|xs| - 1].name
  {
    var ys := xs[..|xs| - 1];
    forall n ensures Named(xs, n) <==> Named(ys, n) || n == xs[|xs| - 1].name
    {
      if Named(xs, n) && n != xs[|xs| - 1].name {
        var k :| 0 <= k < |xs| && xs[k].name == n;
        assert ys[k] == xs[k];
      }
      if Named(ys, n) {
        var k :| 0 <= k < |ys| && ys[k].name == n;
        assert xs[k] == ys[k];
      }
    }
  }

  /** A folder no file sits in has an entry with nothing in it. */
  lemma {:induction false} NoEntryUnnamed(xs: seq<Filing>, name: string)
    requires !Named(xs, name)
    ensures EntryOf(xs, name) == Fresh
  {
    if xs != [] {
      var ys := xs[..|xs| - 1];
      forall k | 0 <= k < |ys| ensures ys[k].name != name {
        assert ys[k] == xs[k];
      }
      NoEntryUnnamed(ys, name);
    }
  }

  /** Every file of a candidate is filed in exactly one of the three lists. */
  lemma {:induction false} EveryFileFiledOnce(xs: seq<Filing>, name: string)
    ensures var e := EntryOf(xs, name); |e.japanese| + |e.english| + |e.others| == e.fileCount
  {
    if xs != [] {
      EveryFileFiledOnce(xs[..|xs| - 1], name);
    }
  }

  /** A candidate has a format of one language exactly when one of its files is of that language. */
  lemma {:induction false} FormatsPresent(xs: seq<Filing>, name: string, lang: Language)
    ensures FormatsOf(xs, name, lang) != [] <==> exists k :: 0 <= k < |xs| && xs[k].name == name && xs[k].lang == lang
  {
    if xs != [] {
      var ys := xs[..|xs| - 1];
      FormatsPresent(ys, name, lang);
      if exists k :: 0 <= k < |xs| && xs[k].name == name && xs[k].lang == lang {
        var k :| 0 <= k < |xs| && xs[k].name == name && xs[k].lang == lang;
        if k < |ys| {
          assert ys[k] == xs[k];
        }
      }
      if exists k :: 0 <= k < |ys| && ys[k].name == name && ys[k].lang == lang {
        var k :| 0 <= k < |ys| && ys[k].name == name && ys[k].lang == lang;
        assert xs[k] == ys[k];
      }
    }
  }

  // ---------------------------------------------------------------------------
  // sorted(set(...)) on strings
  // ---------------------------------------------------------------------------

  /** Python's < on str: lexicographic by code point, a proper prefix first. */
  predicate Less(a: string, b: string)
    decreases |a|
  {
    if a == [] then b != []
    else if b == [] then false
    else if a[0] != b[0] then a[0] < b[0]
    else Less(a[1..], b[1..])
  }

  lemma {:induction false} LessIrreflexive(a: string)
    ensures !Less(a, a)
  {
    if a != [] {
      LessIrreflexive(a[1..]);
    }
  }

  lemma {:induction false} LessTotal(a: string, b: string)
    ensures a == b || Less(a, b) || Less(b, a)
    decreases |a|
  {
    if a != [] && b != [] && a[0] == b[0] {
      LessTotal(a[1..], b[1..]);
      if a[1..] == b[1..] {
        assert a == [a[0]] + a[1..] && b == [b[0]] + b[1..];
      }
    }
  }

  lemma {:induction false} LessTransitive(a: string, b: string, c: string)
    requires Less(a, b) && Less(b, c)
    ensures Less(a, c)
    decreases |a|
  {
    if a != [] && a[0] == b[0] && b[0] == c[0] {
      LessTransitive(a[1..], b[1..], c[1..]);
    }
  }

  /** Strictly increasing, so also free of duplicates. */
  ghost predicate Increasing(s: seq<string>) {
    forall i, j :: 0 <= i < j < |s| ==> Less(s[i], s[j])
  }

  /** x put in its place in an increasing sequence, unless it is already there. */
  function Insert(x: string, s: seq<string>): seq<string> {
    if s == [] then [x]
    else if x == s[0] then s
    else if Less(x, s[0]) then [x] + s
    else [s[0]] + Insert(x, s[1..])
  }

  /** Inserting keeps the sequence increasing, adds x and nothing else, and adds it only when missing. */
  lemma {:induction false} InsertSorted(x: string, s: seq<string>)
    requires Increasing(s)
    ensures var r := Insert(x, s);
            Increasing(r) && (forall y :: y in r <==> y == x || y in s) && |r| == (if x in s then |s| else |s| + 1)
  {
    if s == [] {
    } else if x == s[0] {
    } else if Less(x, s[0]) {
      forall j | 0 <= j < |s| ensures Less(x, s[j]) {
        if j > 0 { LessTransitive(x, s[0], s[j]); }
      }
      LessIrreflexive(x);
      assert x !in s;
    } else {
      LessTotal(x, s[0]);
      var rest := Insert(x, s[1..]);
      InsertSorted(x, s[1..]);
      forall j | 0 <= j < |rest| ensures Less(s[0], rest[j]) {
        assert rest[j] in rest;
        if rest[j] != x {
          assert rest[j] in s[1..];
          var m :| 0 <= m < |s[1..]| && s[1..][m] == rest[j];
          assert s[m + 1] == rest[j];
        }
      }
      assert forall y :: y in s <==> y == s[0] || y in s[1..];
      assert x in s <==> x in s[1..];
    }
  }

  /** sorted(list(set(xs))): the distinct values in increasing order. */
  function SortedSet(xs: seq<string>): seq<string> {
    if xs == [] then [] else Insert(xs[|xs| - 1], SortedSet(xs[..|xs| - 1]))
  }

  /** sorted(set(xs)) holds each value of xs once, in increasing order, and nothing else. */
  lemma {:induction false} SortedSetCorrect(xs: seq<string>)
    ensures var r := SortedSet(xs);
            Increasing(r) && (forall y :: y in r <==> y in xs) && |r| == |set y | y in xs|
  {
    if xs != [] {
      var prev := xs[..|xs| - 1];
      var x := xs[|xs| - 1];
      SortedSetCorrect(prev);
      var rest := SortedSet(prev);
      InsertSorted(x, rest);
      assert forall y :: y in xs <==> y in prev || y == x;
      assert (set y | y in xs) == (set y | y in prev) + {x};
      assert (set y | y in rest) == (set y | y in prev);
    }
  }

  // ---------------------------------------------------------------------------
  // generate_report
  // ---------------------------------------------------------------------------

  /** One row of the report: candidate, Japanese formats, English formats, "Many Files". */
  datatype Row = Row(candidate: string, japaneseFormats: string, englishFormats: string, manyFiles: string)

  predicate Reported(r: Resumes) {
    r.japanese != [] && r.english != []
  }

  function RowOf(name: string, r: Resumes): Row {
    Row(name, Join(", ", SortedSet(r.japanese)), Join(", ", SortedSet(r.english)),
        if r.fileCount > 5 then "Yes" else "No")
  }

  /** The rows for the candidates listed in order, skipping those without both kinds of résumé. */
  function ReportRows(order: seq<string>, resumes: map<string, Resumes>): (rows: seq<Row>)
    requires forall n :: n in order ==> n in resumes
    ensures |rows| <= |order|
    ensures forall k :: 0 <= k < |rows| ==>
              rows[k].candidate in order && Reported(resumes[rows[k].candidate])
              && rows[k] == RowOf(rows[k].candidate, resumes[rows[k].candidate])
  {
    if order == [] then []
    else
      var prev := order[..|order| - 1];
      var name := order[|order| - 1];
      assert forall n :: n in prev ==> n in order;
      var rest := ReportRows(prev, resumes);
      if Reported(resumes[name]) then rest + [RowOf(name, resumes[name])] else rest
  }

  /** generate_report, up to the rows it hands to the CSV writer. */
  method GenerateReport(c: Candidates) returns (rows: seq<Row>)
    requires Valid(c)
    ensures rows == ReportRows(c.order, c.resumes)
  {
    rows := [];
    var i := 0;
    while i < |c.order|
      invariant 0 <= i <= |c.order|
      invariant rows == ReportRows(c.order[..i], c.resumes)
    {
      var candidate := c.order[i];
      ReportRowsStep(c.order, c.resumes, i);
      rows := ReportCandidate(rows, candidate, c.resumes[candidate]);
      i := i + 1;
    }
    assert c.order[..|c.order|] == c.order;
  }

  /** One pass of generate_report's loop: the candidate's row is added when both kinds of résumé were found. */
  method ReportCandidate(rows: seq<Row>, candidate: string, resumes: Resumes) returns (rows': seq<Row>)
    ensures rows' == if Reported(resumes) then rows + [RowOf(candidate, resumes)] else rows
  {
    rows' := rows;
    if resumes.japanese != [] && resumes.english != [] {
      var jpFormats := Join(", ", SortedSet(resumes.japanese));
      var enFormats := Join(", ", SortedSet(resumes.english));
      var manyFiles := if resumes.fileCount > 5 then "Yes" else "No";
      rows' := rows + [Row(candidate, jpFormats, enFormats, manyFiles)];
    }
  }

  /** The rows for one more candidate: theirs is appended when they have both kinds of résumé. */
  lemma ReportRowsStep(order: seq<string>, resumes: map<string, Resumes>, i: nat)
    requires forall n :: n in order ==> n in resumes
    requires i < |order|
    ensures forall n :: n in order[..i] ==> n in resumes
    ensures forall n :: n in order[..i + 1] ==> n in resumes
    ensures ReportRows(order[..i + 1], resumes)
            == if Reported(resumes[order[i]]) then ReportRows(order[..i], resumes) + [RowOf(order[i], resumes[order[i]])]
               else ReportRows(order[..i], resumes)
  {
    assert order[..i + 1][..i] == order[..i];
  }

  /** A candidate has a row exactly when both kinds of résumé were found for them. */
  lemma {:induction false} ReportRowsMembers(order: seq<string>, resumes: map<string, Resumes>, name: string)
    requires forall n :: n in order ==> n in resumes
    ensures var rows := ReportRows(order, resumes);
            (exists k :: 0 <= k < |rows| && rows[k].candidate == name) <==> name in order && Reported(resumes[name])
  {
    if order != [] {
      var prev := order[..|order| - 1];
      var last := order[|order| - 1];
      assert forall n :: n in order <==> n in prev || n == last;
      assert forall n :: n in prev ==> n in resumes;
      ReportRowsMembers(prev, resumes, name);
      var rest := ReportRows(prev, resumes);
      if Reported(resumes[last]) {
        assert ReportRows(order, resumes) == rest + [RowOf(last, resumes[last])];
        RowAppended(rest, RowOf(last, resumes[last]), name);
      } else {
        assert ReportRows(order, resumes) == rest;
      }
    }
  }

  /** A row appended to the rows names its candidate, and the earlier rows keep naming theirs. */
  lemma RowAppended(rest: seq<Row>, row: Row, name: string)
    ensures (exists k :: 0 <= k < |rest + [row]| && (rest + [row])[k].candidate == name)
            <==> (exists k :: 0 <= k < |rest| && rest[k].candidate == name) || row.candidate == name
  {
    var rows := rest + [row];
    assert rows[|rest|] == row;
    if exists k :: 0 <= k < |rows| && rows[k].candidate == name {
      var k :| 0 <= k < |rows| && rows[k].candidate == name;
      if k < |rest| {
        assert rest[k] == rows[k];
      }
    }
    if exists k :: 0 <= k < |rest| && rest[k].candidate == name {
      var k :| 0 <= k < |rest| && rest[k].candidate == name;
      assert rows[k] == rest[k];
    }
  }

  /**
   * A candidate has a row exactly when one of the files in their folder is
   * a Japanese résumé and another an English one; the row lists each
   * kind's formats once each, in increasing order, and says "Yes" for
   * more than five files.
   */
  lemma ReportedCandidates(xs: seq<Filing>, name: string)
    ensures var c := Build(xs);
            Valid(c) &&
            var rows := ReportRows(c.order, c.resumes);
            ((exists k :: 0 <= k < |rows| && rows[k].candidate == name) <==>
              (exists k :: 0 <= k < |xs| && xs[k].name == name && xs[k].lang == Japanese)
              && (exists k :: 0 <= k < |xs| && xs[k].name == name && xs[k].lang == English))
            && forall k :: 0 <= k < |rows| && rows[k].candidate == name ==>
                 rows[k] == RowOf(name, EntryOf(xs, name))
                 && (rows[k].manyFiles == "Yes" <==> FileCount(xs, name) > 5)
  {
    BuildEntries(xs);
    var c := Build(xs);
    ReportRowsMembers(c.order, c.resumes, name);
    FormatsPresent(xs, name, Japanese);
    FormatsPresent(xs, name, English);
    if name in c.resumes {
      assert c.resumes[name] == EntryOf(xs, name);
    } else {
      assert !Named(xs, name);
    }
  }

  /** The formats shown in a row are the kind's formats, each once, in increasing order. */
  lemma RowFormats(name: string, r: Resumes)
    ensures var s := SortedSet(r.japanese);
            RowOf(name, r).japaneseFormats == Join(", ", s) && Increasing(s) && (forall y :: y in s <==> y in r.japanese)
  {
    SortedSetCorrect(r.japanese);
  }
}
