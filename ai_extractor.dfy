/**
 * The current language-model-assisted extractor (ai_extractor.py): the
 * regex-only "manual" extraction of skills, experience and education, the
 * repair of malformed model replies, and the merge of model fields over
 * the regex results.
 *
 * The company, role, job-date, bullet, institution and degree patterns are
 * backtracking regular expressions over free text; their matches are
 * inputs (a Patterns record). The section headers, the skill splitting and
 * cleaning, the sentence split and the education date pattern are written
 * out by hand.
 */
module AiExtractor {
  import opened Text
  import opened Json
  import opened Utils

  // ---------------------------------------------------------------------------
  // Section headers: "HEADER\s*:?\s*(.*?)(?=STOP|...|$)" with IGNORECASE|DOTALL
  // ---------------------------------------------------------------------------

  /** `$` without MULTILINE: the end of the text, or just before a final newline. */
  predicate AtEnd(t: string, k: nat) {
    k == |t| || (k + 1 == |t| && t[k] == '\n')
  }

  /** The look-ahead that ends a section: one of the stop words, or `$`. */
  predicate StopAt(lt: string, k: nat, stops: seq<string>) {
    AtEnd(lt, k) || exists i :: 0 <= i < |stops| && OccursAt(lt, stops[i], k)
  }

  /** Where the lazy `(.*?)` stops: the first k >= g at which the look-ahead holds. */
  function SectionEnd(lt: string, g: nat, stops: seq<string>): (e: nat)
    requires g <= |lt|
    ensures g <= e <= |lt|
    ensures StopAt(lt, e, stops)
    ensures forall k :: g <= k < e ==> !StopAt(lt, k, stops)
    decreases |lt| - g
  {
    if StopAt(lt, g, stops) then g else SectionEnd(lt, g + 1, stops)
  }

  /** After a header ending at h: `\s*:?\s*`, taken greedily. */
  function HeaderEnd(lt: string, h: nat): (g: nat)
    requires h <= |lt|
    ensures h <= g <= |lt|
    ensures forall k :: h <= k < g ==> IsSpace(lt[k]) || lt[k] == ':'
  {
    var a := SkipLeft(lt, h, IsSpace);
    var b := if a < |lt| && lt[a] == ':' then a + 1 else a;
    SkipLeft(lt, b, IsSpace)
  }

  /**
   * r is the text after a header ending at h: past whitespace and a colon,
   * up to the first place where a stop word or the end of the text follows.
   */
  ghost predicate IsSectionAfter(text: string, h: nat, stops: seq<string>, r: string)
    requires h <= |text|
  {
    exists g: nat, e: nat ::
      h <= g <= e <= |text| && r == text[g..e]
      && (forall k :: h <= k < g ==> IsSpace(Lower(text)[k]) || Lower(text)[k] == ':')
      && StopAt(Lower(text), e, stops)
      && (forall k :: g <= k < e ==> !StopAt(Lower(text), k, stops))
  }

  /** group(1) for a header that ends at h in the lower-cased text. */
  function SectionAfter(text: string, h: nat, stops: seq<string>): (r: string)
    requires h <= |text|
    ensures |r| <= |text|
    ensures IsSectionAfter(text, h, stops, r)
  {
    var lt := Lower(text);
    var g := HeaderEnd(lt, h);
    var e := SectionEnd(lt, g, stops);
    assert text[g..e] == text[g..e];
    text[g..e]
  }

  /** Index of the first alternative among ws that occurs at k, if any (alternation order). */
  function WordAt(lt: string, k: nat, ws: seq<string>): (r: Option<nat>)
    ensures r.Some? ==> r.value < |ws| && OccursAt(lt, ws[r.value], k)
    ensures r.None? ==> forall i :: 0 <= i < |ws| ==> !OccursAt(lt, ws[i], k)
  {
    if ws == [] then None
    else if OccursAt(lt, ws[0], k) then Some(0)
    else match WordAt(lt, k, ws[1..])
      case None => None
      case Some(i) => Some(i + 1)
  }

  /**
   * The end of the first match of `W1\s+(?:W2|...)` at or after k, searching
   * the lower-cased text: W1, at least one whitespace character, one of ws.
   */
  function TwoWordHeader(lt: string, w1: string, ws: seq<string>, k: nat): (r: Option<nat>)
    requires k <= |lt|
    ensures r.Some? ==> r.value <= |lt|
    decreases |lt| - k
  {
    var m := if OccursAt(lt, w1, k) then
               var s := SkipLeft(lt, k + |w1|, IsSpace);
               if s > k + |w1| then
                 match WordAt(lt, s, ws)
                 case Some(i) => Some(s + |ws[i]|)
                 case None => None
               else None
             else None;
    if m.Some? then m
    else if k == |lt| then None
    else TwoWordHeader(lt, w1, ws, k + 1)
  }

  // ---------------------------------------------------------------------------
  // Skills (ai_extractor.py:131-223)
  // ---------------------------------------------------------------------------

  const SkillStops: seq<string> := ["experience", "employment", "work", "education", "professional"]
  const CompetencyStops: seq<string> := ["experience", "employment", "work", "education"]

  /** The end of `SKILLS?` for a "skill" found at i: one past the optional 's'. */
  function SkillsHeaderEnd(lt: string, i: nat): (h: nat)
    requires i + 5 <= |lt|
    ensures h <= |lt|
  {
    if i + 5 < |lt| && lt[i + 5] == 's' then i + 6 else i + 5
  }

  /**
   * The skills section. The first pattern matches wherever "skill" occurs;
   * "TECHNICAL SKILLS" therefore never gets its turn, and "CORE
   * COMPETENCIES" is tried only when no "skill" occurs at all.
   */
  function SkillsSection(text: string): (r: string)
    ensures |r| <= |text|
    ensures var i := Find(Lower(text), "skill");
            i >= 0 ==> IsSectionAfter(text, SkillsHeaderEnd(Lower(text), i), SkillStops, r)
    ensures var lt := Lower(text);
            Find(lt, "skill") < 0 ==>
              match TwoWordHeader(lt, "core", ["competencies"], 0)
              case Some(h) => IsSectionAfter(text, h, CompetencyStops, r)
              case None => r == []
  {
    var lt := Lower(text);
    var i := Find(lt, "skill");
    if i >= 0 then
      SectionAfter(text, SkillsHeaderEnd(lt, i), SkillStops)
    else
      match TwoWordHeader(lt, "core", ["competencies"], 0)
      case Some(h) => SectionAfter(text, h, CompetencyStops)
      case None => ""
  }

  /** The bullet class [•●○◦▪▫■□▸▹►▻⦿⦾]. */
  predicate SkillBullet(c: char) {
    c in {'\U{2022}', '\U{25CF}', '\U{25CB}', '\U{25E6}', '\U{25AA}', '\U{25AB}', '\U{25A0}',
          '\U{25A1}', '\U{25B8}', '\U{25B9}', '\U{25BA}', '\U{25BB}', '\U{29BF}', '\U{29BE}'}
  }

  /** Every bullet character becomes a newline. */
  function BulletsToNewlines(s: string): (r: string)
    ensures |r| == |s|
    ensures forall i :: 0 <= i < |s| ==> r[i] == (if SkillBullet(s[i]) then '\n' else s[i])
  {
    seq(|s|, i requires 0 <= i < |s| => if SkillBullet(s[i]) then '\n' else s[i])
  }

  /** The dash class [-–—*]. */
  predicate SkillDash(c: char) {
    c == '-' || c == '\U{2013}' || c == '\U{2014}' || c == '*'
  }

  /** `^` under MULTILINE: the start of the text or just after a newline. */
  predicate LineStart(s: string, p: nat) {
    p == 0 || (0 < p <= |s| && s[p - 1] == '\n')
  }

  /**
   * re.sub(r'^\s*[-–—*]\s*', '\n', s, flags=re.MULTILINE), scanning from p:
   * at a line start whose first non-space character is a dash, the run of
   * whitespace, the dash and the whitespace after it become one newline.
   */
  function DashLines(s: string, p: nat): (r: string)
    requires p <= |s|
    decreases |s| - p
  {
    if p == |s| then []
    else
      var q := SkipLeft(s, p, IsSpace);
      if LineStart(s, p) && q < |s| && SkillDash(s[q]) then
        "\n" + DashLines(s, SkipLeft(s, q + 1, IsSpace))
      else [s[p]] + DashLines(s, p + 1)
  }

  /** The class [\n,;]. */
  predicate SkillSep(c: char) { c == '\n' || c == ',' || c == ';' }

  predicate NotSkillSep(c: char) { !SkillSep(c) }

  /** re.split(r'[\n,;]+', s): the pieces between maximal separator runs (possibly empty). */
  function SplitRuns(s: string): (r: seq<string>)
    ensures |r| >= 1
    ensures forall k, j :: 0 <= k < |r| && 0 <= j < |r[k]| ==> !SkillSep(r[k][j])
    ensures forall k :: 0 <= k < |r| ==> |r[k]| <= |s|
    decreases |s|
  {
    var i := SkipLeft(s, 0, NotSkillSep);
    if i == |s| then [s]
    else [s[..i]] + SplitRuns(s[SkipLeft(s, i, SkillSep)..])
  }

  /** re.sub(r'^\d+[\.)]\s*', '', s): a leading "12." or "3)" numbering and the spaces after it. */
  function DropNumbering(s: string): (r: string)
    ensures |r| <= |s|
    ensures r == s || (exists k :: 0 < k <= |s| && r == s[k..])
  {
    var k := SkipLeft(s, 0, IsDigit);
    if 0 < k < |s| && (s[k] == '.' || s[k] == ')') then s[SkipLeft(s, k + 1, IsSpace)..] else s
  }

  /** One split piece, stripped, de-numbered and with its whitespace collapsed. */
  function CleanSkill(piece: string): string {
    Collapse(DropNumbering(Strip(piece)))
  }

  const SkipWords: set<string> := {"skills", "experience", "education", "summary", "objective", "profile"}

  /** The filter a cleaned piece must pass to be kept as a skill. */
  predicate KeepSkill(c: string) {
    3 <= |c| <= 80 && !AllDigits(c) && Lower(c) !in SkipWords
  }

  /** The kept skills of the pieces, in order. */
  function KeptSkills(pieces: seq<string>): (r: seq<string>)
    ensures |r| <= |pieces|
    ensures forall x :: x in r ==> KeepSkill(x)
    decreases |pieces|
  {
    if pieces == [] then [] else KeptSkills(pieces[..|pieces| - 1]) + KeptSkill(pieces[|pieces| - 1])
  }

  /** One piece, cleaned, if it is kept. */
  function KeptSkill(piece: string): (r: seq<string>)
    ensures |r| <= 1
    ensures forall x :: x in r ==> KeepSkill(x)
  {
    var c := CleanSkill(piece);
    if KeepSkill(c) then [c] else []
  }

  /** The raw pieces of the skills section; none when there is no section. */
  function RawSkills(text: string): seq<string> {
    var st := SkillsSection(text);
    if st == [] then [] else SplitRuns(DashLines(BulletsToNewlines(st), 0))
  }

  const TechKeywords: seq<string> := [
    "software", "system", "tool", "platform", "framework", "language",
    "python", "java", "sql", "javascript", "c++", "c#", "ruby", "php",
    "aws", "azure", "docker", "kubernetes", "linux", "windows",
    "api", "database", "server", "cloud", "network", "security",
    "machine learning", "ai", "data", "analytics", "crm", "erp",
    "office", "excel", "powerpoint", "word", "adobe", "autocad",
    "testing", "qa", "devops", "agile", "scrum", "git", "ci/cd"]

  const SoftKeywords: seq<string> := [
    "communication", "leadership", "management", "teamwork", "collaboration",
    "problem solving", "analytical", "critical thinking", "creativity",
    "time management", "organization", "presentation", "negotiation",
    "interpersonal", "customer service", "conflict resolution", "adaptability",
    "decision making", "strategic", "planning", "mentoring", "coaching"]

  predicate HasKeyword(lower: string, kws: seq<string>) {
    exists i :: 0 <= i < |kws| && Contains(lower, kws[i])
  }

  /** re.search(r'[A-Z]{2,}|[0-9]|\.|/', s): two capitals in a row, a digit, a dot or a slash. */
  predicate HasHardMark(s: string) {
    exists i :: 0 <= i < |s| &&
      (IsDigit(s[i]) || s[i] == '.' || s[i] == '/' || (i + 1 < |s| && IsUpper(s[i]) && IsUpper(s[i + 1])))
  }

  /** A technical keyword wins over a soft one; with neither, the surface marks decide. */
  predicate IsHard(s: string) {
    HasKeyword(Lower(s), TechKeywords) || (!HasKeyword(Lower(s), SoftKeywords) && HasHardMark(s))
  }

  /** The skills classified hard, in order. */
  function HardOf(xs: seq<string>): (r: seq<string>)
    ensures |r| <= |xs|
    decreases |xs|
  {
    if xs == [] then []
    else HardOf(xs[..|xs| - 1]) + (if IsHard(xs[|xs| - 1]) then [xs[|xs| - 1]] else [])
  }

  /** The skills classified soft, in order. */
  function SoftOf(xs: seq<string>): (r: seq<string>)
    ensures |r| <= |xs|
    decreases |xs|
  {
    if xs == [] then []
    else SoftOf(xs[..|xs| - 1]) + (if IsHard(xs[|xs| - 1]) then [] else [xs[|xs| - 1]])
  }

  /** The cleaning loop of _extract_skills_regex: the pieces that survive, cleaned, in order. */
  method CleanSkills(raw: seq<string>) returns (all: seq<string>)
    ensures all == KeptSkills(raw)
  {
    all := [];
    var i := 0;
    while i < |raw|
      invariant 0 <= i <= |raw|
      invariant all == KeptSkills(raw[..i])
    {
      all := all + KeptSkill(raw[i]);
      KeptSkillsSnoc(raw, i);
      i := i + 1;
    }
    assert raw[..i] == raw;
  }

  lemma KeptSkillsSnoc(raw: seq<string>, i: nat)
    requires i < |raw|
    ensures KeptSkills(raw[..i + 1]) == KeptSkills(raw[..i]) + KeptSkill(raw[i])
  {
    assert raw[..i + 1][..i] == raw[..i];
  }

  /** The classification loop of _extract_skills_regex. */
  method ClassifySkills(considered: seq<string>) returns (hs: seq<string>, ss: seq<string>)
    ensures hs == HardOf(considered)
    ensures ss == SoftOf(considered)
  {
    hs, ss := [], [];
    var j := 0;
    while j < |considered|
      invariant 0 <= j <= |considered|
      invariant hs == HardOf(considered[..j])
      invariant ss == SoftOf(considered[..j])
    {
      var skill := considered[j];
      if IsHard(skill) {
        hs := hs + [skill];
      } else {
        ss := ss + [skill];
      }
      ClassifiedSnoc(considered, j);
      j := j + 1;
    }
    assert considered[..j] == considered;
  }

  lemma ClassifiedSnoc(xs: seq<string>, j: nat)
    requires j < |xs|
    ensures HardOf(xs[..j + 1]) == HardOf(xs[..j]) + (if IsHard(xs[j]) then [xs[j]] else [])
    ensures SoftOf(xs[..j + 1]) == SoftOf(xs[..j]) + (if IsHard(xs[j]) then [] else [xs[j]])
  {
    assert xs[..j + 1][..j] == xs[..j];
  }

  /**
   * _extract_skills_regex: the cleaned pieces that pass the filter, the
   * first 50 of them classified, at most 30 hard and 20 soft returned.
   */
  method ExtractSkillsRegex(text: string) returns (hard: seq<string>, soft: seq<string>)
    ensures hard == Take(HardOf(Take(KeptSkills(RawSkills(text)), 50)), 30)
    ensures soft == Take(SoftOf(Take(KeptSkills(RawSkills(text)), 50)), 20)
  {
    var all := CleanSkills(RawSkills(text));
    var hs, ss := ClassifySkills(Take(all, 50));
    hard := Take(hs, 30);
    soft := Take(ss, 20);
  }

  /** A skill is in the hard list iff it was considered and is hard; in the soft list iff considered and not hard. */
  lemma {:induction false} Classified(xs: seq<string>, x: string)
    ensures x in HardOf(xs) <==> x in xs && IsHard(x)
    ensures x in SoftOf(xs) <==> x in xs && !IsHard(x)
    decreases |xs|
  {
    if xs != [] {
      var init, last := xs[..|xs| - 1], xs[|xs| - 1];
      Classified(init, x);
      assert xs == init + [last];
      assert x in xs <==> x in init || x == last;
      var hard := IsHard(last);
      assert HardOf(xs) == HardOf(init) + (if hard then [last] else []);
      assert SoftOf(xs) == SoftOf(init) + (if hard then [] else [last]);
    }
  }

  /** Every skill returned passes the filter: 3 to 80 characters, not all digits, not a header word. */
  lemma ExtractedSkillsValid(text: string, x: string)
    requires x in Take(HardOf(Take(KeptSkills(RawSkills(text)), 50)), 30)
          || x in Take(SoftOf(Take(KeptSkills(RawSkills(text)), 50)), 20)
    ensures 3 <= |x| <= 80 && !AllDigits(x) && Lower(x) !in SkipWords
  {
    var all := KeptSkills(RawSkills(text));
    var c := Take(all, 50);
    Classified(c, x);
    assert x in c;
    assert x in all;
  }

  /** Classification splits the considered skills: each lands in exactly one list, with its multiplicity. */
  lemma {:induction false} SkillsPartition(xs: seq<string>)
    ensures multiset(HardOf(xs)) + multiset(SoftOf(xs)) == multiset(xs)
    decreases |xs|
  {
    if xs != [] {
      var init, last := xs[..|xs| - 1], xs[|xs| - 1];
      SkillsPartition(init);
      assert xs == init + [last];
      if IsHard(last) {
        assert HardOf(xs) == HardOf(init) + [last];
        assert SoftOf(xs) == SoftOf(init);
      } else {
        assert HardOf(xs) == HardOf(init);
        assert SoftOf(xs) == SoftOf(init) + [last];
      }
    }
  }

  // ---------------------------------------------------------------------------
  // Experience (ai_extractor.py:225-339)
  // ---------------------------------------------------------------------------

  /** A regex match that anchors an entry: where it starts and its group(1). */
  datatype Anchor = Anchor(start: nat, group: string)

  /**
   * The matches of the patterns the model takes as given, each a function of
   * the text searched:
   *   companies    finditer of the company patterns, the first that finds any
   *   role         group(1) of the role pattern
   *   jobDates     group(0) and end of the first job-date pattern that matches
   *   bullets      findall of the bullet pattern
   *   institutions finditer of the institution pattern
   *   degree       group(1) of the degree pattern
   *   dumpBreak    whether the company look-ahead of the text-dump split holds after the newline at a position
   *   dumpDate     group(1) of the text-dump date pattern
   */
  datatype Patterns = Patterns(
    companies: string -> seq<Anchor>,
    role: string -> Option<string>,
    jobDates: string -> Option<(string, nat)>,
    bullets: string -> seq<string>,
    institutions: string -> seq<Anchor>,
    degree: string -> Option<string>,
    dumpBreak: (string, nat) -> bool,
    dumpDate: string -> Option<string>)

  /** One job as the extractors emit it. */
  datatype Job = Job(company: string, role: string, dates: string, description: string)

  /** The job as a JSON object with exactly its four keys. */
  function JobValue(j: Job): (v: Value)
    ensures v.Obj? && v.fields.Keys == {"company", "role", "dates", "description"}
  {
    Obj(map["company" := Str(j.company), "role" := Str(j.role), "dates" := Str(j.dates),
            "description" := Str(j.description)])
  }

  const ExperienceStops: seq<string> := ["education", "skills", "certifications", "awards", "publications", "references"]
  const EmploymentStops: seq<string> := ["education", "skills", "certifications", "awards"]

  /**
   * The experience section. "(?:WORK\s+)?EXPERIENCE" matches at the first
   * "experience" (a "work" prefix does not change group(1)), so
   * "PROFESSIONAL EXPERIENCE" never gets its turn; "EMPLOYMENT HISTORY" is
   * tried only when "experience" does not occur.
   */
  function ExperienceSection(text: string): (r: string)
    ensures |r| <= |text|
  {
    var lt := Lower(text);
    var i := Find(lt, "experience");
    if i >= 0 then SectionAfter(text, i + 10, ExperienceStops)
    else
      match TwoWordHeader(lt, "employment", ["history"], 0)
      case Some(h) => SectionAfter(text, h, EmploymentStops)
      case None => ""
  }

  /** exp_text[start_i : start_{i+1}], or to the end for the last anchor. */
  function Chunk(exp: string, anchors: seq<Anchor>, i: nat): string
    requires i < |anchors|
  {
    Slice(exp, anchors[i].start, if i + 1 < |anchors| then anchors[i + 1].start else |exp|)
  }

  predicate SentenceEnd(c: char) { c == '.' || c == '!' || c == '?' }

  /** re.split(r'[.!?]\s+', s) from piece start a, scanning at p. */
  function SentencesFrom(s: string, a: nat, p: nat): (r: seq<string>)
    requires a <= p <= |s|
    ensures |r| >= 1
    decreases |s| - p
  {
    if p == |s| then [s[a..]]
    else if SentenceEnd(s[p]) && p + 1 < |s| && IsSpace(s[p + 1]) then
      var q := SkipLeft(s, p + 1, IsSpace);
      [s[a..p]] + SentencesFrom(s, q, q)
    else SentencesFrom(s, a, p + 1)
  }

  function StripAll(xs: seq<string>): (r: seq<string>)
    ensures |r| == |xs|
    ensures forall i :: 0 <= i < |xs| ==> r[i] == Strip(xs[i])
  {
    seq(|xs|, i requires 0 <= i < |xs| => Strip(xs[i]))
  }

  /** [s.strip() for s in xs if s.strip()] */
  function NonEmptyStripped(xs: seq<string>): (r: seq<string>)
    ensures forall x :: x in r ==> x != []
    decreases |xs|
  {
    if xs == [] then []
    else NonEmptyStripped(xs[..|xs| - 1]) + (if Strip(xs[|xs| - 1]) != [] then [Strip(xs[|xs| - 1])] else [])
  }

  /** The description: up to four bullets, else up to three sentences; collapsed, at most 400 characters. */
  function Description(descChunk: string, bullets: seq<string>): (r: string)
    ensures |r| <= 400
  {
    var d := if bullets != [] then Join(" ", StripAll(Take(bullets, 4)))
             else Join(". ", NonEmptyStripped(Take(SentencesFrom(descChunk, 0, 0), 3)));
    Take(Collapse(d), 400)
  }

  const NoPosition: string := "Position not specified"
  const NoDates: string := "Dates not specified"
  const NoDescription: string := "Description not available"

  /** The role: group(1) of the role pattern in the chunk, stripped, or the default. */
  function JobRole(chunk: string, pats: Patterns): string {
    match pats.role(chunk)
    case Some(g) => Strip(g)
    case None => NoPosition
  }

  /** The dates matched in the chunk, or the default. */
  function JobDates(chunk: string, pats: Patterns): string {
    match pats.jobDates(chunk)
    case Some(m) => m.0
    case None => NoDates
  }

  /**
   * The description: read from where the dates end (or 100 characters past
   * the company's length when there are none), 600 characters at most.
   */
  function JobDescription(chunk: string, company: string, pats: Patterns): (r: string)
    ensures 0 < |r| <= 400
  {
    var ds := match pats.jobDates(chunk)
              case Some(m) => m.1
              case None => |company| + 100;
    var descChunk := Slice(chunk, ds, ds + 600);
    var desc := Description(descChunk, pats.bullets(descChunk));
    if desc != [] then desc else NoDescription
  }

  /** The job built from anchor i of the experience section. */
  function JobAt(exp: string, anchors: seq<Anchor>, i: nat, pats: Patterns): Job
    requires i < |anchors|
  {
    var chunk := Chunk(exp, anchors, i);
    var company := Strip(anchors[i].group);
    Job(Take(company, 100), Take(JobRole(chunk, pats), 100), JobDates(chunk, pats),
        JobDescription(chunk, company, pats))
  }

  /** Each job: company and role capped at 100, a description of 1 to 400 characters, the defaults where nothing matched. */
  lemma JobAtShape(exp: string, anchors: seq<Anchor>, i: nat, pats: Patterns)
    requires i < |anchors|
    ensures var j := JobAt(exp, anchors, i, pats);
            && |j.company| <= 100 && |j.role| <= 100
            && j.company == Take(Strip(anchors[i].group), 100)
            && (pats.role(Chunk(exp, anchors, i)).None? ==> j.role == NoPosition)
            && (pats.jobDates(Chunk(exp, anchors, i)).None? ==> j.dates == NoDates)
            && 0 < |j.description| <= 400
  {
  }

  /** The company anchors of the experience section; none without a section. */
  function CompanyAnchors(exp: string, pats: Patterns): seq<Anchor> {
    if exp == [] then [] else pats.companies(exp)
  }

  /** The jobs of the first n company anchors, in order. */
  function JobsUpTo(exp: string, anchors: seq<Anchor>, pats: Patterns, n: nat): (r: seq<Job>)
    requires n <= |anchors|
    ensures |r| == n
  {
    if n == 0 then [] else JobsUpTo(exp, anchors, pats, n - 1) + [JobAt(exp, anchors, n - 1, pats)]
  }

  /** The jobs _extract_experience_regex returns. */
  function ExperienceJobs(text: string, pats: Patterns): seq<Job> {
    var exp := ExperienceSection(text);
    var anchors := CompanyAnchors(exp, pats);
    JobsUpTo(exp, anchors, pats, |anchors|)
  }

  /** The job-building loop over the company anchors. */
  method JobsFromAnchors(exp: string, anchors: seq<Anchor>, pats: Patterns) returns (jobs: seq<Job>)
    ensures jobs == JobsUpTo(exp, anchors, pats, |anchors|)
  {
    jobs := [];
    var i := 0;
    while i < |anchors|
      invariant 0 <= i <= |anchors|
      invariant jobs == JobsUpTo(exp, anchors, pats, i)
    {
      jobs := jobs + [JobAt(exp, anchors, i, pats)];
      JobsUpToStep(exp, anchors, pats, i);
      i := i + 1;
    }
  }

  lemma JobsUpToStep(exp: string, anchors: seq<Anchor>, pats: Patterns, i: nat)
    requires i < |anchors|
    ensures JobsUpTo(exp, anchors, pats, i + 1) == JobsUpTo(exp, anchors, pats, i) + [JobAt(exp, anchors, i, pats)]
  {
  }

  /** _extract_experience_regex: one job per company anchor, in order. */
  method ExtractExperienceRegex(text: string, pats: Patterns) returns (jobs: seq<Job>)
    ensures jobs == ExperienceJobs(text, pats)
  {
    var exp := ExperienceSection(text);
    jobs := JobsFromAnchors(exp, CompanyAnchors(exp, pats), pats);
  }

  /** Anchors in the order finditer reports them, all inside the text. */
  predicate Ordered(anchors: seq<Anchor>, len: nat) {
    forall i :: 0 <= i < |anchors| ==>
      anchors[i].start <= len && (i + 1 < |anchors| ==> anchors[i].start <= anchors[i + 1].start)
  }

  /** The chunks from anchor i on, concatenated. */
  function ChunksFrom(exp: string, anchors: seq<Anchor>, i: nat): string
    requires i <= |anchors|
    decreases |anchors| - i
  {
    if i == |anchors| then [] else Chunk(exp, anchors, i) + ChunksFrom(exp, anchors, i + 1)
  }

  /** The job chunks tile the section: from the first company anchor to the end, nothing lost or repeated. */
  lemma {:induction false} ChunksTile(exp: string, anchors: seq<Anchor>, i: nat)
    requires Ordered(anchors, |exp|)
    requires i < |anchors|
    ensures ChunksFrom(exp, anchors, i) == exp[anchors[i].start..]
    decreases |anchors| - i
  {
    if i + 1 < |anchors| {
      ChunksTile(exp, anchors, i + 1);
      var a, b := anchors[i].start, anchors[i + 1].start;
      assert Chunk(exp, anchors, i) == exp[a..b];
      assert exp[a..] == exp[a..b] + exp[b..];
    } else {
      assert Chunk(exp, anchors, i) == exp[anchors[i].start..];
    }
  }

  // ---------------------------------------------------------------------------
  // Education (ai_extractor.py:341-410)
  // ---------------------------------------------------------------------------

  const EducationStops: seq<string> := ["experience", "employment", "work", "skills", "certifications",
                                        "awards", "publications", "references", "projects"]
  const AcademicWords: seq<string> := ["background", "qualifications", "credentials", "history"]
  const AcademicStops: seq<string> := ["experience", "employment", "skills"]
  const QualificationStops: seq<string> := ["experience", "employment", "skills", "certifications"]

  /**
   * The education section. "EDUCATION(?:AL)?\s*(?:BACKGROUND|HISTORY)?" matches
   * at the first "education", so "TRAINING AND EDUCATION" never gets its
   * turn; then "ACADEMIC <word>", then "QUALIFICATION(S)".
   */
  function EducationSection(text: string): (r: string)
    ensures |r| <= |text|
  {
    var lt := Lower(text);
    var i := Find(lt, "education");
    if i >= 0 then
      var h := i + 9;
      var h1 := if OccursAt(lt, "al", h) then h + 2 else h;
      var a := SkipLeft(lt, h1, IsSpace);
      var b := if OccursAt(lt, "background", a) then a + 10
               else if OccursAt(lt, "history", a) then a + 7
               else a;
      SectionAfter(text, b, EducationStops)
    else
      match TwoWordHeader(lt, "academic", AcademicWords, 0)
      case Some(h) => SectionAfter(text, h, AcademicStops)
      case None =>
        var q := Find(lt, "qualification");
        if q >= 0 then
          var h := q + 13;
          SectionAfter(text, if h < |lt| && lt[h] == 's' then h + 1 else h, QualificationStops)
        else ""
  }

  /**
   * The text the institutions are searched in: the section, or without one
   * the last 2000 characters of the whole text when an institution occurs
   * anywhere in it; None when neither.
   */
  function EducationText(text: string, pats: Patterns): (r: Option<string>)
  {
    var sec := EducationSection(text);
    if sec != [] then Some(sec)
    else if pats.institutions(text) != [] then Some(if |text| > 2000 then text[|text| - 2000..] else text)
    else None
  }

  predicate YearDash(c: char) { c == '-' || c == '\U{2013}' || c == '\U{2014}' }

  predicate FourDigitsAt(s: string, p: nat) {
    p + 4 <= |s| && AllDigits(s[p..p + 4])
  }

  /** The end of a match of `\d{4}\s*[-–—]\s*\d{4}` starting at p, if one starts there. */
  function YearRangeAt(s: string, p: nat): (r: Option<nat>)
    ensures r.Some? ==> p + 9 <= r.value <= |s| && FourDigitsAt(s, p)
  {
    if !FourDigitsAt(s, p) then None
    else
      var a := SkipLeft(s, p + 4, IsSpace);
      if a < |s| && YearDash(s[a]) then
        var b := SkipLeft(s, a + 1, IsSpace);
        if FourDigitsAt(s, b) then Some(b + 4) else None
      else None
  }

  /** re.search for the year range from position p: the matched text. */
  function YearRangeFrom(s: string, p: nat): (r: Option<string>)
    requires p <= |s|
    ensures r.Some? ==> |r.value| >= 9 && IsDigit(r.value[0])
    decreases |s| - p
  {
    match YearRangeAt(s, p)
    case Some(e) =>
      assert s[p..e][0] == s[p..p + 4][0];
      Some(s[p..e])
    case None => if p == |s| then None else YearRangeFrom(s, p + 1)
  }

  /** One education entry as emitted by the regex extractor. */
  datatype Education = Education(institution: string, degree: string, dates: string)

  function EducationValue(e: Education): (v: Value)
    ensures v.Obj? && v.fields.Keys == {"institution", "degree", "dates"}
  {
    Obj(map["institution" := Str(e.institution), "degree" := Str(e.degree), "dates" := Str(e.dates)])
  }

  const NoDegree: string := "Degree not specified"

  /** edu_text[start_i : start_{i+1}], or at most 300 characters for the last anchor. */
  function EducationChunk(edu: string, anchors: seq<Anchor>, i: nat): string
    requires i < |anchors|
  {
    var start := anchors[i].start;
    Slice(edu, start, if i + 1 < |anchors| then anchors[i + 1].start
                      else if start + 300 < |edu| then start + 300 else |edu|)
  }

  /** The entry built from institution anchor i. */
  function EducationAt(edu: string, anchors: seq<Anchor>, i: nat, pats: Patterns): Education
    requires i < |anchors|
  {
    var chunk := EducationChunk(edu, anchors, i);
    var degree := match pats.degree(chunk)
                  case Some(g) => Strip(g)
                  case None => NoDegree;
    var dates := match YearRangeFrom(chunk, 0)
                 case Some(d) => d
                 case None => NoDates;
    Education(Take(Strip(anchors[i].group), 150), Take(degree, 150), dates)
  }

  /** Each entry: institution and degree capped at 150, the default degree where none matched, dates a year range or the default. */
  lemma EducationAtShape(edu: string, anchors: seq<Anchor>, i: nat, pats: Patterns)
    requires i < |anchors|
    ensures var e := EducationAt(edu, anchors, i, pats);
            && |e.institution| <= 150 && |e.degree| <= 150
            && e.institution == Take(Strip(anchors[i].group), 150)
            && (pats.degree(EducationChunk(edu, anchors, i)).None? ==> e.degree == NoDegree)
            && (e.dates == NoDates || (|e.dates| >= 9 && IsDigit(e.dates[0])))
  {
  }

  /** The entries of the first n institution anchors, in order. */
  function EducationsUpTo(edu: string, anchors: seq<Anchor>, pats: Patterns, n: nat): (r: seq<Education>)
    requires n <= |anchors|
    ensures |r| == n
  {
    if n == 0 then [] else EducationsUpTo(edu, anchors, pats, n - 1) + [EducationAt(edu, anchors, n - 1, pats)]
  }

  /** The entries _extract_education_regex returns. */
  function EducationEntries(text: string, pats: Patterns): seq<Education> {
    match EducationText(text, pats)
    case None => []
    case Some(edu) => EducationsUpTo(edu, pats.institutions(edu), pats, |pats.institutions(edu)|)
  }

  /** _extract_education_regex: one entry per institution anchor, in order. */
  method ExtractEducationRegex(text: string, pats: Patterns) returns (entries: seq<Education>)
    ensures entries == EducationEntries(text, pats)
  {
    entries := [];
    var et := EducationText(text, pats);
    if et.None? {
      return;
    }
    var edu := et.value;
    var anchors := pats.institutions(edu);
    var i := 0;
    while i < |anchors|
      invariant 0 <= i <= |anchors|
      invariant entries == EducationsUpTo(edu, anchors, pats, i)
    {
      entries := entries + [EducationAt(edu, anchors, i, pats)];
      EducationsUpToStep(edu, anchors, pats, i);
      i := i + 1;
    }
  }

  lemma EducationsUpToStep(edu: string, anchors: seq<Anchor>, pats: Patterns, i: nat)
    requires i < |anchors|
    ensures EducationsUpTo(edu, anchors, pats, i + 1) == EducationsUpTo(edu, anchors, pats, i) + [EducationAt(edu, anchors, i, pats)]
  {
  }

  /** Without an education header, an institution anywhere sends the search to the last 2000 characters. */
  lemma EducationFallback(text: string, pats: Patterns)
    requires EducationSection(text) == []
    ensures pats.institutions(text) == [] ==> EducationText(text, pats).None?
    ensures pats.institutions(text) != [] ==>
              EducationText(text, pats) == Some(text[|text| - (if |text| > 2000 then 2000 else |text|)..])
  {
  }

  // ---------------------------------------------------------------------------
  // Repairing malformed model replies (ai_extractor.py:562-696)
  // ---------------------------------------------------------------------------

  /** The class [•\-–—*â€¢◦▪▫] deleted from a skills string (â, € and ¢ are members in their own right). */
  predicate MarkChar(c: char) {
    c in {'\U{2022}', '-', '\U{2013}', '\U{2014}', '*', '\U{00E2}', '\U{20AC}', '\U{00A2}',
          '\U{25E6}', '\U{25AA}', '\U{25AB}'}
  }

  predicate NotMarkChar(c: char) { !MarkChar(c) }

  predicate NoMark(s: string) {
    forall k :: 0 <= k < |s| ==> !MarkChar(s[k])
  }

  /** The characters that strip('•\-–—*◦▪▫') removes from the ends of a list item; the backslash is one of them. */
  predicate ItemEdgeChar(c: char) {
    c in {'\U{2022}', '\\', '-', '\U{2013}', '\U{2014}', '*', '\U{25E6}', '\U{25AA}', '\U{25AB}'}
  }

  /** Where the match of `^\d+\.?\s*` ends (0 when the text does not start with a digit). */
  function NumberEnd(s: string): (k: nat)
    ensures k <= |s|
  {
    var d := SkipLeft(s, 0, IsDigit);
    if d == 0 then 0
    else SkipLeft(s, if d < |s| && s[d] == '.' then d + 1 else d, IsSpace)
  }

  /** re.sub(r'^\d+\.?\s*', '', s) */
  function DropNumber(s: string): string {
    s[NumberEnd(s)..]
  }

  /** The length filter both branches apply: more than 2 and fewer than 100 characters. */
  predicate KeepItem(c: string) { 2 < |c| < 100 }

  /** The string-branch items of the pieces, in order. */
  function TextItems(pieces: seq<string>): (r: seq<string>)
    ensures forall x :: x in r ==> KeepItem(x)
    decreases |pieces|
  {
    if pieces == [] then [] else TextItems(pieces[..|pieces| - 1]) + TextItem(pieces[|pieces| - 1])
  }

  /** One piece, stripped and de-numbered, if it is kept. */
  function TextItem(piece: string): (r: seq<string>)
    ensures |r| <= 1
    ensures forall x :: x in r ==> KeepItem(x)
  {
    var c := DropNumber(Strip(piece));
    if KeepItem(c) then [c] else []
  }

  /** A skills field that arrived as one string: marks deleted, split on [\n,;]+, each piece cleaned and filtered. */
  function SkillTextItems(raw: string): seq<string> {
    TextItems(SplitRuns(Filter(raw, NotMarkChar)))
  }

  /** The list-branch item a value yields: strings only, stripped, edge marks removed, de-numbered, filtered. */
  function ListItem(v: Value): (r: Option<string>)
    ensures r.Some? ==> v.Str? && KeepItem(r.value)
  {
    if v.Str? then
      var c := DropNumber(StripBy(Strip(v.s), ItemEdgeChar));
      if KeepItem(c) then Some(c) else None
    else None
  }

  /** How many of the values are strings. */
  function StrCount(items: seq<Value>): nat
    decreases |items|
  {
    if items == [] then 0 else StrCount(items[..|items| - 1]) + (if items[|items| - 1].Str? then 1 else 0)
  }

  /** How many of the values are dictionaries. */
  function ObjCount(items: seq<Value>): nat
    decreases |items|
  {
    if items == [] then 0 else ObjCount(items[..|items| - 1]) + (if items[|items| - 1].Obj? then 1 else 0)
  }

  /** The list-branch items, in order. */
  function ListItems(items: seq<Value>): (r: seq<string>)
    ensures forall x :: x in r ==> KeepItem(x)
    ensures |r| <= StrCount(items)
    decreases |items|
  {
    if items == [] then []
    else
      var o := ListItem(items[|items| - 1]);
      ListItems(items[..|items| - 1]) + (if o.Some? then [o.value] else [])
  }

  predicate NotNewlineChar(c: char) { c != '\n' }

  /** s.split('\n') */
  function SplitLines(s: string): (r: seq<string>)
    ensures |r| >= 1
    decreases |s|
  {
    var i := SkipLeft(s, 0, NotNewlineChar);
    if i == |s| then [s] else [s[..i]] + SplitLines(s[i + 1..])
  }

  /** re.split at the newlines after which the company look-ahead holds, from piece start a, scanning at p. */
  function DumpSections(s: string, brk: (string, nat) -> bool, a: nat, p: nat): (r: seq<string>)
    requires a <= p <= |s|
    ensures |r| >= 1
    decreases |s| - p
  {
    if p == |s| then [s[a..]]
    else if s[p] == '\n' && brk(s, p) then [s[a..p]] + DumpSections(s, brk, p + 1, p + 1)
    else DumpSections(s, brk, a, p + 1)
  }

  const RoleWords: seq<string> := ["engineer", "manager", "developer", "analyst", "specialist", "executive"]

  /** The first line naming a role, stripped. */
  function FirstRoleLine(ls: seq<string>): (r: Option<string>)
    decreases |ls|
  {
    if ls == [] then None
    else if HasKeyword(Lower(ls[0]), RoleWords) then Some(Strip(ls[0]))
    else FirstRoleLine(ls[1..])
  }

  /** A job read from one section of a text dump: first line as company, a role among lines 2 to 4. */
  function DumpJob(section: string, pats: Patterns): Job {
    var lines := SplitLines(section);
    var role := match FirstRoleLine(lines[1..if |lines| < 4 then |lines| else 4])
                case Some(r) => r
                case None => "See Description";
    var dates := match pats.dumpDate(section)
                 case Some(d) => d
                 case None => "N/A";
    Job(Take(Strip(lines[0]), 100), Take(role, 100), dates, Take(section, 400))
  }

  /** Sections whose stripped text is shorter than 20 characters are skipped. */
  predicate LongSection(section: string) { |Strip(section)| >= 20 }

  /** The jobs of the long sections, in order. */
  function DumpJobs(sections: seq<string>, pats: Patterns): (r: seq<Job>)
    ensures |r| <= |sections|
    decreases |sections|
  {
    if sections == [] then []
    else
      var sec := sections[|sections| - 1];
      DumpJobs(sections[..|sections| - 1], pats) + (if LongSection(sec) then [DumpJob(sec, pats)] else [])
  }

  const ParseFailed: string := "Parse Failed - Manual Review Needed"

  /** The job that stands for a dump nothing could be read from. */
  function FailedJob(raw: string): Job {
    Job(ParseFailed, "Multiple Roles", "See Description", Take(raw, 500))
  }

  /** working_experience given as a string: the jobs read from it, or the one sentinel job. */
  function JobsFromDump(raw: string, pats: Patterns): seq<Job> {
    var js := DumpJobs(DumpSections(raw, pats.dumpBreak, 0, 0), pats);
    if js == [] then [FailedJob(raw)] else js
  }

  /** A job object from the model, with every key present and the caps applied. */
  function ValidJob(m: Dict): (j: Job) {
    Job(Take(PyStr(GetOr(m, "company", Str("Unknown"))), 100),
        Take(PyStr(GetOr(m, "role", Str("N/A"))), 100),
        PyStr(GetOr(m, "dates", Str("N/A"))),
        Take(PyStr(GetOr(m, "description", Str(""))), 500))
  }

  /** The dictionaries of the list as jobs; anything else is dropped. */
  function ValidJobs(items: seq<Value>): (r: seq<Job>)
    ensures |r| == ObjCount(items)
    decreases |items|
  {
    if items == [] then []
    else
      var v := items[|items| - 1];
      ValidJobs(items[..|items| - 1]) + (if v.Obj? then [ValidJob(v.fields)] else [])
  }

  /** An education object from the model, with every key present and the caps applied. */
  function ValidEducation(m: Dict): Education {
    Education(Take(PyStr(GetOr(m, "institution", Str("Unknown"))), 150),
              Take(PyStr(GetOr(m, "degree", Str("N/A"))), 150),
              PyStr(GetOr(m, "dates", Str("N/A"))))
  }

  function ValidEducations(items: seq<Value>): (r: seq<Education>)
    ensures |r| == ObjCount(items)
    decreases |items|
  {
    if items == [] then []
    else
      var v := items[|items| - 1];
      ValidEducations(items[..|items| - 1]) + (if v.Obj? then [ValidEducation(v.fields)] else [])
  }

  /** The single entry an education string becomes. */
  function EducationTextEntry(s: string): (v: Value)
    ensures v.Obj? && v.fields.Keys == {"institution", "degree", "dates", "description"}
  {
    Obj(map["institution" := Str("See Description"), "degree" := Str("Multiple Degrees"),
            "dates" := Str("N/A"), "description" := Str(Take(s, 300))])
  }

  function JobValues(js: seq<Job>): (r: seq<Value>)
    ensures |r| == |js|
    ensures forall i :: 0 <= i < |js| ==> r[i] == JobValue(js[i])
  {
    seq(|js|, i requires 0 <= i < |js| => JobValue(js[i]))
  }

  function EducationValues(es: seq<Education>): (r: seq<Value>)
    ensures |r| == |es|
    ensures forall i :: 0 <= i < |es| ==> r[i] == EducationValue(es[i])
  {
    seq(|es|, i requires 0 <= i < |es| => EducationValue(es[i]))
  }

  const SkillFields: seq<string> := ["hard_skills", "soft_skills", "skills"]

  /** One skills field repaired: a string is split into items, a list has its items cleaned, anything else is left. */
  function FixedSkillField(d: Dict, f: string): Dict {
    if f !in d then d
    else match d[f]
      case Str(s) => d[f := StrList(SkillTextItems(s))]
      case List(xs) => d[f := StrList(ListItems(xs))]
      case _ => d
  }

  /** The skills fields fs repaired in order. */
  function FixedSkills(d: Dict, fs: seq<string>): Dict
    decreases |fs|
  {
    if fs == [] then d else FixedSkillField(FixedSkills(d, fs[..|fs| - 1]), fs[|fs| - 1])
  }

  lemma FixedSkillsSnoc(d: Dict, fs: seq<string>, i: nat)
    requires i < |fs|
    ensures FixedSkills(d, fs[..i + 1]) == FixedSkillField(FixedSkills(d, fs[..i]), fs[i])
  {
    assert fs[..i + 1][..i] == fs[..i];
  }

  function FixedExperience(d: Dict, pats: Patterns): Dict {
    if "working_experience" !in d then d
    else match d["working_experience"]
      case Str(s) => d["working_experience" := List(JobValues(JobsFromDump(s, pats)))]
      case List(xs) => d["working_experience" := List(JobValues(ValidJobs(xs)))]
      case _ => d
  }

  function FixedEducation(d: Dict): Dict {
    if "education" !in d then d
    else match d["education"]
      case Str(s) => d["education" := List([EducationTextEntry(s)])]
      case List(xs) => d["education" := List(EducationValues(ValidEducations(xs)))]
      case _ => d
  }

  /** What _fix_malformed_lists makes of a reply. */
  function FixedData(d: Dict, pats: Patterns): Dict {
    FixedEducation(FixedExperience(FixedSkills(d, SkillFields), pats))
  }

  /** The string-branch loop over the split pieces. */
  method CleanSkillText(raw: string) returns (items: seq<string>)
    ensures items == SkillTextItems(raw)
  {
    items := CleanSkillPieces(SplitRuns(Filter(raw, NotMarkChar)));
  }

  /** The cleaning loop over the split pieces. */
  method CleanSkillPieces(pieces: seq<string>) returns (items: seq<string>)
    ensures items == TextItems(pieces)
  {
    items := [];
    var i := 0;
    while i < |pieces|
      invariant 0 <= i <= |pieces|
      invariant items == TextItems(pieces[..i])
    {
      items := items + TextItem(pieces[i]);
      TextItemsSnoc(pieces, i);
      i := i + 1;
    }
    assert pieces[..i] == pieces;
  }

  lemma TextItemsSnoc(pieces: seq<string>, i: nat)
    requires i < |pieces|
    ensures TextItems(pieces[..i + 1]) == TextItems(pieces[..i]) + TextItem(pieces[i])
  {
    assert pieces[..i + 1][..i] == pieces[..i];
  }

  /** The list-branch loop over the items. */
  method CleanSkillList(xs: seq<Value>) returns (items: seq<string>)
    ensures items == ListItems(xs)
  {
    items := [];
    var i := 0;
    while i < |xs|
      invariant 0 <= i <= |xs|
      invariant items == ListItems(xs[..i])
    {
      var o := ListItem(xs[i]);
      if o.Some? {
        items := items + [o.value];
      }
      ListItemsSnoc(xs, i);
      i := i + 1;
    }
    assert xs[..i] == xs;
  }

  lemma ListItemsSnoc(xs: seq<Value>, i: nat)
    requires i < |xs|
    ensures ListItems(xs[..i + 1]) ==
            ListItems(xs[..i]) + (if ListItem(xs[i]).Some? then [ListItem(xs[i]).value] else [])
  {
    assert xs[..i + 1][..i] == xs[..i];
  }

  /** The emergency loop over the sections of a text dump. */
  method JobsFromSections(sections: seq<string>, pats: Patterns) returns (jobs: seq<Job>)
    ensures jobs == DumpJobs(sections, pats)
  {
    jobs := [];
    var i := 0;
    while i < |sections|
      invariant 0 <= i <= |sections|
      invariant jobs == DumpJobs(sections[..i], pats)
    {
      if LongSection(sections[i]) {
        jobs := jobs + [DumpJob(sections[i], pats)];
      }
      DumpJobsSnoc(sections, pats, i);
      i := i + 1;
    }
    assert sections[..i] == sections;
  }

  lemma DumpJobsSnoc(sections: seq<string>, pats: Patterns, i: nat)
    requires i < |sections|
    ensures DumpJobs(sections[..i + 1], pats) ==
            DumpJobs(sections[..i], pats) + (if LongSection(sections[i]) then [DumpJob(sections[i], pats)] else [])
  {
    assert sections[..i + 1][..i] == sections[..i];
  }

  /** The validation loop over a job list. */
  method ValidateJobs(xs: seq<Value>) returns (jobs: seq<Job>)
    ensures jobs == ValidJobs(xs)
  {
    jobs := [];
    var i := 0;
    while i < |xs|
      invariant 0 <= i <= |xs|
      invariant jobs == ValidJobs(xs[..i])
    {
      if xs[i].Obj? {
        jobs := jobs + [ValidJob(xs[i].fields)];
      }
      ValidJobsSnoc(xs, i);
      i := i + 1;
    }
    assert xs[..i] == xs;
  }

  lemma ValidJobsSnoc(xs: seq<Value>, i: nat)
    requires i < |xs|
    ensures ValidJobs(xs[..i + 1]) == ValidJobs(xs[..i]) + (if xs[i].Obj? then [ValidJob(xs[i].fields)] else [])
  {
    assert xs[..i + 1][..i] == xs[..i];
  }

  /** The validation loop over an education list. */
  method ValidateEducations(xs: seq<Value>) returns (es: seq<Education>)
    ensures es == ValidEducations(xs)
  {
    es := [];
    var i := 0;
    while i < |xs|
      invariant 0 <= i <= |xs|
      invariant es == ValidEducations(xs[..i])
    {
      if xs[i].Obj? {
        es := es + [ValidEducation(xs[i].fields)];
      }
      ValidEducationsSnoc(xs, i);
      i := i + 1;
    }
    assert xs[..i] == xs;
  }

  lemma ValidEducationsSnoc(xs: seq<Value>, i: nat)
    requires i < |xs|
    ensures ValidEducations(xs[..i + 1]) ==
            ValidEducations(xs[..i]) + (if xs[i].Obj? then [ValidEducation(xs[i].fields)] else [])
  {
    assert xs[..i + 1][..i] == xs[..i];
  }

  /** The skills stage of _fix_malformed_lists: each skills field rewritten in turn. */
  method RepairSkills(data: Dict) returns (r: Dict)
    ensures r == FixedSkills(data, SkillFields)
  {
    r := data;
    var i := 0;
    while i < |SkillFields|
      invariant 0 <= i <= |SkillFields|
      invariant r == FixedSkills(data, SkillFields[..i])
    {
      r := RepairSkillField(r, SkillFields[i]);
      FixedSkillsSnoc(data, SkillFields, i);
      i := i + 1;
    }
    assert SkillFields[..i] == SkillFields;
  }

  /** One skills field: a string split and cleaned, a list cleaned item by item, anything else kept. */
  method RepairSkillField(d: Dict, f: string) returns (r: Dict)
    ensures r == FixedSkillField(d, f)
  {
    r := d;
    if f in r {
      match r[f]
      case Str(s) =>
        var items := CleanSkillText(s);
        r := r[f := StrList(items)];
      case List(xs) =>
        var items := CleanSkillList(xs);
        r := r[f := StrList(items)];
      case _ =>
    }
  }

  /** The experience stage of _fix_malformed_lists. */
  method RepairExperience(d: Dict, pats: Patterns) returns (r: Dict)
    ensures r == FixedExperience(d, pats)
  {
    r := d;
    if "working_experience" in r {
      match r["working_experience"]
      case Str(s) =>
        var jobs := JobsFromSections(DumpSections(s, pats.dumpBreak, 0, 0), pats);
        if jobs == [] {
          jobs := [FailedJob(s)];
        }
        r := r["working_experience" := List(JobValues(jobs))];
      case List(xs) =>
        var jobs := ValidateJobs(xs);
        r := r["working_experience" := List(JobValues(jobs))];
      case _ =>
    }
  }

  /** The education stage of _fix_malformed_lists. */
  method RepairEducation(d: Dict) returns (r: Dict)
    ensures r == FixedEducation(d)
  {
    r := d;
    if "education" in r {
      match r["education"]
      case Str(s) =>
        r := r["education" := List([EducationTextEntry(s)])];
      case List(xs) =>
        var es := ValidateEducations(xs);
        r := r["education" := List(EducationValues(es))];
      case _ =>
    }
  }

  /** _fix_malformed_lists: the skills, experience and education fields rewritten in the source's order. */
  method FixMalformedLists(data: Dict, pats: Patterns) returns (r: Dict)
    ensures r == FixedData(data, pats)
  {
    r := RepairSkills(data);
    r := RepairExperience(r, pats);
    r := RepairEducation(r);
  }

  /** A repaired skills field: a list of strings, each more than 2 and fewer than 100 characters long. */
  predicate SkillItems(v: Value) {
    v.List? && forall i :: 0 <= i < |v.items| ==> v.items[i].Str? && KeepItem(v.items[i].s)
  }

  const JobKeys: set<string> := {"company", "role", "dates", "description"}
  const EducationKeys: set<string> := {"institution", "degree", "dates"}

  /** A dictionary with exactly the given keys, every value a string. */
  predicate StringRecord(v: Value, keys: set<string>) {
    v.Obj? && v.fields.Keys == keys && forall k :: k in v.fields ==> v.fields[k].Str?
  }

  predicate RecordList(v: Value, keys: set<string>) {
    v.List? && forall i :: 0 <= i < |v.items| ==> StringRecord(v.items[i], keys)
  }

  lemma JobValuesAreRecords(js: seq<Job>)
    ensures RecordList(List(JobValues(js)), JobKeys)
  {
  }

  lemma EducationValuesAreRecords(es: seq<Education>)
    ensures RecordList(List(EducationValues(es)), EducationKeys)
  {
  }

  lemma StrListItems(xs: seq<string>)
    requires forall x :: x in xs ==> KeepItem(x)
    ensures SkillItems(StrList(xs))
  {
    var v := StrList(xs);
    forall i | 0 <= i < |v.items|
      ensures v.items[i].Str? && KeepItem(v.items[i].s)
    {
      assert xs[i] in xs;
    }
  }

  /** Repairing one skills field changes that field only, and leaves a string or list as a list of kept items. */
  lemma FixedSkillFieldFacts(d: Dict, f: string)
    ensures FixedSkillField(d, f).Keys == d.Keys
    ensures forall k :: k in d && k != f ==> FixedSkillField(d, f)[k] == d[k]
    ensures f in d && (d[f].Str? || d[f].List?) ==> SkillItems(FixedSkillField(d, f)[f])
  {
    if f in d {
      match d[f]
      case Str(s) => StrListItems(SkillTextItems(s));
      case List(xs) => StrListItems(ListItems(xs));
      case _ =>
    }
  }

  /** The three skills fields are repaired one after the other. */
  lemma FixedSkillsUnrolled(d: Dict)
    ensures FixedSkills(d, SkillFields) ==
            FixedSkillField(FixedSkillField(FixedSkillField(d, "hard_skills"), "soft_skills"), "skills")
  {
    assert SkillFields[..2][..1] == ["hard_skills"];
    assert SkillFields[..2] == ["hard_skills", "soft_skills"];
    assert SkillFields[..1][..0] == [];
    assert FixedSkills(d, SkillFields[..1]) == FixedSkillField(d, "hard_skills");
  }

  /** The skills stage keeps the keys, touches only the three skills fields, and leaves each as kept items. */
  lemma FixedSkillsFacts(d: Dict, f: string)
    ensures FixedSkills(d, SkillFields).Keys == d.Keys
    ensures f in d && f !in SkillFields ==> FixedSkills(d, SkillFields)[f] == d[f]
    ensures f in SkillFields && f in d && (d[f].Str? || d[f].List?) ==> SkillItems(FixedSkills(d, SkillFields)[f])
  {
    FixedSkillsUnrolled(d);
    var d1 := FixedSkillField(d, "hard_skills");
    var d2 := FixedSkillField(d1, "soft_skills");
    FixedSkillFieldFacts(d, "hard_skills");
    FixedSkillFieldFacts(d1, "soft_skills");
    FixedSkillFieldFacts(d2, "skills");
  }

  /** The experience stage changes only working_experience, and leaves a string or list there as job records. */
  lemma FixedExperienceFacts(d: Dict, pats: Patterns, k: string)
    ensures FixedExperience(d, pats).Keys == d.Keys
    ensures k in d && k != "working_experience" ==> FixedExperience(d, pats)[k] == d[k]
    ensures "working_experience" in d && (d["working_experience"].Str? || d["working_experience"].List?) ==>
              RecordList(FixedExperience(d, pats)["working_experience"], JobKeys)
  {
    if "working_experience" in d {
      match d["working_experience"]
      case Str(s) => JobValuesAreRecords(JobsFromDump(s, pats));
      case List(xs) => JobValuesAreRecords(ValidJobs(xs));
      case _ =>
    }
  }

  /** The education stage changes only education: a list becomes three-key records, a string one entry. */
  lemma FixedEducationFacts(d: Dict, k: string)
    ensures FixedEducation(d).Keys == d.Keys
    ensures k in d && k != "education" ==> FixedEducation(d)[k] == d[k]
    ensures "education" in d && d["education"].List? ==> RecordList(FixedEducation(d)["education"], EducationKeys)
    ensures "education" in d && d["education"].Str? ==>
              FixedEducation(d)["education"] == List([EducationTextEntry(d["education"].s)])
  {
    if "education" in d && d["education"].List? {
      EducationValuesAreRecords(ValidEducations(d["education"].items));
    }
  }

  /**
   * _fix_malformed_lists keeps every key and every other field, turns each
   * skills field that was a string or list into a list of kept items, each
   * experience string or list into a list of four-key job records, and each
   * education list into three-key records (a string into one entry).
   */
  lemma FixedDataShape(d: Dict, pats: Patterns, f: string)
    ensures FixedData(d, pats).Keys == d.Keys
    ensures f in d && f !in SkillFields && f != "working_experience" && f != "education" ==>
              FixedData(d, pats)[f] == d[f]
    ensures f in SkillFields && f in d && (d[f].Str? || d[f].List?) ==> SkillItems(FixedData(d, pats)[f])
    ensures f == "working_experience" && f in d && (d[f].Str? || d[f].List?) ==>
              RecordList(FixedData(d, pats)[f], JobKeys)
    ensures f == "education" && f in d && d[f].List? ==> RecordList(FixedData(d, pats)[f], EducationKeys)
    ensures f == "education" && f in d && d[f].Str? ==>
              FixedData(d, pats)[f] == List([EducationTextEntry(d[f].s)])
  {
    var d1 := FixedSkills(d, SkillFields);
    var d2 := FixedExperience(d1, pats);
    FixedSkillsFacts(d, f);
    FixedSkillsFacts(d, "working_experience");
    FixedSkillsFacts(d, "education");
    assert |"working_experience"| == 18 && |"education"| == 9;
    FixedExperienceFacts(d1, pats, f);
    FixedExperienceFacts(d1, pats, "education");
    FixedEducationFacts(d2, f);
    FixedEducationFacts(d2, "working_experience");
  }

  /** A text dump always yields at least one job: the sentinel exactly when no section is long enough. */
  lemma JobsFromDumpNonEmpty(raw: string, pats: Patterns)
    ensures JobsFromDump(raw, pats) != []
    ensures JobsFromDump(raw, pats) == [FailedJob(raw)] <==>
              DumpJobs(DumpSections(raw, pats.dumpBreak, 0, 0), pats) == [] ||
              DumpJobs(DumpSections(raw, pats.dumpBreak, 0, 0), pats) == [FailedJob(raw)]
    ensures JobsFromDump(raw, pats) == [FailedJob(raw)] ==> |JobsFromDump(raw, pats)[0].description| <= 500
  {
  }

  /** Every character of a string satisfying NoMark survives into each split piece. */
  lemma {:induction false} SplitRunsNoMark(s: string)
    requires NoMark(s)
    ensures forall k :: 0 <= k < |SplitRuns(s)| ==> NoMark(SplitRuns(s)[k])
    decreases |s|
  {
    var i := SkipLeft(s, 0, NotSkillSep);
    if i < |s| {
      var rest := s[SkipLeft(s, i, SkillSep)..];
      SplitRunsNoMark(rest);
      assert SplitRuns(s) == [s[..i]] + SplitRuns(rest);
    }
  }

  lemma StripNoMark(s: string)
    requires NoMark(s)
    ensures NoMark(Strip(s))
  {
    var i := SkipLeft(s, 0, IsSpace);
    var j := SkipRight(s, |s|, IsSpace);
    assert Strip(s) == if i < j then s[i..j] else [];
  }

  lemma {:induction false} TextItemsNoMark(pieces: seq<string>)
    requires forall k :: 0 <= k < |pieces| ==> NoMark(pieces[k])
    ensures forall x :: x in TextItems(pieces) ==> NoMark(x)
    decreases |pieces|
  {
    if pieces != [] {
      var last := pieces[|pieces| - 1];
      TextItemsNoMark(pieces[..|pieces| - 1]);
      StripNoMark(last);
    }
  }

  /** Items read from a skills string contain no bullet, hyphen or asterisk and are 3 to 99 characters long. */
  lemma SkillTextItemsClean(raw: string, x: string)
    requires x in SkillTextItems(raw)
    ensures NoMark(x) && 3 <= |x| <= 99
  {
    var filtered := Filter(raw, NotMarkChar);
    SplitRunsNoMark(filtered);
    TextItemsNoMark(SplitRuns(filtered));
  }

  // ---------------------------------------------------------------------------
  // _validate_deep_extraction
  // ---------------------------------------------------------------------------

  predicate BadItemChar(c: char) {
    c == '•' || c == '\n' || c == '–'
  }

  /** Check 1 for one skills field: a string, or a list whose first item shows a bullet, newline or en dash. */
  function SkillIssues(data: Dict, f: string): seq<string> {
    if f !in data then []
    else match data[f]
      case Str(_) => [f + " is a string instead of array"]
      case List(xs) =>
        var first := if xs != [] then PyStr(xs[0]) else "";
        if xs != [] && exists k :: 0 <= k < |first| && BadItemChar(first[k])
        then [f + " contains improperly formatted items"] else []
      case _ => []
  }

  /** len() of a value, or None where Python raises TypeError. */
  function Len(v: Value): Option<nat> {
    match v
    case Str(s) => Some(|s|)
    case List(xs) => Some(|xs|)
    case Obj(m) => Some(|m|)
    case _ => None
  }

  /** The description of the first job, where the first job is a dictionary. */
  function FirstDescription(data: Dict): Option<Value> {
    if "working_experience" !in data then None
    else match data["working_experience"]
      case List(xs) =>
        if xs != [] && xs[0].Obj? then Some(GetOr(xs[0].fields, "description", Str(""))) else None
      case _ => None
  }

  /** The first job's description is a value len() refuses. */
  predicate DescriptionUnsized(data: Dict) {
    FirstDescription(data).Some? && Len(FirstDescription(data).value).None?
  }

  /** Check 2: experience given as a string, or a first job whose description is over 1000 long. */
  function ExperienceIssues(data: Dict): Outcome<seq<string>> {
    if "working_experience" !in data then Returned([])
    else match data["working_experience"]
      case Str(_) => Returned(["working_experience is a string (should be array of objects)"])
      case List(xs) =>
        if xs != [] && xs[0].Obj? then
          match Len(GetOr(xs[0].fields, "description", Str("")))
          case None => Raised("TypeError")
          case Some(n) => Returned(if n > 1000 then ["Job description is too long (possible text dump)"] else [])
        else Returned([])
      case _ => Returned([])
  }

  /** The issues _validate_deep_extraction logs, in order. */
  function DeepIssues(data: Dict, response: string): Outcome<seq<string>> {
    match ExperienceIssues(data)
    case Raised(e) => Raised(e)
    case Returned(exp) =>
      Returned(SkillIssues(data, "hard_skills") + SkillIssues(data, "soft_skills") + exp
               + (if |response| > 5000 then ["Response is excessively long (possible text dump)"] else []))
  }

  /**
   * _validate_deep_extraction: the issues are only logged, so whenever the
   * checks do not raise the result is the cleanup of the data, whatever the
   * issues and the reply; the checks raise exactly when the first job's
   * description has no length.
   */
  function ValidateDeepExtraction(data: Dict, response: string, pats: Patterns): (r: Outcome<Dict>)
    ensures r.Raised? <==> DescriptionUnsized(data)
    ensures r.Returned? ==> r.value == FixedData(data, pats)
  {
    match DeepIssues(data, response)
    case Raised(e) => Raised(e)
    case Returned(_) => Returned(FixedData(data, pats))
  }

  // ---------------------------------------------------------------------------
  // _parse_ai_response
  // ---------------------------------------------------------------------------

  /** re.sub(r'```json\s*|\s*```', '', s) from position p on. */
  function StripFences(s: string, p: nat): (r: string)
    requires p <= |s|
    ensures |r| <= |s| - p
    decreases |s| - p
  {
    if p == |s| then []
    else if OccursAt(s, "```json", p) then StripFences(s, SkipLeft(s, p + 7, IsSpace))
    else
      var q := SkipLeft(s, p, IsSpace);
      if OccursAt(s, "```", q) then StripFences(s, q + 3)
      else [s[p]] + StripFences(s, p + 1)
  }

  /** No fence starts at a character other than a backtick. */
  lemma NoFenceAt(s: string, p: nat)
    requires p < |s| && s[p] != '`'
    ensures !OccursAt(s, "```json", p) && !OccursAt(s, "```", p)
  {
  }

  /** Where no fence starts, one character is copied. */
  lemma StripFencesCopies(s: string, p: nat)
    requires p < |s| && !OccursAt(s, "```json", p) && !OccursAt(s, "```", SkipLeft(s, p, IsSpace))
    ensures StripFences(s, p) == [s[p]] + StripFences(s, p + 1)
  {
  }

  /** The first character of such a run is copied. */
  lemma CopyOne(s: string, p: nat, b: nat)
    requires p < b <= |s|
    requires forall k :: p <= k < b ==> s[k] != '`'
    requires !IsSpace(s[b - 1])
    ensures StripFences(s, p) == [s[p]] + StripFences(s, p + 1)
  {
    NoFenceAt(s, p);
    var q := SkipLeft(s, p, IsSpace);
    assert q < b;
    NoFenceAt(s, q);
    StripFencesCopies(s, p);
  }

  /** A run without backticks that ends on a non-space is copied as it is. */
  lemma {:induction false} CopyRun(s: string, p: nat, b: nat)
    requires p <= b <= |s|
    requires forall k :: p <= k < b ==> s[k] != '`'
    requires p < b ==> !IsSpace(s[b - 1])
    ensures StripFences(s, p) == s[p..b] + StripFences(s, b)
    decreases b - p
  {
    if p < b {
      CopyOne(s, p, b);
      CopyRun(s, p + 1, b);
      var tail := StripFences(s, b);
      calc {
        StripFences(s, p);
        [s[p]] + (s[p + 1..b] + tail);
        ([s[p]] + s[p + 1..b]) + tail;
        { assert [s[p]] + s[p + 1..b] == s[p..b]; }
        s[p..b] + tail;
      }
    } else {
      assert s[p..b] == [];
    }
  }

  /** The index of the first c in s, or -1. */
  function FirstIndexOf(s: string, c: char): (r: int)
    ensures -1 <= r < |s|
    ensures r >= 0 ==> s[r] == c && forall k :: 0 <= k < r ==> s[k] != c
    ensures r == -1 ==> forall k :: 0 <= k < |s| ==> s[k] != c
  {
    FirstFrom(s, c, 0)
  }

  function FirstFrom(s: string, c: char, i: nat): (r: int)
    requires i <= |s|
    ensures r == -1 || i <= r < |s|
    ensures r >= 0 ==> s[r] == c && forall k :: i <= k < r ==> s[k] != c
    ensures r == -1 ==> forall k :: i <= k < |s| ==> s[k] != c
    decreases |s| - i
  {
    if i == |s| then -1
    else if s[i] == c then i
    else FirstFrom(s, c, i + 1)
  }

  /**
   * re.search(r'\{.*\}', s, re.DOTALL): from the first '{' to the last '}'.
   * There is a match iff some '{' comes before some '}'.
   */
  function BraceSpan(s: string): (r: Option<string>)
    ensures r.Some? ==> 2 <= |r.value| && r.value[0] == '{' && r.value[|r.value| - 1] == '}'
    ensures r.None? <==> forall i, j :: 0 <= i < j < |s| && s[i] == '{' ==> s[j] != '}'
  {
    var i := FirstIndexOf(s, '{');
    var j := LastIndexOf(s, '}');
    if 0 <= i < j then Some(s[i..j + 1]) else None
  }

  /** The object the parse ladder reads: the cleaned reply, else the brace span, else nothing. */
  function ParsedDict(response: string, loads: string -> Option<Dict>): Dict {
    var cleaned := Strip(StripFences(response, 0));
    match loads(cleaned)
    case Some(d) => d
    case None =>
      match BraceSpan(cleaned)
      case None => map[]
      case Some(b) => if loads(b).Some? then loads(b).value else map[]
  }

  /** _parse_ai_response: an empty object when nothing parses, else the parsed object repaired. */
  function ParseAiResponse(response: string, loads: string -> Option<Dict>, pats: Patterns): Dict {
    var d := ParsedDict(response, loads);
    if d == map[] then map[] else FixedData(d, pats)
  }

  /** The repaired reply has exactly the keys the model sent; it is empty iff nothing parsed. */
  lemma ParseAiResponseKeys(response: string, loads: string -> Option<Dict>, pats: Patterns)
    ensures ParseAiResponse(response, loads, pats).Keys == ParsedDict(response, loads).Keys
  {
    FixedDataShape(ParsedDict(response, loads), pats, "");
  }

  /** A reply wrapped in a ```json fence parses exactly as the bare reply would. */
  lemma FencedReplyParsesAsBare(body: string, loads: string -> Option<Dict>, pats: Patterns)
    requires body != [] && !IsSpace(body[0]) && !IsSpace(body[|body| - 1])
    requires forall k :: 0 <= k < |body| ==> body[k] != '`'
    ensures ParseAiResponse("```json\n" + body + "\n```", loads, pats) == ParseAiResponse(body, loads, pats)
  {
    FencedBody(body);
    BareBody(body);
  }

  /** A text without backticks that ends on a non-space has no fence to remove. */
  lemma BareBody(body: string)
    requires body == [] || !IsSpace(body[|body| - 1])
    requires forall k :: 0 <= k < |body| ==> body[k] != '`'
    ensures StripFences(body, 0) == body
  {
    assert body[0..|body|] == body;
    CopyRunWithin(body, 0, body);
    assert body + [] == body;
  }

  /** Removing the fences around a body without backticks leaves the body. */
  lemma FencedBody(body: string)
    requires body != [] && !IsSpace(body[0]) && !IsSpace(body[|body| - 1])
    requires forall k :: 0 <= k < |body| ==> body[k] != '`'
    ensures StripFences("```json\n" + body + "\n```", 0) == body
  {
    ThreeParts("```json\n", body, "\n```");
    FencedAt("```json\n" + body + "\n```", body);
  }

  /** A text laid out as an opening fence, the body and a closing fence. */
  lemma FencedAt(s: string, body: string)
    requires body != [] && !IsSpace(body[0]) && !IsSpace(body[|body| - 1])
    requires forall k :: 0 <= k < |body| ==> body[k] != '`'
    requires |s| == |body| + 12 && s[..8] == "```json\n" && s[8..8 + |body|] == body && s[8 + |body|..] == "\n```"
    ensures StripFences(s, 0) == body
  {
    var n := |body|;
    assert s[8] == s[8..8 + n][0];
    FenceOpen(s);
    CopyRunWithin(s, 8, body);
    FenceClose(s, 8 + n);
    assert body + [] == body;
  }

  /** A run without backticks ending on a non-space, found in s at p, is copied as it is. */
  lemma CopyRunWithin(s: string, p: nat, body: string)
    requires p + |body| <= |s| && s[p..p + |body|] == body
    requires forall k :: 0 <= k < |body| ==> body[k] != '`'
    requires body != [] ==> !IsSpace(body[|body| - 1])
    ensures StripFences(s, p) == body + StripFences(s, p + |body|)
  {
    var b := p + |body|;
    NoBacktickWithin(s, p, body);
    CopyRun(s, p, b);
    assert s[p..b] == body;
  }

  lemma NoBacktickWithin(s: string, p: nat, body: string)
    requires p + |body| <= |s| && s[p..p + |body|] == body
    requires forall k :: 0 <= k < |body| ==> body[k] != '`'
    requires body != [] ==> !IsSpace(body[|body| - 1])
    ensures forall k :: p <= k < p + |body| ==> s[k] != '`'
    ensures body != [] ==> !IsSpace(s[p + |body| - 1])
  {
    assert forall k :: p <= k < p + |body| ==> s[k] == body[k - p];
  }

  /** An opening "```json" and one newline before a non-space are removed. */
  lemma FenceOpen(s: string)
    requires 9 <= |s| && s[..8] == "```json\n" && !IsSpace(s[8])
    ensures StripFences(s, 0) == StripFences(s, 8)
  {
    assert s[0..7] == s[..8][..7] == "```json";
    assert OccursAt(s, "```json", 0);
    assert s[7] == s[..8][7];
    SkipLeftStops(s, 7, 8);
  }

  /** A newline and "```" that end the text are removed. */
  lemma FenceClose(s: string, p: nat)
    requires p <= |s| && s[p..] == "\n```"
    ensures StripFences(s, p) == []
  {
    assert s[p] == s[p..][0];
    assert s[p + 1] == s[p..][1];
    assert s[p + 1..p + 4] == s[p..][1..] == "```";
    assert !OccursAt(s, "```json", p);
    SkipLeftStops(s, p, p + 1);
    assert OccursAt(s, "```", p + 1);
  }

  /** One space character at i followed by a non-space is skipped. */
  lemma SkipLeftStops(s: string, i: nat, j: nat)
    requires i < j < |s| && j == i + 1 && IsSpace(s[i]) && !IsSpace(s[j])
    ensures SkipLeft(s, i, IsSpace) == j
  {
  }

  // ---------------------------------------------------------------------------
  // extract_deep_fields: manual first, the model only re-sorts skills
  // ---------------------------------------------------------------------------

  /** The four fields of the deep pass; each is always a list. */
  datatype Deep = Deep(hard: seq<Value>, soft: seq<Value>, experience: seq<Value>, education: seq<Value>)

  /** _pure_manual_extraction as values; the skill lists are capped at 30 hard and 20 soft. */
  function ManualDeep(text: string, pats: Patterns): (d: Deep)
    ensures |d.hard| <= 30 && |d.soft| <= 20
  {
    var considered := Take(KeptSkills(RawSkills(text)), 50);
    Deep(StrList(Take(HardOf(considered), 30)).items, StrList(Take(SoftOf(considered), 20)).items,
         JobValues(ExperienceJobs(text, pats)), EducationValues(EducationEntries(text, pats)))
  }

  /** _pure_manual_extraction: the three regex extractions put together. */
  method PureManualExtraction(text: string, pats: Patterns) returns (d: Deep)
    ensures d == ManualDeep(text, pats)
  {
    var hard, soft := ExtractSkillsRegex(text);
    var jobs := ExtractExperienceRegex(text, pats);
    var entries := ExtractEducationRegex(text, pats);
    d := Deep(StrList(hard).items, StrList(soft).items, JobValues(jobs), EducationValues(entries));
  }

  /**
   * The manual result: every skill a kept skill string; every job a
   * four-key record and every education entry a three-key one.
   */
  lemma ManualDeepShape(text: string, pats: Patterns)
    ensures forall v :: v in ManualDeep(text, pats).hard + ManualDeep(text, pats).soft ==> v.Str? && KeepSkill(v.s)
    ensures RecordList(List(ManualDeep(text, pats).experience), JobKeys)
    ensures RecordList(List(ManualDeep(text, pats).education), EducationKeys)
  {
    var all := KeptSkills(RawSkills(text));
    var considered := Take(all, 50);
    var hs := Take(HardOf(considered), 30);
    var ss := Take(SoftOf(considered), 20);
    ClassifiedKept(all);
    KeptStrValues(hs);
    KeptStrValues(ss);
    JobValuesAreRecords(ExperienceJobs(text, pats));
    EducationValuesAreRecords(EducationEntries(text, pats));
  }

  /** Classifying the first 50 kept skills and capping the lists keeps only kept skills. */
  lemma ClassifiedKept(all: seq<string>)
    requires forall x :: x in all ==> KeepSkill(x)
    ensures forall x :: x in Take(HardOf(Take(all, 50)), 30) ==> KeepSkill(x)
    ensures forall x :: x in Take(SoftOf(Take(all, 50)), 20) ==> KeepSkill(x)
  {
    var c := Take(all, 50);
    forall x | x in Take(HardOf(c), 30) || x in Take(SoftOf(c), 20)
      ensures KeepSkill(x)
    {
      Classified(c, x);
      assert x in c;
    }
  }

  /** Kept skills written as JSON strings. */
  lemma KeptStrValues(xs: seq<string>)
    requires forall x :: x in xs ==> KeepSkill(x)
    ensures forall v :: v in StrList(xs).items ==> v.Str? && KeepSkill(v.s)
  {
    forall v | v in StrList(xs).items
      ensures v.Str? && KeepSkill(v.s)
    {
      var i :| 0 <= i < |xs| && StrList(xs).items[i] == v;
      assert xs[i] in xs;
    }
  }

  /** _needs_ai_enhancement: fewer than five skills, or one kind missing. */
  predicate NeedsAiEnhancement(d: Deep) {
    |d.hard| + |d.soft| < 5 || |d.hard| == 0 || |d.soft| == 0
  }

  /**
   * The part of _enhance_skills_with_ai after the model call: with no skills
   * nothing is asked; a parsed reply with "hard" and "soft" lists replaces
   * the two skill lists, capped at 30 and 20; otherwise nothing changes.
   */
  function EnhanceSkillsWithAi(d: Deep, parsed: Dict): (r: Deep)
    ensures r.experience == d.experience && r.education == d.education
    ensures r == d || (Get(parsed, "hard").List? && Get(parsed, "soft").List?
                       && r.hard == Take(Get(parsed, "hard").items, 30) && r.soft == Take(Get(parsed, "soft").items, 20))
    ensures d.hard + d.soft == [] ==> r == d
  {
    if d.hard + d.soft == [] then d
    else if parsed != map[] && Get(parsed, "hard").List? && Get(parsed, "soft").List? then
      d.(hard := Take(parsed["hard"].items, 30), soft := Take(parsed["soft"].items, 20))
    else d
  }

  /** extract_deep_fields, with the model's reply to the skills prompt as an input. */
  function DeepFields(available: bool, text: string, pats: Patterns, loads: string -> Option<Dict>, reply: string): Deep {
    DeepFrom(available, ManualDeep(text, pats), ParseAiResponse(reply, loads, pats))
  }

  /** The model's skills replace the manual ones only when it is available and the manual result needs it. */
  function DeepFrom(available: bool, manual: Deep, parsed: Dict): (r: Deep)
    ensures r.experience == manual.experience && r.education == manual.education
    ensures !available || !NeedsAiEnhancement(manual) ==> r == manual
    ensures |manual.hard| <= 30 && |manual.soft| <= 20 ==> |r.hard| <= 30 && |r.soft| <= 20
  {
    if available && NeedsAiEnhancement(manual) then EnhanceSkillsWithAi(manual, parsed) else manual
  }

  method ExtractDeepFields(available: bool, text: string, pats: Patterns, loads: string -> Option<Dict>, reply: string)
    returns (d: Deep)
    ensures d == DeepFields(available, text, pats, loads, reply)
  {
    d := PureManualExtraction(text, pats);
    if available && NeedsAiEnhancement(d) {
      d := EnhanceSkillsWithAi(d, ParseAiResponse(reply, loads, pats));
    }
  }

  /**
   * The deep pass never takes experience or education from the model, keeps
   * the manual skills when the model is off or the skills look balanced, and
   * caps the skill lists at 30 and 20.
   */
  lemma DeepFieldsFacts(available: bool, text: string, pats: Patterns, loads: string -> Option<Dict>, reply: string)
    ensures DeepFields(available, text, pats, loads, reply).experience == JobValues(ExperienceJobs(text, pats))
    ensures DeepFields(available, text, pats, loads, reply).education == EducationValues(EducationEntries(text, pats))
    ensures !available || !NeedsAiEnhancement(ManualDeep(text, pats)) ==>
              DeepFields(available, text, pats, loads, reply) == ManualDeep(text, pats)
    ensures |DeepFields(available, text, pats, loads, reply).hard| <= 30
    ensures |DeepFields(available, text, pats, loads, reply).soft| <= 20
  {
  }

  // ---------------------------------------------------------------------------
  // validate_and_enhance and _post_process_results
  // ---------------------------------------------------------------------------

  const HeaderFields: seq<string> := ["name", "email", "phone", "location", "linkedin", "website"]

  /** Pass 1 over the fields fs: a truthy model value replaces the current one and is tagged "AI_Header". */
  function HeaderMerged(regex: Dict, header: Dict, fs: seq<string>): Dict
    decreases |fs|
  {
    if fs == [] then regex else HeaderStep(HeaderMerged(regex, header, fs[..|fs| - 1]), header, fs[|fs| - 1])
  }

  /** One field of the header merge: a truthy model value is taken and tagged "AI_Header". */
  function HeaderStep(m: Dict, header: Dict, f: string): Dict {
    if Truthy(Get(header, f)) then m[f := header[f]][f + "_source" := Str("AI_Header")] else m
  }

  lemma HeaderMergedSnoc(regex: Dict, header: Dict, fs: seq<string>, i: nat)
    requires i < |fs|
    ensures HeaderMerged(regex, header, fs[..i + 1]) == HeaderStep(HeaderMerged(regex, header, fs[..i]), header, fs[i])
  {
    assert fs[..i + 1][..i] == fs[..i];
  }

  /** No field name is another field's tag. */
  predicate SourceTagsApart(fs: seq<string>) {
    forall i, j :: 0 <= i < |fs| && 0 <= j < |fs| ==> fs[i] + "_source" != fs[j]
  }

  lemma HeaderFieldsApart()
    ensures SourceTagsApart(HeaderFields)
  {
    forall i, j | 0 <= i < |HeaderFields| && 0 <= j < |HeaderFields|
      ensures HeaderFields[i] + "_source" != HeaderFields[j]
    {
      assert |HeaderFields[i] + "_source"| > |HeaderFields[j]|;
    }
  }

  /**
   * After pass 1, a field whose model value is truthy holds that value and
   * the tag "AI_Header"; any other field and its tag are as the regex left them.
   */
  lemma {:induction false} HeaderMergedAt(regex: Dict, header: Dict, fs: seq<string>, f: string)
    requires f in fs && SourceTagsApart(fs)
    ensures Truthy(Get(header, f)) ==>
              Get(HeaderMerged(regex, header, fs), f) == header[f] &&
              Get(HeaderMerged(regex, header, fs), f + "_source") == Str("AI_Header")
    ensures !Truthy(Get(header, f)) ==>
              Get(HeaderMerged(regex, header, fs), f) == Get(regex, f) &&
              Get(HeaderMerged(regex, header, fs), f + "_source") == Get(regex, f + "_source")
    decreases |fs|
  {
    var init := fs[..|fs| - 1];
    var g := fs[|fs| - 1];
    assert SourceTagsApart(init);
    if f != g {
      assert f in init;
      HeaderMergedAt(regex, header, init, f);
      SuffixApart(f, g, "_source");
      assert g + "_source" != f;
    } else if f in init {
      HeaderMergedAt(regex, header, init, f);
    } else {
      forall h | h in init
        ensures f != h + "_source" && f + "_source" != h && f + "_source" != h + "_source"
      {
        var j :| 0 <= j < |init| && init[j] == h;
        assert fs[j] == h;
        SuffixApart(f, h, "_source");
      }
      HeaderMergedUntouched(regex, header, init, f);
      HeaderMergedUntouched(regex, header, init, f + "_source");
    }
  }

  /** Different names keep different tags. */
  lemma SuffixApart(f: string, g: string, t: string)
    requires f != g
    ensures f + t != g + t
  {
    assert (f + t)[..|f|] == f;
    assert (g + t)[..|g|] == g;
  }

  /** A key that is neither a field of fs nor one of their tags is left as it was. */
  lemma {:induction false} HeaderMergedUntouched(regex: Dict, header: Dict, fs: seq<string>, k: string)
    requires k !in fs && forall g :: g in fs ==> k != g + "_source"
    ensures Get(HeaderMerged(regex, header, fs), k) == Get(regex, k)
    decreases |fs|
  {
    if fs != [] {
      var init := fs[..|fs| - 1];
      HeaderMergedUntouched(regex, header, init, k);
      assert fs[|fs| - 1] in fs;
    }
  }

  /** Pass 2: the deep fields written over the merged result, with skills the concatenation of the two kinds. */
  function WithDeep(m: Dict, d: Deep): Dict {
    m["hard_skills" := List(d.hard)]["soft_skills" := List(d.soft)]["skills" := List(d.hard + d.soft)]
     ["working_experience" := List(d.experience)]["education" := List(d.education)]
     ["experience_source" := Str("AI_Deep")]
  }

  /** The phone step of _post_process_results on a truthy value: a list gives its first item; a string is standardized. */
  function PhoneFixed(v: Value): (r: Value)
    requires Truthy(v)
    ensures v.Str? ==> r == OptStr(StandardizePhoneNumber(v.s))
    ensures !v.Str? && !v.List? ==> r == v
  {
    var w := if v.List? then v.items[0] else v;
    if w.Str? then OptStr(StandardizePhoneNumber(w.s)) else v
  }

  const NameTitles: seq<string> := ["mr.", "ms.", "mrs.", "dr.", "prof.", "eng."]
  const NameDegrees: set<string> := {"phd", "md", "mba", "m.sc", "b.sc"}

  /** re.sub(r'^(Mr\.|Ms\.|Mrs\.|Dr\.|Prof\.|Eng\.)\s*', '', s, flags=re.IGNORECASE) */
  function DropTitle(s: string): (r: string)
    ensures |r| <= |s|
  {
    match WordAt(Lower(s), 0, NameTitles)
    case None => s
    case Some(i) => s[SkipLeft(s, |NameTitles[i]|, IsSpace)..]
  }

  /**
   * re.sub(r',\s*(PhD|MD|MBA|M\.Sc|B\.Sc)$', '', s, flags=re.IGNORECASE) on
   * a text with no trailing whitespace: no degree contains a comma, so only
   * the last comma can start a match.
   */
  function DropDegree(s: string): (r: string)
    ensures |r| <= |s|
  {
    var c := LastIndexOf(s, ',');
    if c >= 0 && Lower(s[SkipLeft(s, c + 1, IsSpace)..]) in NameDegrees then s[..c] else s
  }

  /** _clean_name: anything but a string gives ""; else stripped, then the title and the degree removed. */
  function CleanNameAi(v: Value): (r: string)
    ensures !v.Str? ==> r == ""
    ensures v.Str? ==> |r| <= |v.s|
  {
    if !v.Str? then "" else DropDegree(DropTitle(Strip(v.s)))
  }

  /** A title: a word ending in its only '.', with no space in it. */
  predicate TitleShaped(w: string) {
    |w| >= 1 && w[|w| - 1] == '.' && forall k :: 0 <= k < |w| - 1 ==> w[k] != '.' && w[k] != ' '
  }

  lemma TitlesShaped()
    ensures forall i :: 0 <= i < |NameTitles| ==> TitleShaped(NameTitles[i])
  {
    assert TitleShaped("mr.") && TitleShaped("ms.") && TitleShaped("mrs.");
    assert TitleShaped("dr.") && TitleShaped("prof.") && TitleShaped("eng.");
  }

  /** Two titles that both start a text whose first title is followed by a space have the same length. */
  lemma ShapedPrefixLength(lt: string, u: string, w: string)
    requires TitleShaped(u) && TitleShaped(w)
    requires |u| < |lt| && lt[..|u|] == u && lt[|u|] == ' ' && OccursAt(lt, w, 0)
    ensures |w| == |u|
  {
    var n := |w|;
    assert lt[n - 1] == w[n - 1];
    assert n - 1 < |u| ==> u[n - 1] == lt[n - 1];
  }

  /** A title (in any case) followed by a space is removed from the front of a name. */
  lemma DropTitleRemoves(t: string, name: string)
    requires Lower(t) in NameTitles
    requires name != [] && !IsSpace(name[0])
    ensures DropTitle(t + " " + name) == name
  {
    var s := t + " " + name;
    var lt := Lower(s);
    assert lt[..|t|] == Lower(t);
    assert s[|t|] == ' ' && s[|t| + 1] == name[0];
    assert lt[|t|] == ' ';
    TitlesShaped();
    var j :| 0 <= j < |NameTitles| && NameTitles[j] == Lower(t);
    assert lt[0..|t|] == lt[..|t|];
    assert OccursAt(lt, NameTitles[j], 0);
    var r := WordAt(lt, 0, NameTitles);
    ShapedPrefixLength(lt, Lower(t), NameTitles[r.value]);
    assert SkipLeft(s, |t|, IsSpace) == |t| + 1;
    assert s[|t| + 1..] == name;
  }

  /** No degree contains a comma. */
  lemma DegreeHasNoComma(degree: string)
    requires Lower(degree) in NameDegrees
    ensures forall k :: 0 <= k < |degree| ==> degree[k] != ','
  {
    var ld := Lower(degree);
    assert ld == "phd" || ld == "md" || ld == "mba" || ld == "m.sc" || ld == "b.sc";
    forall k | 0 <= k < |degree|
      ensures degree[k] != ','
    {
      assert ld[k] == LowerChar(degree[k]);
      assert ld[k] != ',';
    }
  }

  /** The last comma of name + "," + rest, when neither part has one, is the one between them. */
  lemma LastCommaBetween(name: string, rest: string)
    requires forall k :: 0 <= k < |name| ==> name[k] != ','
    requires forall k :: 0 <= k < |rest| ==> rest[k] != ','
    ensures LastIndexOf(name + "," + rest, ',') == |name|
  {
    var s := name + "," + rest;
    forall k | |name| < k < |s|
      ensures s[k] != ','
    {
      assert s[k] == rest[k - |name| - 1];
    }
    LastIndexIs(s, ',', |name|);
  }



  /** A comma, spaces and a listed degree (in any case) are removed from the end of a name without commas. */
  lemma DropDegreeRemoves(name: string, spaces: string, degree: string)
    requires forall k :: 0 <= k < |name| ==> name[k] != ','
    requires forall k :: 0 <= k < |spaces| ==> IsSpace(spaces[k])
    requires Lower(degree) in NameDegrees && degree != [] && !IsSpace(degree[0])
    ensures DropDegree(name + "," + spaces + degree) == name
  {
    var s := name + "," + spaces + degree;
    var c, e := |name|, |name| + 1 + |spaces|;
    SpacesDegreeNoComma(spaces, degree);
    LastCommaBetween(name, spaces + degree);
    assert s == name + "," + (spaces + degree);
    assert s[c + 1..] == spaces + degree;
    SpacesBeforeDegree(s, c + 1, spaces, degree);
    assert s[e..] == degree && s[..c] == name;
    DropDegreeAt(s, c, e);
  }

  lemma SpacesDegreeNoComma(spaces: string, degree: string)
    requires forall k :: 0 <= k < |spaces| ==> IsSpace(spaces[k])
    requires Lower(degree) in NameDegrees
    ensures forall k :: 0 <= k < |spaces + degree| ==> (spaces + degree)[k] != ','
  {
    DegreeHasNoComma(degree);
    var rest := spaces + degree;
    forall k | 0 <= k < |rest|
      ensures rest[k] != ','
    {
      if k < |spaces| {
        assert IsSpace(spaces[k]);
      }
    }
  }

  /** Spaces and then a degree from position i: the spaces are skipped up to the degree. */
  lemma SpacesBeforeDegree(s: string, i: nat, spaces: string, degree: string)
    requires i <= |s| && s[i..] == spaces + degree
    requires forall k :: 0 <= k < |spaces| ==> IsSpace(spaces[k])
    requires degree != [] && !IsSpace(degree[0])
    ensures SkipLeft(s, i, IsSpace) == i + |spaces|
  {
    var t := s[i..];
    forall k | i <= k < i + |spaces|
      ensures IsSpace(s[k])
    {
      assert s[k] == t[k - i] == spaces[k - i];
    }
    assert s[i + |spaces|] == t[|spaces|] == degree[0];
    SkipOverSpaces(s, i, |spaces|);
  }

  /** A run of n spaces from i, followed by a non-space or the end, is skipped exactly. */
  lemma SkipOverSpaces(s: string, i: nat, n: nat)
    requires i + n <= |s|
    requires forall k :: i <= k < i + n ==> IsSpace(s[k])
    requires i + n < |s| ==> !IsSpace(s[i + n])
    ensures SkipLeft(s, i, IsSpace) == i + n
  {
    var r := SkipLeft(s, i, IsSpace);
    assert !(r < i + n);
  }

  lemma DropDegreeAt(s: string, c: nat, e: nat)
    requires c < |s| && LastIndexOf(s, ',') == c && c + 1 <= e <= |s| && SkipLeft(s, c + 1, IsSpace) == e
    requires Lower(s[e..]) in NameDegrees
    ensures DropDegree(s) == s[..c]
  {
  }

  const ListFields: seq<string> := ["hard_skills", "soft_skills", "working_experience", "education"]

  /** The "ensure lists" loop over fs: a missing or non-list field becomes []. */
  function EnsuredLists(m: Dict, fs: seq<string>): Dict
    decreases |fs|
  {
    if fs == [] then m else EnsureList(EnsuredLists(m, fs[..|fs| - 1]), fs[|fs| - 1])
  }

  /** One field of the "ensure lists" loop: anything but a list becomes []. */
  function EnsureList(r: Dict, f: string): Dict {
    if f !in r || !r[f].List? then r[f := List([])] else r
  }

  lemma EnsuredListsSnoc(m: Dict, fs: seq<string>, i: nat)
    requires i < |fs|
    ensures EnsuredLists(m, fs[..i + 1]) == EnsureList(EnsuredLists(m, fs[..i]), fs[i])
  {
    assert fs[..i + 1][..i] == fs[..i];
  }

  /** The phone and name steps of _post_process_results. */
  function PhoneAndNameFixed(results: Dict): Dict {
    var m := if Truthy(Get(results, "phone")) then results["phone" := PhoneFixed(results["phone"])] else results;
    if Truthy(Get(m, "name")) then m["name" := Str(CleanNameAi(m["name"]))] else m
  }

  /** What _post_process_results makes of a result. */
  function PostProcessed(results: Dict): Dict {
    EnsuredLists(PhoneAndNameFixed(results), ListFields)["ai_enhanced" := Bool(true)]
  }

  /** The phone and name steps, in place. */
  method FixPhoneAndName(results: Dict) returns (processed: Dict)
    ensures processed == PhoneAndNameFixed(results)
  {
    processed := results;
    if Truthy(Get(processed, "phone")) {
      var val := processed["phone"];
      if val.List? {
        val := val.items[0];
      }
      if val.Str? {
        processed := processed["phone" := OptStr(StandardizePhoneNumber(val.s))];
      }
    }
    if Truthy(Get(processed, "name")) {
      processed := processed["name" := Str(CleanNameAi(processed["name"]))];
    }
  }

  /** The "ensure lists" loop. */
  method EnsureLists(m: Dict) returns (processed: Dict)
    ensures processed == EnsuredLists(m, ListFields)
  {
    processed := m;
    var i := 0;
    while i < |ListFields|
      invariant 0 <= i <= |ListFields|
      invariant processed == EnsuredLists(m, ListFields[..i])
    {
      var f := ListFields[i];
      if f !in processed || !processed[f].List? {
        processed := processed[f := List([])];
      }
      EnsuredListsSnoc(m, ListFields, i);
      i := i + 1;
    }
    assert ListFields[..i] == ListFields;
  }

  /** _post_process_results: phone and name fixed, the list fields forced to lists, ai_enhanced set. */
  method PostProcessResults(results: Dict) returns (processed: Dict)
    ensures processed == PostProcessed(results)
  {
    processed := FixPhoneAndName(results);
    processed := EnsureLists(processed);
    processed := processed["ai_enhanced" := Bool(true)];
  }

  /** After the loop over fs every field of fs is a list; lists already there and other keys are kept. */
  lemma {:induction false} EnsuredListsAt(m: Dict, fs: seq<string>, k: string)
    ensures k in fs ==> k in EnsuredLists(m, fs) && EnsuredLists(m, fs)[k].List?
    ensures k in m && (k !in fs || m[k].List?) ==> k in EnsuredLists(m, fs) && EnsuredLists(m, fs)[k] == m[k]
    ensures k !in m && k !in fs ==> k !in EnsuredLists(m, fs)
    decreases |fs|
  {
    if fs != [] {
      EnsuredListsAt(m, fs[..|fs| - 1], k);
      if k in fs && k != fs[|fs| - 1] {
        assert k in fs[..|fs| - 1];
      }
    }
  }

  /**
   * _post_process_results: ai_enhanced is set; the four list fields are
   * lists, kept when they already were; a non-empty phone string becomes
   * None exactly when it has fewer than 7 digits, and otherwise a phone
   * string with the same digits; every other key but name is untouched.
   */
  lemma PostProcessedFacts(results: Dict, k: string)
    ensures Get(PostProcessed(results), "ai_enhanced") == Bool(true)
    ensures k in ListFields ==> Get(PostProcessed(results), k).List?
    ensures k in ListFields && Get(results, k).List? ==> Get(PostProcessed(results), k) == Get(results, k)
    ensures k != "phone" && k != "name" && k != "ai_enhanced" && k !in ListFields ==>
              Get(PostProcessed(results), k) == Get(results, k)
    ensures Get(results, "phone").Str? && Get(results, "phone").s != [] ==>
              var p := Get(PostProcessed(results), "phone");
              (p == Null <==> |Digits(Get(results, "phone").s)| < 7) &&
              (p.Str? ==> AllPhoneChars(p.s) && Digits(p.s) == Digits(Get(results, "phone").s))
  {
    var m := PhoneAndNameFixed(results);
    EnsuredListsAt(m, ListFields, k);
    EnsuredListsAt(m, ListFields, "phone");
    assert "phone" !in ListFields && "ai_enhanced" !in ListFields;
    if Get(results, "phone").Str? && Get(results, "phone").s != [] {
      StandardizePhoneNumberSound(Get(results, "phone").s);
    }
  }

  /** validate_and_enhance given the two passes' results: the header merge, then the deep fields, then post-processing. */
  function Enhanced(available: bool, regex: Dict, header: Dict, deep: Deep): Dict {
    if !available then regex
    else PostProcessed(WithDeep(HeaderMerged(regex, header, HeaderFields), deep))
  }

  /**
   * validate_and_enhance, with the model's replies to the header prompt and
   * the skills prompt as inputs.
   */
  method ValidateAndEnhance(available: bool, regex: Dict, text: string, pats: Patterns,
                            loads: string -> Option<Dict>, headerReply: string, skillsReply: string)
    returns (r: Dict)
    ensures r == Enhanced(available, regex, ParseAiResponse(headerReply, loads, pats),
                          DeepFields(available, text, pats, loads, skillsReply))
  {
    if !available {
      return regex;
    }
    r := regex;
    var header := ParseAiResponse(headerReply, loads, pats);
    if header != map[] {
      r := MergeHeader(regex, header);
    } else {
      HeaderMergedEmpty(regex, HeaderFields);
    }
    var deep := ExtractDeepFields(available, text, pats, loads, skillsReply);
    r := PostProcessResults(WithDeep(r, deep));
  }

  /** The header loop of validate_and_enhance. */
  method MergeHeader(regex: Dict, header: Dict) returns (r: Dict)
    ensures r == HeaderMerged(regex, header, HeaderFields)
  {
    r := regex;
    var i := 0;
    while i < |HeaderFields|
      invariant 0 <= i <= |HeaderFields|
      invariant r == HeaderMerged(regex, header, HeaderFields[..i])
    {
      var f := HeaderFields[i];
      if Truthy(Get(header, f)) {
        r := r[f := header[f]][f + "_source" := Str("AI_Header")];
      }
      HeaderMergedSnoc(regex, header, HeaderFields, i);
      i := i + 1;
    }
    assert HeaderFields[..i] == HeaderFields;
  }

  /** With an empty model header the merge changes nothing. */
  lemma {:induction false} HeaderMergedEmpty(regex: Dict, fs: seq<string>)
    ensures HeaderMerged(regex, map[], fs) == regex
    decreases |fs|
  {
    if fs != [] {
      HeaderMergedEmpty(regex, fs[..|fs| - 1]);
    }
  }

  /**
   * validate_and_enhance: off, the regex result is returned as it is; on,
   * skills is the hard list followed by the soft list, the experience and
   * education come from the deep pass tagged "AI_Deep", and ai_enhanced is set.
   */
  lemma EnhancedDeepFacts(available: bool, regex: Dict, header: Dict, deep: Deep)
    ensures !available ==> Enhanced(available, regex, header, deep) == regex
    ensures available ==>
              var r := Enhanced(available, regex, header, deep);
              Get(r, "skills") == List(deep.hard + deep.soft) &&
              Get(r, "working_experience") == List(deep.experience) &&
              Get(r, "education") == List(deep.education) &&
              Get(r, "experience_source") == Str("AI_Deep") &&
              Get(r, "ai_enhanced") == Bool(true)
  {
    if available {
      var m := WithDeep(HeaderMerged(regex, header, HeaderFields), deep);
      PostProcessedFacts(m, "skills");
      PostProcessedFacts(m, "working_experience");
      PostProcessedFacts(m, "education");
      PostProcessedFacts(m, "experience_source");
    }
  }

  /**
   * validate_and_enhance: a truthy model header value for email, location,
   * linkedin or website replaces the regex value with the tag "AI_Header";
   * otherwise the regex value stays.
   */
  lemma EnhancedHeaderFacts(regex: Dict, header: Dict, deep: Deep, f: string)
    requires f in ["email", "location", "linkedin", "website"]
    ensures Truthy(Get(header, f)) ==>
              Get(Enhanced(true, regex, header, deep), f) == header[f] &&
              Get(Enhanced(true, regex, header, deep), f + "_source") == Str("AI_Header")
    ensures !Truthy(Get(header, f)) ==> Get(Enhanced(true, regex, header, deep), f) == Get(regex, f)
  {
    var h := HeaderMerged(regex, header, HeaderFields);
    var m := WithDeep(h, deep);
    HeaderFieldsApart();
    HeaderMergedAt(regex, header, HeaderFields, f);
    HeaderKeyOutside(f);
    WithDeepKeeps(h, deep, f);
    WithDeepKeeps(h, deep, f + "_source");
    PostProcessedFacts(m, f);
    PostProcessedFacts(m, f + "_source");
  }

  /** A key that neither the deep pass nor the phone, name and list steps of post-processing write. */
  predicate OutsideDeep(k: string) {
    k != "hard_skills" && k != "soft_skills" && k != "skills" && k != "working_experience" &&
    k != "education" && k != "experience_source" && k != "phone" && k != "name" && k != "ai_enhanced" &&
    k !in ListFields
  }

  /** The deep pass leaves every key outside it as it was. */
  lemma WithDeepKeeps(m: Dict, d: Deep, k: string)
    requires OutsideDeep(k)
    ensures Get(WithDeep(m, d), k) == Get(m, k)
  {
  }

  /** The four header fields other than name and phone, and their tags, lie outside the deep pass. */
  lemma HeaderKeyOutside(f: string)
    requires f in ["email", "location", "linkedin", "website"]
    ensures OutsideDeep(f) && OutsideDeep(f + "_source")
  {
    var n := |f|;
    assert n == 5 || n == 7 || n == 8;
    assert f == "email" ==> f[0] != "phone"[0];
    assert |f + "_source"| == n + 7;
  }
}
