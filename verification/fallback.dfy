/** `fallback_analysis` of cv_analyzer.py: the offline, line-based reading of
    a CV used whenever no model reply can be used. */
module Fallback {
  import opened Wrappers
  import opened PyStr
  import opened Profile

  /* ---- lines ---- */

  /** The stripped, non-blank lines of `text`. */
  function Lines(text: string): (r: seq<string>)
    ensures forall i :: 0 <= i < |r| ==> r[i] != [] && NoEdgeSpace(r[i]) && '\n' !in r[i]
  {
    var pieces := Split(text, '\n');
    TrimmedPiecesFrom(pieces, '\n');
    TrimmedPieces(pieces)
  }

  /** Lines that are already stripped, non-blank and newline-free are
      recovered from their newline join. */
  lemma LinesOfJoin(ls: seq<string>)
    requires forall i :: 0 <= i < |ls| ==> ls[i] != [] && NoEdgeSpace(ls[i]) && '\n' !in ls[i]
    ensures Lines(Join(ls, "\n")) == ls
  {
    if ls == [] {
      assert Split("", '\n') == [""];
      assert Strip("") == "";
    } else {
      SplitJoin(ls, '\n');
      TrimmedPiecesKeeps(ls);
    }
  }

  /* ---- name and title ---- */

  const NameStopWords: seq<string> := ["email", "phone", "address", "@"]
  const RoleWords: seq<string> := ["developer", "engineer", "manager", "analyst", "consultant", "specialist"]
  const UnknownName := "Unknown Candidate"
  const NoTitle := "Not specified"

  /** Some word of `words` occurs in the lowercased line. */
  predicate MentionsAny(line: string, words: seq<string>) {
    exists i :: 0 <= i < |words| && Contains(Lower(line), words[i])
  }

  /** At most four words, more than five characters, and no contact word. */
  predicate IsNameLine(line: string) {
    |Words(line)| <= 4 && |line| > 5 && !MentionsAny(line, NameStopWords)
  }

  predicate IsTitleLine(line: string) {
    MentionsAny(line, RoleWords)
  }

  /** Index of the first of the first `limit` lines that satisfies `p`. */
  function FirstMatch(lines: seq<string>, limit: nat, p: string -> bool): (r: Option<nat>)
    ensures r.Some? ==> r.value < limit && r.value < |lines| && p(lines[r.value])
    ensures r.Some? ==> forall j :: 0 <= j < r.value ==> !p(lines[j])
    ensures r.None? ==> forall j :: 0 <= j < limit && j < |lines| ==> !p(lines[j])
    decreases |lines|
  {
    if lines == [] || limit == 0 then None
    else if p(lines[0]) then Some(0)
    else
      match FirstMatch(lines[1..], limit - 1, p)
      case None => None
      case Some(k) => Some(k + 1)
  }

  /** The first name-like line among the first five, cut to 50 characters,
      or "Unknown Candidate". */
  function PickName(lines: seq<string>): (r: string)
    requires forall i :: 0 <= i < |lines| ==> lines[i] != []
    ensures forall i :: 0 <= i < |lines| && i < 5 && IsNameLine(lines[i]) && (forall j :: 0 <= j < i ==> !IsNameLine(lines[j]))
              ==> r == Take(lines[i], 50)
    ensures (forall i :: 0 <= i < |lines| && i < 5 ==> !IsNameLine(lines[i])) ==> r == UnknownName
    ensures 0 < |r| <= 50
  {
    match FirstMatch(lines, 5, IsNameLine)
    case Some(i) => Take(lines[i], 50)
    case None => UnknownName
  }

  /** The first line among the first ten naming a role, cut to 100
      characters, or "Not specified". */
  function PickTitle(lines: seq<string>): (r: string)
    requires forall i :: 0 <= i < |lines| ==> lines[i] != []
    ensures forall i :: 0 <= i < |lines| && i < 10 && IsTitleLine(lines[i]) && (forall j :: 0 <= j < i ==> !IsTitleLine(lines[j]))
              ==> r == Take(lines[i], 100)
    ensures (forall i :: 0 <= i < |lines| && i < 10 ==> !IsTitleLine(lines[i])) ==> r == NoTitle
    ensures 0 < |r| <= 100
  {
    match FirstMatch(lines, 10, IsTitleLine)
    case Some(i) => Take(lines[i], 100)
    case None => NoTitle
  }

  /* ---- years ---- */

  /** The line contains one of the strings "2000" to "2024". */
  predicate MentionsYear(line: string) {
    exists y: nat :: 2000 <= y <= 2024 && Contains(line, NatToString(y))
  }

  /** Number of lines that mention a year. */
  function YearLines(lines: seq<string>): (k: nat)
    ensures k <= |lines|
    ensures k == 0 <==> forall i :: 0 <= i < |lines| ==> !MentionsYear(lines[i])
    ensures k == |lines| <==> forall i :: 0 <= i < |lines| ==> MentionsYear(lines[i])
    decreases |lines|
  {
    if lines == [] then 0
    else
      var rest := YearLines(lines[1..]);
      assert forall i :: 1 <= i < |lines| ==> lines[i] == lines[1..][i - 1];
      (if MentionsYear(lines[0]) then 1 else 0) + rest
  }

  lemma {:induction false} YearLinesAppend(a: seq<string>, b: seq<string>)
    ensures YearLines(a + b) == YearLines(a) + YearLines(b)
    decreases |a|
  {
    if a == [] {
      assert a + b == b;
    } else {
      assert (a + b)[1..] == a[1..] + b;
      YearLinesAppend(a[1..], b);
    }
  }

  /** `min(max(1.2 * k, 1), 15)`. */
  function EstimateYears(k: nat): (r: real)
    ensures 1.0 <= r <= 15.0
    ensures r == 1.0 <==> k == 0
    ensures r == 15.0 <==> k >= 13
    ensures 0 < k < 13 ==> r == 1.2 * k as real
  {
    Min(Max(1.2 * k as real, 1.0), 15.0)
  }

  /** More year lines never lower the estimate. */
  lemma EstimateYearsMonotone(k1: nat, k2: nat)
    requires k1 <= k2
    ensures EstimateYears(k1) <= EstimateYears(k2)
  {
  }

  /** `f"{x:.0f}"` for the estimate: the nearest whole number. The estimate
      is a multiple of 1.2 or a bound, so it never lies halfway between two
      whole numbers and the rounding direction of ties does not arise. */
  function NearestWhole(x: real): (n: nat)
    requires x >= 0.0
    ensures n as real - 0.5 <= x < n as real + 0.5
  {
    (x + 0.5).Floor
  }

  /* ---- skills ---- */

  const Vocabulary: seq<string> := ["python", "java", "javascript", "react", "node", "sql", "aws", "docker", "kubernetes", "git"]

  /** `a` is `b` with some elements left out. */
  predicate IsSubsequence<T(==)>(a: seq<T>, b: seq<T>)
    decreases |b|
  {
    a == [] || (b != [] && if a[0] == b[0] then IsSubsequence(a[1..], b[1..]) else IsSubsequence(a, b[1..]))
  }

  /** The words of `vocab` that occur in `text`, in vocabulary order. */
  function FoundIn(vocab: seq<string>, text: string): (r: seq<string>)
    ensures |r| <= |vocab|
    ensures forall w :: w in r <==> w in vocab && Contains(text, w)
    ensures IsSubsequence(r, vocab)
    decreases |vocab|
  {
    if vocab == [] then []
    else
      var rest := FoundIn(vocab[1..], text);
      assert forall w :: w in vocab <==> w == vocab[0] || w in vocab[1..];
      if Contains(text, vocab[0]) then
        var r := [vocab[0]] + rest;
        assert r[1..] == rest;
        r
      else rest
  }

  /** The skills found in a CV, before the must/nice cut. */
  function Skills(cvText: string): (r: seq<string>)
    ensures |r| <= 10
  {
    FoundIn(Vocabulary, Lower(cvText))
  }

  /** `found[5:10] if len(found) > 5 else []`. */
  function NiceCut(found: seq<string>): (r: seq<string>)
    ensures |found| <= 10 ==> Take(found, 5) + r == found
    ensures |r| <= 5
  {
    if |found| > 5 then Take(found[5..], 5) else []
  }

  /* ---- the record ---- */

  const FallbackHighlights: seq<string> := ["Basic analysis only - full details require OpenAI"]
  const FallbackStrengths: seq<string> := ["Analysis requires OpenAI API key"]
  const FallbackNotes := "Limited analysis - please configure OpenAI API key for comprehensive evaluation"

  function FallbackSummary(years: real): string
    requires years >= 0.0
  {
    "Candidate with approximately " + NatToString(NearestWhole(years))
      + " years of experience. Basic analysis only - OpenAI required for detailed insights."
  }

  /** `fallback_analysis`: name, title, years and skills read off the text;
      the other fields are fixed placeholders. */
  function FallbackAnalysis(cvText: string, filename: string): (a: CVAnalysis)
    ensures a.candidateName == PickName(Lines(cvText)) && a.currentTitle == PickTitle(Lines(cvText))
    ensures a.sourceFile == filename
    ensures 1.0 <= a.totalYears <= 15.0 && a.relevantYears == 0.7 * a.totalYears
    ensures a.totalYears == EstimateYears(YearLines(Lines(cvText)))
    ensures a.mustHaveSkills + a.niceToHaveSkills == Skills(cvText)
    ensures |a.mustHaveSkills| <= 5 && |a.niceToHaveSkills| <= 5
    ensures forall w :: w in a.mustHaveSkills + a.niceToHaveSkills <==> w in Vocabulary && Contains(Lower(cvText), w)
    ensures 0 < |a.candidateName| <= 50 && 0 < |a.currentTitle| <= 100
    ensures a.Unscored()
  {
    var lines := Lines(cvText);
    var years := EstimateYears(YearLines(lines));
    var found := Skills(cvText);
    assert Take(found, 5) + NiceCut(found) == found;
    CVAnalysis(
      filename, PickName(lines), PickTitle(lines), years, years * 0.7,
      FallbackSummary(years), Take(found, 5), NiceCut(found),
      FallbackHighlights, FallbackStrengths, FallbackNotes, None, None)
  }
}
