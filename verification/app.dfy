/** The analysis run of app.py, behind the "Analyze Candidates" button: the
    input guards, the per-document analysis and scoring, the ranking by
    descending score and the top-50 display. The model replies and the
    environment are inputs. */
module App {
  import opened Wrappers
  import opened PyStr
  import opened Json
  import opened Profile
  import opened TextNorm
  import opened Analyzer
  import opened Scorer
  import opened Extractor
  import opened Ranking
  import Fallback

  /** The form: job title, job description and the uploaded files. */
  datatype Request = Request(jobTitle: string, jobDescription: string, uploads: seq<Upload>)

  /** Everything outside the program. `apiKey` is the OPENAI_API_KEY
      environment variable ("" when unset); the replies are indexed by the
      document's position in the run; `describe` is `str()` of an exception
      caught while scoring. */
  datatype Env = Env(
    apiKey: string,
    readers: Readers,
    codec: Codec,
    analysisReply: nat -> Option<string>,
    scoreReply: nat -> Option<string>,
    describe: ScoreError -> string)

  /** How a press of the button ends: one of the error messages, or the
      results, with the job title as entered and the number analysed. */
  datatype Outcome =
    | MissingTitle
    | MissingDescription
    | NoUploads
    | NoApiKey
    | Crashed                 // an exception reached the handler around the analysis
    | NoDocuments
    | Ranked(ranked: seq<(real, CVAnalysis)>, jobTitle: string, total: nat)

  predicate KeyConfigured(env: Env) {
    Strip(env.apiKey) != []
  }

  /** The four guards ahead of the analysis all pass. */
  predicate Accepted(req: Request, env: Env) {
    Strip(req.jobTitle) != [] && Strip(req.jobDescription) != [] && req.uploads != [] && KeyConfigured(env)
  }

  /* ---- the per-document work ---- */

  /** One record per document, in document order: the cleaned text
      analysed under the document's name. */
  function Analyses(docs: seq<Doc>, env: Env): (r: seq<CVAnalysis>)
    ensures |r| == |docs|
    ensures forall i :: 0 <= i < |r| ==> r[i].sourceFile == docs[i].name && r[i].Unscored()
    ensures forall i :: 0 <= i < |r| ==>
              r[i] == AnalyzeDoc(docs[i], i, env)
  {
    seq(|docs|, i requires 0 <= i < |docs| => AnalyzeDoc(docs[i], i, env))
  }

  /** The analysis of one document: its text is cleaned first, then
      analysed with the reply meant for it. */
  function AnalyzeDoc(d: Doc, i: nat, env: Env): (a: CVAnalysis)
    ensures a.sourceFile == d.name && a.Unscored()
    ensures a == AnalyzeCv(Clean(d.text), d.name, KeyConfigured(env), env.analysisReply(i), env.codec)
    ensures !KeyConfigured(env) || env.analysisReply(i).None? ==> a == Fallback.FallbackAnalysis(Clean(d.text), d.name)
  {
    AnalyzeCv(Clean(d.text), d.name, KeyConfigured(env), env.analysisReply(i), env.codec)
  }

  /** The record with the score and reasoning of a scoring result set on
      it; nothing else changes. */
  function Attach(c: CVAnalysis, res: ScoreResult): (r: CVAnalysis)
    ensures r.aiScore == Some(res.score) && r.aiReasoning == Some(res.reasoning)
    ensures r.(aiScore := c.aiScore, aiReasoning := c.aiReasoning) == c
  {
    c.(aiScore := Some(res.score), aiReasoning := Some(res.reasoning))
  }

  function ScoreOne(c: CVAnalysis, i: nat, env: Env): ScoreResult {
    ScoreCandidate(c, KeyConfigured(env), env.scoreReply(i), env.codec, env.describe)
  }

  /** The `(score, candidate)` pairs, in candidate order, with each score
      attached to its candidate. */
  function ScoreAll(cands: seq<CVAnalysis>, env: Env): (r: seq<(real, CVAnalysis)>)
    ensures |r| == |cands|
    ensures forall i :: 0 <= i < |r| ==> r[i].1.aiScore == Some(r[i].0) && 0.0 <= r[i].0 <= 100.0
    ensures forall i :: 0 <= i < |r| ==> r[i].1 == Attach(cands[i], ScoreOne(cands[i], i, env))
  {
    seq(|cands|, i requires 0 <= i < |cands| =>
      var res := ScoreOne(cands[i], i, env);
      (res.score, Attach(cands[i], res)))
  }

  /** The scored pairs of a run over `docs`, before sorting. */
  function Scored(docs: seq<Doc>, env: Env): (r: seq<(real, CVAnalysis)>)
    ensures |r| == |docs|
    ensures forall i :: 0 <= i < |r| ==> r[i].1.sourceFile == docs[i].name
  {
    ScoreAll(Analyses(docs, env), env)
  }

  /* ---- the run ---- */

  /** The run with the scoring result unpacked into its three parts. */
  function Run(req: Request, env: Env): (o: Outcome)
    ensures o.MissingTitle? <==> Strip(req.jobTitle) == []
    ensures o.MissingDescription? <==> Strip(req.jobTitle) != [] && Strip(req.jobDescription) == []
    ensures o.NoUploads? <==> Strip(req.jobTitle) != [] && Strip(req.jobDescription) != [] && req.uploads == []
    ensures o.NoApiKey? <==> Strip(req.jobTitle) != [] && Strip(req.jobDescription) != [] && req.uploads != [] && !KeyConfigured(env)
    ensures o.Crashed? <==> Accepted(req, env) && Load(req.uploads, env.readers).None?
    ensures o.NoDocuments? <==> Accepted(req, env) && Load(req.uploads, env.readers) == Some([])
    ensures o.Ranked? <==> Accepted(req, env) && Load(req.uploads, env.readers).Some? && Load(req.uploads, env.readers).value != []
    ensures o.Ranked? ==> o.jobTitle == req.jobTitle && o.total == |o.ranked| == TotalYield(req.uploads, env.readers)
    ensures o.Ranked? ==> SortedDesc(o.ranked)
    ensures o.Ranked? ==> multiset(o.ranked) == multiset(Scored(Load(req.uploads, env.readers).value, env))
    ensures o.Ranked? ==> o.ranked == SortDesc(Scored(Load(req.uploads, env.readers).value, env))
  {
    if Strip(req.jobTitle) == [] then MissingTitle
    else if Strip(req.jobDescription) == [] then MissingDescription
    else if req.uploads == [] then NoUploads
    else if !KeyConfigured(env) then NoApiKey
    else
      match Load(req.uploads, env.readers)
      case None => Crashed
      case Some(docs) =>
        if docs == [] then NoDocuments
        else Ranked(SortDesc(Scored(docs, env)), req.jobTitle, |docs|)
  }

  /** A ranked entry: a score in [0, 100], attached to the record of one
      of `docs`. */
  predicate EntryOf(e: (real, CVAnalysis), docs: seq<Doc>) {
    0.0 <= e.0 <= 100.0 && e.1.aiScore == Some(e.0) &&
    exists i :: 0 <= i < |docs| && e.1.sourceFile == docs[i].name
  }

  /** Every ranked entry is a scored record of one of the loaded
      documents. */
  lemma RankedEntries(req: Request, env: Env)
    requires Run(req, env).Ranked?
    ensures forall e :: e in Run(req, env).ranked ==> EntryOf(e, Load(req.uploads, env.readers).value)
  {
    SortedEntries(Load(req.uploads, env.readers).value, env);
  }

  lemma SortedEntries(docs: seq<Doc>, env: Env)
    ensures forall e :: e in SortDesc(Scored(docs, env)) ==> EntryOf(e, docs)
  {
    var s := Scored(docs, env);
    forall e | e in SortDesc(s)
      ensures EntryOf(e, docs)
    {
      var i :| 0 <= i < |s| && s[i] == e;
    }
  }

  /** Candidates with equal scores appear in document order, and the
      ranking is the only descending arrangement that does so. */
  lemma RankingIsStable(req: Request, env: Env, ys: seq<(real, CVAnalysis)>)
    requires Run(req, env).Ranked?
    ensures forall v :: WithScore(Run(req, env).ranked, v) == WithScore(Scored(Load(req.uploads, env.readers).value, env), v)
    ensures (SortedDesc(ys) && forall v :: WithScore(ys, v) == WithScore(Scored(Load(req.uploads, env.readers).value, env), v))
              ==> ys == Run(req, env).ranked
  {
    var s := Scored(Load(req.uploads, env.readers).value, env);
    if SortedDesc(ys) && (forall v :: WithScore(ys, v) == WithScore(s, v)) {
      SortDescIsTheStableOrder(s, ys);
    }
  }

  /** Without replies from the model, every candidate is scored by the
      offline formula, so no one ranks below 20. */
  lemma OfflineScoresAtLeast20(req: Request, env: Env)
    requires Run(req, env).Ranked?
    requires forall i: nat :: env.scoreReply(i).None?
    ensures forall e :: e in Run(req, env).ranked ==> e.0 >= 20.0
  {
    OfflineSorted(Load(req.uploads, env.readers).value, env);
  }

  lemma OfflineSorted(docs: seq<Doc>, env: Env)
    requires forall i: nat :: env.scoreReply(i).None?
    ensures forall e :: e in SortDesc(Scored(docs, env)) ==> e.0 >= 20.0
  {
    var s := Scored(docs, env);
    forall e | e in SortDesc(s)
      ensures e.0 >= 20.0
    {
      var i :| 0 <= i < |s| && s[i] == e;
      assert ReadReply(env.scoreReply(i), env.codec) == Failed(NoReply);
    }
  }

  /* ---- the run as written ---- */

  /** The scoring result as the Python tuple it is returned as. */
  function ScoreTuple(res: ScoreResult): seq<JSON> {
    [JNum(res.score), res.reasoning, res.briefSummary]
  }

  /** `a, b = t`: Python raises ValueError unless `t` has exactly two
      items. */
  function UnpackPair(t: seq<JSON>): (r: Option<(JSON, JSON)>)
    ensures r.Some? <==> |t| == 2
    ensures r.Some? ==> t == [r.value.0, r.value.1]
  {
    if |t| == 2 then Some((t[0], t[1])) else None
  }

  /** The scoring loop as written: each result is unpacked into a score
      and a reasoning; `None` when the unpacking raises. */
  function ScoreAllAsWritten(cands: seq<CVAnalysis>, env: Env, from: nat): Option<seq<(real, CVAnalysis)>>
    decreases |cands|
  {
    if cands == [] then Some([])
    else
      var c := cands[0];
      var res := ScoreOne(c, from, env);
      var rest := ScoreAllAsWritten(cands[1..], env, from + 1);
      match UnpackPair(ScoreTuple(res))
      case None => None
      case Some(pair) =>
        match rest
        case None => None
        case Some(rs) => Some([(AsFloat(pair.0), c.(aiScore := Some(AsFloat(pair.0)), aiReasoning := Some(pair.1)))] + rs)
  }

  /** The number a JSON number holds; 0 for any other value. */
  function AsFloat(j: JSON): real {
    match j
    case JNum(n) => n
    case _ => 0.0
  }

  /** app.py as written: the same guards and loading, then the scoring
      loop above, whose error reaches the handler around the analysis. */
  function RunAsWritten(req: Request, env: Env): (o: Outcome)
    ensures !Accepted(req, env) ==> o == Run(req, env)
    ensures Accepted(req, env) && (Load(req.uploads, env.readers).None? || Load(req.uploads, env.readers) == Some([])) ==> o == Run(req, env)
  {
    if !Accepted(req, env) then Run(req, env)
    else
      match Load(req.uploads, env.readers)
      case None => Crashed
      case Some(docs) =>
        if docs == [] then NoDocuments
        else
          match ScoreAllAsWritten(Analyses(docs, env), env, 0)
          case None => Crashed
          case Some(scored) => Ranked(SortDesc(scored), req.jobTitle, |docs|)
  }

  /** As written, a run never reaches the results: wherever the corrected
      run ranks, it ends in the error handler instead. */
  lemma RunAsWrittenNeverRanks(req: Request, env: Env)
    ensures !RunAsWritten(req, env).Ranked?
    ensures Run(req, env).Ranked? ==> RunAsWritten(req, env) == Crashed
    ensures !Run(req, env).Ranked? ==> RunAsWritten(req, env) == Run(req, env)
  {
    if Accepted(req, env) && Load(req.uploads, env.readers).Some? && Load(req.uploads, env.readers).value != [] {
      AsWrittenFails(Analyses(Load(req.uploads, env.readers).value, env), env, 0);
    }
  }

  /** Unpacking the first result already raises. */
  lemma AsWrittenFails(cands: seq<CVAnalysis>, env: Env, from: nat)
    requires cands != []
    ensures ScoreAllAsWritten(cands, env, from).None?
  {
    assert |ScoreTuple(ScoreOne(cands[0], from, env))| == 3;
  }

  /* ---- the display ---- */

  /** What the results page shows: the header count and job title, the
      cards of the top 50, and whether the "showing top 50" note appears. */
  datatype Page = Page(total: nat, jobTitle: string, cards: seq<Card<CVAnalysis>>, truncated: bool)

  function Present(o: Outcome): (p: Option<Page>)
    ensures p.Some? <==> o.Ranked?
    ensures o.Ranked? ==> p.value.total == o.total && p.value.jobTitle == o.jobTitle
    ensures o.Ranked? ==> (p.value.truncated <==> |o.ranked| > MaxDisplay)
    ensures o.Ranked? ==> |p.value.cards| == if |o.ranked| <= MaxDisplay then |o.ranked| else MaxDisplay
    ensures o.Ranked? ==> p.value.cards == Display(o.ranked)
    ensures o.Ranked? ==> forall i :: 0 <= i < |p.value.cards| ==>
              p.value.cards[i].score == o.ranked[i].0 && p.value.cards[i].item == o.ranked[i].1
    ensures o.Ranked? ==> forall i :: 0 <= i < |p.value.cards| ==> p.value.cards[i].rank == i + 1
  {
    match o
    case Ranked(ranked, title, total) => Some(Page(total, title, Display(ranked), |ranked| > MaxDisplay))
    case _ => None
  }

  /** A ranked run shows its best candidates: each card outscores every
      candidate left off, and cards come in descending score. */
  lemma PageShowsTheBest(req: Request, env: Env)
    requires Run(req, env).Ranked?
    ensures var o := Run(req, env);
            var cards := Present(o).value.cards;
            (forall i, j :: 0 <= i < |cards| <= j < |o.ranked| ==> cards[i].score >= o.ranked[j].0) &&
            (forall i, j :: 0 <= i < j < |cards| ==> cards[i].score >= cards[j].score)
  {
    DisplayShowsTheBest(Run(req, env).ranked);
  }
}
