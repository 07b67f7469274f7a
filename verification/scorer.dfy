/** `score_candidate_with_ai` of cv_analyzer.py without the network call:
    the reply is an input, and what remains is the decode, the clamp and the
    fallback formula. */
module Scorer {
  import opened Wrappers
  import opened PyStr
  import opened Json
  import opened Profile

  /** The returned triple: the score, the reasoning and the brief summary.
      The last two are whatever JSON values the reply held under their
      keys. */
  datatype ScoreResult = ScoreResult(score: real, reasoning: JSON, briefSummary: JSON)

  /** What raised inside the scoring call, so that the fallback branch
      reports it. */
  datatype ScoreError =
    | NoReply                     // the call failed or returned no content
    | NotAnObject(reply: JSON)    // `.get` on a parsed value that is not a dict
    | BadScore(value: JSON)       // `float()` rejected the score value

  const NoKeyReason := "Fallback scoring used (no API key available)"
  const ParseFailedReason := "AI scoring failed, used fallback calculation"
  const ErrorReasonPrefix := "AI scoring error, used fallback: "
  const NoReasoning := "No reasoning provided"

  /** `max(0, min(100, x))`. */
  function Clamp(x: real): (r: real)
    ensures 0.0 <= r <= 100.0
    ensures 0.0 <= x <= 100.0 ==> r == x
    ensures x < 0.0 ==> r == 0.0
    ensures x > 100.0 ==> r == 100.0
  {
    Max(0.0, Min(100.0, x))
  }

  /** The offline score: eight points per year and twelve per relevant
      year, held to [20, 95], then three per must-have and one and a half
      per nice-to-have skill, capped at 100. */
  function FallbackScore(c: CVAnalysis): (r: real)
    ensures 20.0 <= r <= 100.0
  {
    var base := Min(95.0, Max(20.0, c.totalYears * 8.0 + c.relevantYears * 12.0));
    var bonus := |c.mustHaveSkills| as real * 3.0 + |c.niceToHaveSkills| as real * 1.5;
    Min(100.0, base + bonus)
  }

  /** More experience or more skills never lower the offline score. */
  lemma FallbackScoreMonotone(c1: CVAnalysis, c2: CVAnalysis)
    requires c1.totalYears <= c2.totalYears && c1.relevantYears <= c2.relevantYears
    requires |c1.mustHaveSkills| <= |c2.mustHaveSkills| && |c1.niceToHaveSkills| <= |c2.niceToHaveSkills|
    ensures FallbackScore(c1) <= FallbackScore(c2)
  {
  }

  /** Five years, three relevant, two must-have and one nice-to-have skill:
      76 points of experience and 7.5 of skills. */
  lemma FallbackScoreExample(c: CVAnalysis)
    requires c.totalYears == 5.0 && c.relevantYears == 3.0
    requires |c.mustHaveSkills| == 2 && |c.niceToHaveSkills| == 1
    ensures FallbackScore(c) == 83.5
  {
  }

  /** Python's `float()` applied to a JSON value. */
  function PyFloat(v: JSON, codec: Codec): (r: Option<real>)
    ensures v.JNum? ==> r == Some(v.n)
    ensures v.JBool? ==> r == Some(if v.b then 1.0 else 0.0)
    ensures v.JNull? || v.JArr? || v.JObj? ==> r == None
  {
    match v
    case JNum(n) => Some(n)
    case JBool(b) => Some(if b then 1.0 else 0.0)
    case JStr(s) => codec.parseFloat(s)
    case _ => None
  }

  /** How a scoring reply reads: a score and the reply object, a reply
      that is not JSON at all, or an error raised on the way. */
  datatype Reading =
    | Scored(score: real, members: seq<(string, JSON)>)
    | Unparsed
    | Failed(error: ScoreError)

  /** The reply is parsed as it came, with no fence stripping; the score
      defaults to 0 when absent. */
  function ReadReply(reply: Option<string>, codec: Codec): (r: Reading)
    ensures reply.None? ==> r == Failed(NoReply)
    ensures r == Unparsed <==> reply.Some? && codec.parse(reply.value).None?
    ensures forall v :: reply.Some? && codec.parse(reply.value) == Some(v) && !v.JObj? ==> r == Failed(NotAnObject(v))
    ensures forall m :: reply.Some? && codec.parse(reply.value) == Some(JObj(m)) && PyFloat(GetOr(m, "score", JNum(0.0)), codec).None?
              ==> r == Failed(BadScore(GetOr(m, "score", JNum(0.0))))
    ensures r.Scored? ==> reply.Some? && codec.parse(reply.value) == Some(JObj(r.members))
                          && PyFloat(GetOr(r.members, "score", JNum(0.0)), codec) == Some(r.score)
    ensures forall m :: reply.Some? && codec.parse(reply.value) == Some(JObj(m)) && PyFloat(GetOr(m, "score", JNum(0.0)), codec).Some?
              ==> r.Scored?
  {
    match reply
    case None => Failed(NoReply)
    case Some(text) =>
      match codec.parse(text)
      case None => Unparsed
      case Some(JObj(m)) =>
        var sv := GetOr(m, "score", JNum(0.0));
        (match PyFloat(sv, codec)
         case None => Failed(BadScore(sv))
         case Some(x) => Scored(x, m))
      case Some(v) => Failed(NotAnObject(v))
  }

  /** `f"{title} with {relevant}y relevant experience"`, the brief summary
      of every fallback branch; the no-key branch adds the first three
      must-have skills. */
  function FallbackBrief(c: CVAnalysis, repr: JSON -> string): string {
    c.currentTitle + " with " + repr(JNum(c.relevantYears)) + "y relevant experience"
  }

  /** `f"{title} with {relevant}y experience"`, the brief summary of a
      scored reply that has none. */
  function ReplyBrief(c: CVAnalysis, repr: JSON -> string): string {
    c.currentTitle + " with " + repr(JNum(c.relevantYears)) + "y experience"
  }

  /** `score_candidate_with_ai`. `describe` is `str()` of the exception the
      error branch caught. */
  function ScoreCandidate(c: CVAnalysis, keyConfigured: bool, reply: Option<string>, codec: Codec,
                          describe: ScoreError -> string): (r: ScoreResult)
    ensures 0.0 <= r.score <= 100.0
    ensures !(keyConfigured && ReadReply(reply, codec).Scored?) ==> r.score == FallbackScore(c) && r.score >= 20.0
    ensures keyConfigured && ReadReply(reply, codec).Scored? ==> r.score == Clamp(ReadReply(reply, codec).score)
    ensures !keyConfigured ==> r.reasoning == JStr(NoKeyReason)
    ensures keyConfigured && ReadReply(reply, codec) == Unparsed ==> r.reasoning == JStr(ParseFailedReason)
    ensures forall e :: keyConfigured && ReadReply(reply, codec) == Failed(e) ==> r.reasoning == JStr(ErrorReasonPrefix + describe(e))
    ensures forall v :: keyConfigured && ReadReply(reply, codec).Scored? && Lookup(ReadReply(reply, codec).members, "reasoning") == Some(v)
              ==> r.reasoning == v
    ensures (keyConfigured && ReadReply(reply, codec).Scored? && Lookup(ReadReply(reply, codec).members, "reasoning").None?)
              ==> r.reasoning == JStr(NoReasoning)
    ensures forall v :: keyConfigured && ReadReply(reply, codec).Scored? && Lookup(ReadReply(reply, codec).members, "brief_summary") == Some(v)
              ==> r.briefSummary == v
    ensures (keyConfigured && ReadReply(reply, codec).Scored? && Lookup(ReadReply(reply, codec).members, "brief_summary").None?)
              ==> r.briefSummary == JStr(ReplyBrief(c, codec.repr))
    ensures !(keyConfigured && ReadReply(reply, codec).Scored?) ==> r.briefSummary.JStr? && StartsWith(r.briefSummary.s, FallbackBrief(c, codec.repr))
  {
    if !keyConfigured then
      ScoreResult(FallbackScore(c), JStr(NoKeyReason),
        JStr(FallbackBrief(c, codec.repr) + ". Skills: " + Join(Take(c.mustHaveSkills, 3), ", ") + "."))
    else
      match ReadReply(reply, codec)
      case Scored(x, m) =>
        ScoreResult(Clamp(x), GetOr(m, "reasoning", JStr(NoReasoning)),
          GetOr(m, "brief_summary", JStr(ReplyBrief(c, codec.repr))))
      case Unparsed => ScoreResult(FallbackScore(c), JStr(ParseFailedReason), JStr(FallbackBrief(c, codec.repr)))
      case Failed(e) => ScoreResult(FallbackScore(c), JStr(ErrorReasonPrefix + describe(e)), JStr(FallbackBrief(c, codec.repr)))
  }

  /** The reply object a scoring result encodes to. */
  function ScoreMembers(res: ScoreResult): seq<(string, JSON)> {
    [("score", JNum(res.score)), ("reasoning", res.reasoning), ("brief_summary", res.briefSummary)]
  }

  /** A reply object whose score, reasoning and brief summary encode an
      in-range result gives that result back, whatever else it holds. */
  lemma ScoreRoundTrip(c: CVAnalysis, res: ScoreResult, text: string, m: seq<(string, JSON)>, codec: Codec,
                       describe: ScoreError -> string)
    requires 0.0 <= res.score <= 100.0
    requires codec.parse(text) == Some(JObj(m))
    requires Lookup(m, "score") == Some(JNum(res.score))
    requires Lookup(m, "reasoning") == Some(res.reasoning) && Lookup(m, "brief_summary") == Some(res.briefSummary)
    ensures ScoreCandidate(c, true, Some(text), codec, describe) == res
  {
  }

  /** A reply in the prompted format, the score, reasoning and brief
      summary followed by the five sub-scores or anything else, gives back
      the result it encodes. */
  lemma PromptedReplyRoundTrip(c: CVAnalysis, res: ScoreResult, rest: seq<(string, JSON)>, text: string, codec: Codec,
                               describe: ScoreError -> string)
    requires 0.0 <= res.score <= 100.0
    requires codec.parse(text) == Some(JObj(ScoreMembers(res) + rest))
    ensures ScoreCandidate(c, true, Some(text), codec, describe) == res
  {
    var m := ScoreMembers(res);
    LookupAppend(m, rest, "score");
    LookupAppend(m, rest, "reasoning");
    LookupAppend(m, rest, "brief_summary");
    assert Lookup(m, "score") == Some(JNum(res.score));
    assert Lookup(m, "reasoning") == Some(res.reasoning) by {
      assert m[1..][0].0 == "reasoning";
    }
    assert Lookup(m, "brief_summary") == Some(res.briefSummary) by {
      assert m[1..][1..][0].0 == "brief_summary";
      assert m[0].0 != "brief_summary" && m[1].0 != "brief_summary" by {
        assert |m[0].0| != |"brief_summary"|;
        assert m[1].0[0] != "brief_summary"[0];
      }
    }
    ScoreRoundTrip(c, res, text, m + rest, codec, describe);
  }

  /** Out-of-range scores in the reply are clamped: 140 gives 100 and -10
      gives 0. */
  lemma ScoreClampExamples(c: CVAnalysis, text: string, codec: Codec, describe: ScoreError -> string)
    ensures codec.parse(text) == Some(JObj([("score", JNum(140.0))])) ==>
              ScoreCandidate(c, true, Some(text), codec, describe).score == 100.0
    ensures codec.parse(text) == Some(JObj([("score", JNum(-10.0))])) ==>
              ScoreCandidate(c, true, Some(text), codec, describe).score == 0.0
  {
  }

  /** A reply whose score is a string `float()` rejects, or a null score,
      falls back to the offline formula. */
  lemma ScoreBadValueFallsBack(c: CVAnalysis, text: string, v: JSON, codec: Codec, describe: ScoreError -> string)
    requires codec.parse(text) == Some(JObj([("score", v)]))
    requires v.JNull? || v.JArr? || v.JObj? || (v.JStr? && codec.parseFloat(v.s).None?)
    ensures ScoreCandidate(c, true, Some(text), codec, describe)
              == ScoreResult(FallbackScore(c), JStr(ErrorReasonPrefix + describe(BadScore(v))), JStr(FallbackBrief(c, codec.repr)))
  {
  }
}
