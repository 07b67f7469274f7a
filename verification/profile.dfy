/** The `CVAnalysis` record of cv_analyzer.py. The score and reasoning that
    the run attaches to a record after scoring are explicit optional fields. */
module Profile {
  import opened Wrappers
  import opened Json

  datatype CVAnalysis = CVAnalysis(
    sourceFile: string,
    candidateName: string,
    currentTitle: string,
    totalYears: real,
    relevantYears: real,
    summary: string,
    mustHaveSkills: seq<string>,
    niceToHaveSkills: seq<string>,
    experienceHighlights: seq<string>,
    strengths: seq<string>,
    confidenceNotes: string,
    aiScore: Option<real>,
    aiReasoning: Option<JSON>)
  {
    /** Not yet through the scorer. */
    predicate Unscored() {
      aiScore.None? && aiReasoning.None?
    }
  }
}
