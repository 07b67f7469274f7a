# cv-screener in Dafny

A model of the screening pipeline of cv-screener, a Streamlit app that
ranks uploaded CVs against a job description. The model covers:

- the text normaliser `clean_text` and the three-line formatter
  `summarize_for_similarity` (utils/text.py);
- the `CVAnalysis` record;
- the defensive decoding of model replies: fence stripping, `safe_get`,
  `safe_float` and `safe_list`, over a small JSON value type;
- the offline `fallback_analysis`;
- the decode-or-fall-back structure of `analyze_cv_with_openai`;
- the decode, clamp and fallback formula of `score_candidate_with_ai`
  (cv_analyzer.py);
- the routing of uploads to documents by `load_files_from_uploader` and
  `read_text` (parsing/extractor.py);
- the analysis run of app.py: the input guards, one analysis per document,
  scoring, the stable descending sort and the top-50 display.

Everything outside the program is an input:

- the model's replies are `Option<string>` values, `None` when the call
  raised or returned no content;
- `json.loads` is an abstract parser `Codec.parse`, and Python's `float()`
  on a string and `str()` of a number or container are `Codec.parseFloat`
  and `Codec.repr`;
- the PDF, Word, zip and text-decoding libraries are the uninterpreted
  functions of `Extractor.Readers`, with `None` where the library raises;
- the API key is the string read from the environment.

Modules follow the source: `PyStr` holds the Python string built-ins the
code relies on (`strip`, `split`, `lower`, `join`, slicing), `TextNorm` is
utils/text.py, `Json` the coercions, `Profile` the record, `Fallback`,
`Analyzer` and `Scorer` the three parts of cv_analyzer.py, `Extractor`
parsing/extractor.py, `Ranking` the sort and display cut, and `App` the
run.

Behaviour the model takes from the code that a reader might not expect:

- app.py:434-437 refuses to run without an API key, so the offline
  pipeline (fallback analysis and fallback score) is reached through the
  app only when a model call fails or a reply does not decode.
- A fallback "year line" is one containing any of the strings "2000" to
  "2024" anywhere (cv_analyzer.py:183), not a four-digit token.
- A reader or zip error is not skipped: it propagates out of
  `load_files_from_uploader` and ends the run in the handler at
  app.py:512 (`Outcome.Crashed`).
- `safe_get` keeps an empty string found under the key; only a missing key
  or `null` gives the default, so an analysed name can be empty.
- `st.stop()` raises Streamlit's stop exception, which is not an
  `Exception`, so the "no documents" stop inside the `try` is not turned
  into the error message of app.py:512.

## Model

| member | source | states |
|---|---|---|
| TextNorm.Clean | utils/text.py:3-8 | the result holds no no-break space, tab or CR, no two adjacent spaces, no three adjacent newlines, and no leading or trailing whitespace |
| TextNorm.CleanIdempotent | utils/text.py:3-8 | cleaning a cleaned text changes nothing |
| TextNorm.CleanFixpointIff | utils/text.py:3-8 | a text is returned unchanged exactly when it already meets the five output invariants |
| TextNorm.CleanKeepsNormalised | utils/text.py:3-8 | a text meeting the output invariants is returned unchanged |
| TextNorm.CollapseFrom | utils/text.py:5 | the space/tab rewrite leaves no tab and no double space, and adds no character other than a space |
| TextNorm.BlankRunBecomesOneSpace | utils/text.py:5 | a maximal run of spaces and tabs becomes exactly one space, and the text on either side is rewritten independently |
| TextNorm.CapFrom | utils/text.py:7 | the newline rewrite leaves no three adjacent newlines and adds no character |
| TextNorm.NewlineRunCapped | utils/text.py:6-7 | a maximal run of k newlines keeps min(k, 2) of them, and the text on either side is rewritten independently |
| TextNorm.SummaryLines | utils/text.py:10-15 | the summary splits into exactly three lines: the title, the must-hits then nice-hits joined by ", ", and the first two roles joined by " \| " |
| PyStr.Strip | utils/text.py:8 | the result is the input with its maximal leading and trailing whitespace runs removed, and has no whitespace at either end |
| PyStr.Split | cv_analyzer.py:165 | the pieces are at least one, hold no separator, and join back to the input |
| PyStr.SplitJoin | cv_analyzer.py:165 | splitting the join of separator-free pieces gives those pieces back |
| Json.Lookup | cv_analyzer.py:208 | `None` exactly when no member has the key; otherwise the value of a member with that key |
| Json.LookupAppend | cv_analyzer.py:208 | `get` on concatenated members finds a key in the first part when it is there, and otherwise in the second |
| Json.LookupDistinct | cv_analyzer.py:208 | in an object whose keys are distinct, as in any dict, every member is what `get` finds under its key |
| Json.SafeGet | cv_analyzer.py:206-209 | a missing key or null gives the default; a string is returned as it is, empty or not; any other value gives its `str()` |
| Json.SafeFloat | cv_analyzer.py:211-222 | numbers are themselves, booleans 1.0 or 0.0, strings never negative, and null, lists and objects 0.0 |
| Json.NumericChars | cv_analyzer.py:218 | the filter keeps only digits and dots and never lengthens the string |
| Json.ParseDecimal | cv_analyzer.py:219 | a parsed filter is never negative, an all-digit filter reads as its decimal value, and two or more dots do not parse |
| Json.SafeFloatReadsEmbeddedNumber | cv_analyzer.py:216-219 | a whole number with no other digits or dots around it is read as that number |
| Json.SafeFloatReadsEmbeddedDecimal | cv_analyzer.py:216-219 | a decimal "a.b" with no other digits or dots around it is read as a + b / 10^len(b) |
| Json.SafeFloatDropsSign | cv_analyzer.py:218 | "-5" reads as 5.0, since the sign is filtered out |
| Json.SafeFloatRejectsMalformedDecimal | cv_analyzer.py:219-222 | "." and "v1.2.3" give 0.0 |
| Json.NonNull | cv_analyzer.py:227 | the non-null items, none of them null, each from the input, and every non-null input item kept |
| Json.NonNullAppend | cv_analyzer.py:227 | filtering a concatenation filters each part, so kept items stay in input order with their repetitions |
| Json.NonNullSingle | cv_analyzer.py:227 | one item is dropped exactly when it is null |
| Json.StrAll | cv_analyzer.py:227 | item i of the result is `str()` of item i of the input |
| Json.SafeListCons | cv_analyzer.py:226-227 | a list decodes item by item in order: a null item gives nothing, any other item its `str()`, followed by the decoding of the rest |
| Json.SafeListAppend | cv_analyzer.py:226-227 | decoding a concatenated list concatenates the decodings |
| Json.SafeList | cv_analyzer.py:224-236 | null gives [], a number or boolean a singleton of its `str()`, lists and objects at most one string per item, a string only non-empty, trimmed, comma-free pieces |
| Json.CommaPieces | cv_analyzer.py:233 | every piece is non-empty, trimmed and comma-free |
| Json.SafeListOfStrings | cv_analyzer.py:226-227 | a list of strings gives exactly those strings, in order |
| Json.SafeListObjectIsValues | cv_analyzer.py:228-230 | an object gives what the list of its values gives |
| Json.CommaJoinRoundTrip | cv_analyzer.py:233 | splitting a ", "-joined list of trimmed, comma-free items on commas and trimming the pieces gives the items back |
| Json.SafeListCommaRoundTrip | cv_analyzer.py:231-233 | joining trimmed, comma-free items with ", " and decoding gives the items back |
| Json.SafeListCommaExample | cv_analyzer.py:231-233 | "Python, SQL, AWS" gives the three skill names |
| Json.SafeListMapExample | cv_analyzer.py:228-230 | an object of two skill strings gives its values in order |
| Analyzer.Unfence | cv_analyzer.py:116-122 | on an already trimmed reply: the result is an infix of it, at most 13 characters shorter, and the reply itself when it neither starts nor ends with a fence |
| Analyzer.StripFences | cv_analyzer.py:113-122 | the result is an infix of the trimmed reply, at most 13 characters shorter, and equal to it when the trimmed reply neither starts nor ends with a fence |
| Analyzer.StripJsonFence | cv_analyzer.py:113-122 | a body wrapped in "```json" and "```" is recovered exactly, including the newlines around it, as in "```json\n{…}\n```" |
| Analyzer.StripPlainFence | cv_analyzer.py:113-122 | a body wrapped in "```" and "```" is recovered exactly, edge newlines included, when it does not itself start with "json" |
| Analyzer.StripOpeningFenceOnly | cv_analyzer.py:113-122 | a cut-off reply, "```json" and a body with no closing fence, gives the body without the trailing whitespace |
| Analyzer.StripClosingFenceOnly | cv_analyzer.py:113-122 | a reply with only a closing "```" gives what precedes it, whitespace before the fence included |
| Analyzer.StripUnfenced | cv_analyzer.py:113-122 | a trimmed body that neither starts nor ends with a backtick is left alone |
| Analyzer.Decode | cv_analyzer.py:124-130 | a reply decodes exactly when the parse of its fenceless text is an object, and then to that object's members |
| Analyzer.FromMembers | cv_analyzer.py:133-145 | the record carries the filename and no score, and each missing field takes its listed default |
| Analyzer.LookupField | cv_analyzer.py:133-145 | each of the ten keys of the encoded record is found at its own entry |
| Analyzer.FromToMembers | cv_analyzer.py:133-145 | decoding the object a record encodes to gives the record back |
| Analyzer.AnalyzeCv | cv_analyzer.py:48-156 | the record always carries the filename; no key, no reply or an undecodable reply gives the fallback analysis, and a decoded object gives its field-by-field coercion |
| Analyzer.AnalyzeFencedReply | cv_analyzer.py:113-147 | a reply in a "```json" fence around any body encoding a record, newline-padded or not, gives that record |
| Analyzer.AnalyzeUnfencedReply | cv_analyzer.py:113-147 | an unfenced, trimmed reply encoding a record gives that record |
| Fallback.Lines | cv_analyzer.py:165 | the lines are non-empty, trimmed and newline-free |
| Fallback.LinesOfJoin | cv_analyzer.py:165 | lines that are already trimmed and non-empty are recovered from their newline join |
| Fallback.FirstMatch | cv_analyzer.py:172-180 | the index found is the first of the first `limit` lines that matches; none is found only when none of them matches |
| Fallback.PickName | cv_analyzer.py:168-175 | the first name-like line among the first five, cut to 50 characters, else "Unknown Candidate"; never empty, at most 50 characters |
| Fallback.PickTitle | cv_analyzer.py:168-180 | the first line among the first ten naming a role, cut to 100 characters, else "Not specified"; never empty, at most 100 characters |
| Fallback.YearLines | cv_analyzer.py:183 | the count is 0 exactly when no line mentions a year, and equals the number of lines exactly when every line does |
| Fallback.YearLinesAppend | cv_analyzer.py:183 | the count over two batches of lines is the sum of the counts |
| Fallback.EstimateYears | cv_analyzer.py:184 | the estimate lies in [1, 15], is 1 exactly when no line mentions a year, 15 exactly from 13 lines on, and 1.2 per line in between |
| Fallback.EstimateYearsMonotone | cv_analyzer.py:184 | more year lines never lower the estimate |
| Fallback.NearestWhole | cv_analyzer.py:196 | the printed number of years lies within one half of the estimate |
| Fallback.FoundIn | cv_analyzer.py:187-188 | a word is found exactly when it is in the vocabulary and in the text, and the words found keep vocabulary order |
| Fallback.NiceCut | cv_analyzer.py:197-198 | the first five skills and the nice-to-have cut together give back all skills found |
| Fallback.FallbackAnalysis | cv_analyzer.py:158-204 | the record carries the filename; total years are the estimate from the year lines and lie in [1, 15], with relevant years 70% of them; the two skill lists together are the skills found, at most five each, holding exactly the vocabulary words in the lowercased text; name and title are the picks from the CV's lines, bounded and non-empty |
| Scorer.Clamp | cv_analyzer.py:352 | the result lies in [0, 100], equals the input inside that range, and is 0 below it and 100 above it |
| Scorer.FallbackScore | cv_analyzer.py:248-250 | the offline score lies in [20, 100] |
| Scorer.FallbackScoreMonotone | cv_analyzer.py:248-250 | more experience or more skills never lower the offline score |
| Scorer.FallbackScoreExample | cv_analyzer.py:248-250 | five years, three relevant, two must-have and one nice-to-have skill score 83.5 |
| Scorer.PyFloat | cv_analyzer.py:347 | `float()` of a number is that number and of a boolean 1.0 or 0.0; null, lists and objects raise |
| Scorer.ReadReply | cv_analyzer.py:343-347 | no reply is an error; the parse failure happens exactly when the reply does not parse; a parsed non-object is the error of its `.get`, an object whose score `float()` rejects the error of that conversion, and an object whose score converts gives that score |
| Scorer.ScoreCandidate | cv_analyzer.py:239-372 | the score always lies in [0, 100]; without a key or a usable reply it is the offline score; with one it is the reply's score clamped, and the reasoning and brief summary are the reply's own, or "No reasoning provided" and the title-and-years line when the reply lacks them; otherwise the reasoning names the fallback branch taken and the brief summary starts with the title-and-relevant-years line |
| Scorer.ScoreRoundTrip | cv_analyzer.py:343-354 | any reply object whose score, reasoning and brief summary encode an in-range result gives that result back, whatever other keys it holds |
| Scorer.PromptedReplyRoundTrip | cv_analyzer.py:313-354 | a reply in the prompted format, the three fields followed by the sub-scores, gives back the result it encodes |
| Scorer.ScoreClampExamples | cv_analyzer.py:351-352 | a reply score of 140 gives 100 and one of -10 gives 0 |
| Scorer.ScoreBadValueFallsBack | cv_analyzer.py:345-372 | a score `float()` rejects sends the call to the error fallback with the offline score |
| Extractor.Basename | parsing/extractor.py:50-53 | the name holds no "/", ends the path, and is preceded by "/" when shorter than it |
| Extractor.Suffix | parsing/extractor.py:9 | the suffix is empty or a dot-led ending of the name with no other dot, shorter than the name; it is empty for a name without a dot, ending in a dot, or whose only dot leads |
| Extractor.SuffixOfName | parsing/extractor.py:9 | a stem, a dot and a dot-free extension have the dot and extension as suffix ("cv.pdf" has ".pdf") |
| Extractor.RouteOf | parsing/extractor.py:9-26 | the PDF reader exactly for suffix ".pdf" and the Word reader exactly for ".doc" or ".docx", in any case |
| Extractor.PageTexts | parsing/extractor.py:12-14 | one text per page, a page without text giving "" |
| Extractor.PdfPagesRecovered | parsing/extractor.py:10-15 | the PDF text splits back into one piece per page |
| Extractor.ReadText | parsing/extractor.py:6-28 | each route reads through its reader, the text route never fails, and a PDF's text is its joined pages |
| Extractor.Kept | parsing/extractor.py:45 | a member is kept exactly when its lowercased path ends in a supported extension |
| Extractor.KeptAppend | parsing/extractor.py:45 | filtering a concatenation filters each part, so kept members stay in archive order with repeated names |
| Extractor.KeptSingle | parsing/extractor.py:45 | one entry is kept exactly when its path has a supported extension |
| Extractor.MemberTexts | parsing/extractor.py:48-52 | each kept member is read by `read_text` under its base name, in archive order |
| Extractor.ReadMembers | parsing/extractor.py:48-54 | every member read gives one document per member, in order, named by its base name and holding its text; any failed read fails the archive |
| Extractor.ReadArchive | parsing/extractor.py:45-54 | an archive's documents are one per kept member, in archive order, named by the member's base name and holding what `read_text` read; any failed read fails the archive |
| Extractor.ExpandUpload | parsing/extractor.py:42-60 | an archive yields what its kept members read (ReadArchive), a failed unzip fails, and any other upload gives one document under its own name |
| Extractor.Load | parsing/extractor.py:30-63 | the load succeeds exactly when every upload expands, and then yields one document per plain upload plus one per kept archive member |
| Extractor.LoadAppend | parsing/extractor.py:37-60 | loading two batches is loading each and concatenating, so upload order is kept |
| Extractor.LoadSingleFile | parsing/extractor.py:55-59 | a plain upload loads as one document under its own name |
| Extractor.LoadArchive | parsing/extractor.py:42-54 | a single archive upload loads as ReadArchive of its entries: its kept members, read in archive order under their base names |
| Extractor.LoadSingleArchive | parsing/extractor.py:37-60 | loading one upload is expanding it |
| Extractor.ArchiveExample | parsing/extractor.py:42-54 | an archive of a PDF, a Word file and a Markdown note yields the two CVs in order |
| Ranking.Insert | app.py:503 | inserting keeps the list sorted, adds exactly the new entry, and places it after the entries of equal score |
| Ranking.SortDesc | app.py:503 | the result is sorted by descending score, a permutation of the input, and keeps input order within each score |
| Ranking.SortedUnique | app.py:503 | two sorted lists with the same entries per score, in the same order, are equal |
| Ranking.SortDescIsTheStableOrder | app.py:503 | any descending arrangement that keeps input order within scores is the sort's result |
| Ranking.TiesKeepOrder | app.py:503 | two entries of equal score stay in their order |
| Ranking.Display | app.py:532-540 | the first min(50, n) entries, the one at index i ranked i + 1 |
| Ranking.DisplayShowsTheBest | app.py:532-540 | on a sorted list every shown entry scores at least as much as every hidden one, and shown scores descend |
| App.Analyses | app.py:465-471 | one record per document, in document order, each carrying the document's name |
| App.AnalyzeDoc | app.py:468-469 | the record is `analyze_cv_with_openai` of the cleaned text (the offline analysis of the cleaned text without a key or a reply), carries the document's name, and is not yet scored |
| App.Attach | app.py:494-496 | the score and reasoning are set, and nothing else in the record changes |
| App.ScoreAll | app.py:487-498 | one pair per candidate, in order, its score in [0, 100] and attached to the candidate |
| App.Run | app.py:421-503 | each guard stops the run exactly when it fails; a failed load crashes, an empty one stops; otherwise the ranking is sorted, a permutation of the scored pairs, as long as the load |
| App.RankedEntries | app.py:487-503 | every ranked entry has a score in [0, 100], attached to the record of one of the loaded documents |
| App.RankingIsStable | app.py:503 | the ranking keeps document order within each score and is the only descending arrangement that does |
| App.OfflineScoresAtLeast20 | cv_analyzer.py:365-372 | when no scoring reply arrives, every ranked score is at least 20 |
| App.UnpackPair | app.py:492 | unpacking succeeds exactly on a pair |
| App.RunAsWritten | app.py:445-515 | the run as written agrees with the corrected run up to the scoring loop |
| App.RunAsWrittenNeverRanks | app.py:492 | as written, no run reaches the results; where the corrected run ranks it ends in the handler, and elsewhere the two agree |
| App.AsWrittenFails | app.py:492 | as written, the scoring loop fails on the first candidate |
| App.Present | app.py:518-540 | results are shown exactly for a ranked run, with its count and title; the cards are the first min(50, n) ranked entries in order, card i holding entry i's score and candidate and ranked i + 1; the "top 50" note appears exactly when more were ranked |
| App.PageShowsTheBest | app.py:532-540 | on a ranked run every card outscores every candidate left off, and cards descend in score |

## Left out

- Streamlit presentation: CSS, HTML cards, tabs, progress bars, the sidebar, and the message texts of `st.error`.
- The session-state cache and its `hash`-based key (app.py:439-443, 505-510): a repeated press with the same inputs shows the stored results. The model recomputes them, which gives the same results for the same replies.
- The OpenAI calls and prompt texts. Replies are inputs indexed by document position.
- The byte-level readers: pdfplumber, docx2txt, zipfile, and the `/tmp` writes. They are the functions of `Extractor.Readers`.
- `print` and `logging` output.
- `to_dict` (cv_analyzer.py:32-46), a field copy.
- IEEE floating point. Scores and years are `real`, with no rounding, infinities or NaN. A digit string too long for a float is read exactly.
- Python `str()` of floats, lists and objects (`Codec.repr`). The formatting of "{relevant}y" in the scorer's brief summary is abstract too.
- Fallback.NearestWhole: rounds halves up instead of Python's round-half-even. The estimate is 1, 15 or a multiple of 1.2 up to 14.4, so no tie arises.
- PyStr.Lower: folds only A-Z, where Python's `lower()` folds all of Unicode. Vocabulary words and file extensions are ASCII, but a non-ASCII capital in a CV stays as it is.
- PyStr.IsDigit: the digit test of `safe_float` accepts only '0'-'9', where Python's `isdigit()` also accepts other Unicode digits.
- Analyzer.AnalyzeCv: an exception raised inside the analysis other than a failed call or an unusable reply is not modelled separately, because every such exception leads to the same fallback.
- Json.Lookup: returns the first member under a key, where a Python dict holds one value per key (the last one in the text, for `json.loads`). The model takes a parsed object to have distinct keys, as a dict does; Json.LookupDistinct states that under this assumption every member is what `get` finds. A `Codec.parse` whose result repeats a key is not excluded by a precondition.
- Extractor.Suffix: follows `PurePath.suffix` for a file name. A name holding '/' is not split into its last component first. The model applies Suffix to archive members' base names, as the source does through `/tmp/<name>`, and to upload names, which carry no directory.
- The dead guard at app.py:477-479: one record is produced per document, so it never fires after the check at app.py:449.

## Findings

| source | as written | input that shows it | evidently intended | confidence | as-written member | corrected member |
|---|---|---|---|---|---|---|
| app.py:492 | `score, reasoning = score_candidate_with_ai(...)` unpacks the three-item result (score, reasoning, brief summary) into two names, which raises ValueError | any run whose inputs pass the guards and whose upload yields at least one document, e.g. one plain-text CV with a title, a description and a key | unpack all three items and rank the `(score, candidate)` pairs | high (not executed) | App.RunAsWrittenNeverRanks | App.Run |
