# Resume assistant core, modelled in Dafny

This project models the deterministic core of a browser-based resume
assistant. The application extracts text from an uploaded resume and sends
prompts built from it to a chat model. It shows the replies, scores a
multiple-choice quiz the model generated, and assembles the stored results
into a downloadable text report. Everything around that core is a call into
a library: the page framework, the PDF reader, the chat-completion client,
the JSON decoder and the charting library.

The modelled pieces, one Dafny module each:

- `Text`: the Python string operations the core relies on. These are
  `str.strip()` with the exact `str.isspace()` character set, `str.lower()`,
  `str.replace(" ", "_")`, `str(n)` and `sep.join(parts)`.
- `Extract`: `extract_text_from_pdf`. A document is a sequence of page texts,
  with `None` for a page that yields nothing. The result is the truthy pages
  concatenated in order, then stripped.
- `Quiz`: the parsed quiz (skill blocks, questions) and the defaulted field
  reads "Unknown Skill", `[]`, "No question provided" and `""`. It also
  builds the answer key `f"{skill.replace(' ', '_')}_{idx}"`.
- `Tally`: the per-skill dictionary `skill_scores`. It is a sequence of
  entries with distinct names, in insertion order, as a Python dictionary
  keeps them.
- `Scoring`: the submission loop (`ScoreQuiz`, `ScoreBlock`), plus reference
  definitions of the rows, the score and the tally. Lemmas say what these
  mean.
- `Rating`: the four percentage bands. The body computes the source's
  `(score / question_count) * 100` exactly instead of in floating point. The contract states each band
  by integer cross-multiplication.
- `State`: the session record with its five optional items.
- `Report`: the report sections and their join.
- `App`: one run of the page script. The resume upload comes first. Then
  the About gate and the resume gate. Then the chosen page writes its item.
  `Wf` is the session invariant that every run preserves.

Answers are compared case-sensitively on the user's side. The code
lower-cases only the recorded answer (app.py:338) and compares it with the
answer as given (app.py:347). `Scoring.UpperCaseAnswerNeverScores` states
the consequence: an answer that holds an upper-case letter is never scored
correct.

## Model

| member | source | states |
|---|---|---|
| `Text.Strip` | app.py:79 | the result is a slice of the input that neither starts nor ends with white space, and everything cut off on either side is white space |
| `Text.StripUnique` | app.py:79 | any string that meets that description equals `Strip(s)`, so the description pins the result down |
| `Text.StripIdempotent` | app.py:79 | stripping an already stripped text changes nothing |
| `Text.Lower` | app.py:338 | the lower-cased answer has the same length, each upper-case letter becomes its lower-case letter, and every other character stays |
| `Text.LowerFixesLower` | app.py:338 | lower-casing a string without upper-case letters returns it unchanged |
| `Text.ReplaceSpaces` | app.py:332 | the skill key has the name's length and no space; each space becomes `_` and every other character stays |
| `Text.NatToString` | app.py:336 | `str(n)` is a non-empty string of decimal digits in canonical form: it starts with `0` only for zero, and never has a leading zero |
| `Text.NatToStringRoundTrip` | app.py:336 | reading back the decimal digits of the question index gives the index |
| `Text.NatToStringInjective` | app.py:336 | distinct indices are written differently |
| `Text.JoinLength` | app.py:458 | the joined report ends where its last section ends |
| `Text.JoinPart` | app.py:458 | each section sits in the joined text at its offset, unchanged |
| `Text.JoinSeparator` | app.py:458 | exactly one separator lies between each section and the next |
| `Text.JoinEmptyIff` | app.py:458 | a join of non-empty sections is empty exactly when there are none |
| `Extract.Kept` | app.py:75-78 | the kept page texts are non-empty and no more numerous than the pages |
| `Extract.ExtractTextFromPdf` | app.py:71-79 | the loop returns the strip of the in-order concatenation of the truthy pages |
| `Extract.ExtractSplits` | app.py:74-79 | pages keep their order and nothing is put between pages |
| `Extract.SkippedPageLeavesNoTrace` | app.py:76-78 | inserting a page with no text, or empty text, anywhere leaves the result unchanged |
| `Extract.NoTextGivesEmpty` | app.py:74-79 | a document whose pages all yield nothing extracts to the empty string |
| `Quiz.CorrectAnswer` | app.py:338 | the recorded answer read for comparison is the recorded answer lower-cased letter by letter, and `""` when the field is missing |
| `Quiz.AnswerKey` | app.py:332-336 | the answer key is longer than the skill name it is built from |
| `Quiz.AnswerKeysDistinct` | app.py:332-336 | two questions of one skill never share an answer key |
| `Quiz.AnswerKeyCollision` | app.py:332-336 | two questions share an answer key exactly when their skill names agree once spaces become underscores and their indices agree |
| `Quiz.SpaceUnderscoreKeysCollide` | app.py:332-336 | skill names differing only in space versus underscore read the same answer slots |
| `Tally.TallyFor` | app.py:351-357 | a skill with no entry reads as zero correct out of zero |
| `Tally.TallyForPresent` | app.py:351-357 | in a tally with distinct names, a skill that has an entry reads that entry's counts |
| `Tally.BumpExisting` | app.py:351-357 | updating an existing skill keeps every entry's name and position |
| `Tally.BumpExistingTally` | app.py:351-357 | that update bumps the skill's own tally: one more question, one more correct answer when right |
| `Tally.BumpExistingOther` | app.py:351-357 | that update leaves every other skill's tally alone |
| `Tally.BumpExistingSums` | app.py:351-357 | that update adds one to the sum of correct counts when the answer was right, and nothing otherwise |
| `Tally.BumpExistingTotal` | app.py:351-357 | that update adds one to the sum of totals |
| `Tally.BumpExistingValid` | app.py:351-357 | that update keeps every tally at one or more questions with no more correct answers than questions |
| `Tally.RecordSkills` | app.py:351-357 | `setdefault` plus increment adds the skill to the key set and no other key |
| `Tally.RecordKeepsOrder` | app.py:351-357 | earlier keys keep their insertion positions and at most one key is appended at the end |
| `Tally.RecordWellFormed` | app.py:351-357 | keys stay distinct and every tally stays at one or more questions with no more correct answers than questions |
| `Tally.RecordTally` | app.py:351-357 | recording a question bumps its own skill's tally and no other |
| `Tally.RecordSums` | app.py:351-357 | recording a question adds one to the total sum, and to the correct sum when right |
| `Scoring.Judge` | app.py:336-355 | a row records the skill name, the question text (defaulted), the answer stored under the question's key and the lower-cased recorded answer; it is "Correct" exactly when the stored answer equals the lower-cased recorded answer |
| `Scoring.CountWhere` | app.py:347-348 | a count of rows never exceeds the number of rows |
| `Scoring.ScoreQuiz` | app.py:325-358 | the nested loop yields the question count, the rows in skill-then-index order, the number of correct rows and the tally of those rows |
| `Scoring.ScoreBlock` | app.py:333-358 | the inner loop adds the block's question count and appends one row per question, row `i` judging question `i` under its own key, keeping the score and tally in step |
| `Scoring.ResultsLength` | app.py:334-335 | there is exactly one row per question; a block with no questions field adds none |
| `Scoring.ResultsAt` | app.py:330-358 | question `i` of block `j` is row `QuestionCount(quiz[..j]) + i`, scored against its own answer |
| `Scoring.ScoreCountsMatches` | app.py:337-348 | the score is the number of questions whose answer equals the lower-cased recorded answer |
| `Scoring.ScoreBounds` | app.py:325-358 | the score is at most the question count, and the rows number the question count |
| `Scoring.SkillScoresSkills` | app.py:351-357 | the tally's keys are exactly the skills that have a row |
| `Scoring.SkillScoresWellFormed` | app.py:351-357 | the tally's keys are distinct and each entry counts one or more questions with no more correct answers than questions |
| `Scoring.SkillScoresSums` | app.py:351-357 | the tally's totals add up to the number of rows and its correct counts to the score |
| `Scoring.SkillScoresPerSkill` | app.py:351-357 | each skill's entry counts exactly that skill's rows and, among them, the correct ones |
| `Scoring.TalliedSkills` | app.py:330-357 | the skills with an entry are exactly the skills that have at least one question |
| `Scoring.SkillTotalsMerge` | app.py:330-357 | a skill's total is the number of questions in all blocks of that name, so blocks sharing a name merge |
| `Scoring.UpperCaseAnswerNeverScores` | app.py:337-347 | an answer holding an upper-case letter is never scored correct |
| `Scoring.LowerAnswerMatchesAnyCase` | app.py:337-347 | a question with a recorded answer scores exactly when the user's answer spells that answer letter by letter in lower case, whatever the recorded case |
| `Scoring.LowerLetterMatchesUpperRecord` | app.py:337-347 | the answer "a" scores against a recorded "A" |
| `Rating.PercentageAtLeast` | app.py:360-362 | the percentage reaches a bound exactly when `100 * score` reaches `bound * count` |
| `Rating.Rate` | app.py:360-370 | "Excellent" iff at least 80 percent, "Good" iff at least 60 and under 80, "Average" iff at least 40 and under 60, otherwise "Needs Improvement"; each boundary falls into the higher band |
| `Rating.RateMonotone` | app.py:362-370 | for a fixed question count, more correct answers never give a lower rating |
| `Rating.BoundaryExamples` | app.py:362-370 | 8 of 10 rates Excellent, 6 of 10 Good, 4 of 10 Average, 3999 of 10000 Needs Improvement |
| `Report.PresentPartsExact` | app.py:445-456 | the report's parts are exactly the stored items, each once, in the order resume, quiz, recommendations, cover letter, job-description analysis |
| `Report.SectionsFollowParts` | app.py:445-456 | the five conditional appends give one section per stored item, in that order, each its header followed by its body |
| `Report.ReportSectionAt` | app.py:445-458 | each present section sits whole in the report at its offset |
| `Report.ReportSeparatorAt` | app.py:458 | a blank line, and nothing else, lies between neighbouring sections |
| `Report.ReportLength` | app.py:458 | the report ends where its last section ends |
| `Report.HeadersPrefixFree` | app.py:447-456 | no header is a prefix of a section opened by a different header |
| `Report.AbsentPartHasNoSection` | app.py:445-456 | no section opens with the header of an item that is not stored |
| `Report.ReportEmptyIff` | app.py:445-458 | the report is empty exactly when nothing is stored |
| `Report.ResumeAndCoverLetter` | app.py:445-458 | with only a resume and a cover letter stored, the report is the resume section, a blank line, then the cover-letter section |
| `App.ScoreIsValid` | app.py:325-393 | a scored quiz with questions is a consistent record: positive total, score at most total, one row per question, and tally sums matching |
| `App.StepPreservesWf` | app.py:246-458 | every run keeps the session invariant: consistent quiz result, recommendations only next to a quiz result, nothing stored before a resume |
| `App.RunPreservesWf` | app.py:246-458 | every session reachable from a fresh one satisfies the invariant |
| `App.GateWithoutResume` | app.py:279-281 | with no resume text, every page but About only warns and stores nothing |
| `App.ResumeStoredOnce` | app.py:246-251 | once stored, the resume text is never replaced by a later upload |
| `App.StepWritesOnlyItsItem` | app.py:246-440 | each stored item changes only on its own page; the resume text changes only when none was stored |
| `App.RecommendationsNeedQuiz` | app.py:398-399 | before a quiz is scored, asking for recommendations warns and stores nothing |
| `App.RecommendationsAfterQuiz` | app.py:400-410 | with a quiz result stored in a well-formed session, the recommendations are stored and no division by zero happens |
| `App.SubmitStoresScore` | app.py:360-393 | a submitted quiz with questions stores its record and shows the score, the question count and the label of the rating of the number of matching answers out of the question count |
| `App.SubmitWithoutQuestions` | app.py:360 | a quiz whose blocks hold no question stops with a division by zero and keeps the previous result |
| `App.BlankJobDescriptionStoresNothing` | app.py:417-420 | a blank job description stores neither a cover letter nor an analysis |

## Left out

- Page rendering, CSS, widgets, spinners, the typing effect (`simulate_typing`) and the per-skill chart (app.py:373-387) are presentation only. The model keeps what they show as a `Notice`.
- `generate_response` and the five prompt builders each make one network call. The reply is an input of the action that needs it.
- PyPDF2 and UTF-8 decoding are library calls. A PDF is its sequence of page texts, and a plain-text upload is its decoded string.
- `parse_mcq_json` and the JSON encoder are library wrappers. The quiz is given already parsed, as the `Quiz` datatypes. JSON values of the wrong type, such as a `null` recorded answer, are not modelled. The detailed rows in the report are serialised by a `dump` parameter.
- The job-description upload (app.py:253-259) only pre-fills a text area. The actions carry the text area's content.
- The quiz is regenerated on every run (app.py:301), so in the application the submitted answers are scored against a fresh reply. The model scores the quiz given with the submission.
- Streamlit refuses two widgets with one key while rendering the form (app.py:314-321). That is library behaviour, so scoring is modelled for any quiz, including blocks that share a skill name.
- Text.Lower: only ASCII letters are lower-cased. Python's `str.lower()` covers all of Unicode, and the recorded answers are option letters.
- Rating.Rate: the percentage is exact. The source's binary floating-point quotient and `:.2f` formatting are not modelled.
