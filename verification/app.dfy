/** One run of the page script for one user action: the resume upload is
    taken in first, then the chosen page runs behind its gates and writes its
    result into the session. Replies of the language model are inputs of the
    actions; the widgets, spinners and typing effect are not modelled. */
module App {
  import opened Optional
  import opened Text
  import opened Extract
  import opened Quiz
  import opened Tally
  import opened Scoring
  import opened Rating
  import opened State
  import opened Report

  datatype Mode =
    | About
    | ResumeAnalysis
    | SkillsQuiz
    | LearningRecommendations
    | CoverLetterGenerator
    | JobDescriptionAnalyzer
    | DownloadReport

  /** The resume file in the sidebar uploader, by its declared type. */
  datatype Upload =
    | NoUpload
    | PdfUpload(pages: seq<Option<string>>)
    | TextUpload(decoded: string)
    | OtherUpload

  /** What the user does on the chosen page. A reply is the text the
      completion call returned for the page's prompt; a job description is
      the content of the page's text area. */
  datatype Action =
    | ViewAbout
    | AnalyzeResume(reply: string)
    | SubmitQuiz(quiz: QuizSpec, answers: Answers)
    | RequestRecommendations(reply: string)
    | GenerateCoverLetter(jobDescription: string, reply: string)
    | AnalyzeJobDescription(jobDescription: string, reply: string)
    | ExportReport(dump: seq<DetailedResult> -> string)

  function ModeOf(a: Action): Mode {
    match a
    case ViewAbout => About
    case AnalyzeResume(_) => ResumeAnalysis
    case SubmitQuiz(_, _) => SkillsQuiz
    case RequestRecommendations(_) => LearningRecommendations
    case GenerateCoverLetter(_, _) => CoverLetterGenerator
    case AnalyzeJobDescription(_, _) => JobDescriptionAnalyzer
    case ExportReport(_) => DownloadReport
  }

  /** What the page shows besides the stored state. */
  datatype Notice =
    | Quiet
    | UploadResumeWarning
    | CompleteQuizWarning
    | JobDescriptionError
    | ShowReply(text: string)
    | ShowRating(score: nat, total: nat, rating: string)
    | ShowReport(report: string)
    | DivisionByZero

  datatype Outcome = Outcome(session: Session, notice: Notice)

  /** The upload step: the first resume text read is kept for the session;
      a PDF is extracted, a plain-text file taken as decoded, any other type
      ignored. */
  function StoreResume(s: Session, upload: Upload): Session {
    if s.resumeText.Some? then s
    else
      match upload
      case PdfUpload(pages) => s.(resumeText := Some(ExtractText(pages)))
      case TextUpload(text) => s.(resumeText := Some(text))
      case _ => s
  }

  /** One run of the page script. */
  function Step(s: Session, upload: Upload, action: Action): Outcome {
    var s1 := StoreResume(s, upload);
    if ModeOf(action) == About then Outcome(s1, Quiet)
    else if s1.resumeText.None? then Outcome(s1, UploadResumeWarning)
    else
      match action
      case ViewAbout => Outcome(s1, Quiet)
      case AnalyzeResume(reply) => Outcome(s1, ShowReply(reply))
      case SubmitQuiz(quiz, answers) =>
        if |quiz| == 0 then Outcome(s1, Quiet)
        else
          var record := Score(quiz, answers);
          if record.total == 0 then Outcome(s1, DivisionByZero)
          else
            Outcome(s1.(quizResults := Some(record)),
                    ShowRating(record.score, record.total, Label(Rate(record.score, record.total))))
      case RequestRecommendations(reply) =>
        if s1.quizResults.None? then Outcome(s1, CompleteQuizWarning)
        else if s1.quizResults.value.total == 0 then Outcome(s1, DivisionByZero)
        else Outcome(s1.(recommendations := Some(reply)), ShowReply(reply))
      case GenerateCoverLetter(jobDescription, reply) =>
        if Strip(jobDescription) == "" then Outcome(s1, JobDescriptionError)
        else Outcome(s1.(coverLetter := Some(reply)), ShowReply(reply))
      case AnalyzeJobDescription(jobDescription, reply) =>
        if Strip(jobDescription) == "" then Outcome(s1, JobDescriptionError)
        else Outcome(s1.(jdAnalysis := Some(reply)), ShowReply(reply))
      case ExportReport(dump) => Outcome(s1, ShowReport(ReportText(s1, dump)))
  }

  datatype Event = Event(upload: Upload, action: Action)

  /** The session after a series of runs. */
  function Run(s: Session, events: seq<Event>): Session {
    if |events| == 0 then s
    else
      var e := events[|events| - 1];
      Step(Run(s, events[..|events| - 1]), e.upload, e.action).session
  }

  /** A stored quiz result is internally consistent. */
  predicate ValidRecord(r: QuizRecord) {
    && 0 < r.total
    && r.score <= r.total
    && |r.detailed| == r.total
    && SumTotal(r.skillScores) == r.total
    && SumCorrect(r.skillScores) == r.score
    && WellFormed(r.skillScores)
  }

  /** What every reachable session satisfies: a stored quiz result is
      consistent, recommendations exist only next to a quiz result, and
      nothing is stored before a resume. */
  predicate Wf(s: Session) {
    && (s.quizResults.Some? ==> ValidRecord(s.quizResults.value))
    && (s.recommendations.Some? ==> s.quizResults.Some?)
    && ((s.quizResults.Some? || s.recommendations.Some? || s.coverLetter.Some? || s.jdAnalysis.Some?)
        ==> s.resumeText.Some?)
  }

  /** A scored quiz with at least one question is a consistent record. */
  lemma ScoreIsValid(quiz: QuizSpec, answers: Answers)
    requires QuestionCount(quiz) > 0
    ensures ValidRecord(Score(quiz, answers))
  {
    ScoreBounds(quiz, answers);
    SkillScoresSums(Results(quiz, answers));
    ResultsLength(quiz, answers);
    TalliedSkills(quiz, answers);
  }

  /** Every run keeps the session well-formed. */
  lemma StepPreservesWf(s: Session, upload: Upload, action: Action)
    requires Wf(s)
    ensures Wf(Step(s, upload, action).session)
  {
    if action.SubmitQuiz? && QuestionCount(action.quiz) > 0 {
      ScoreIsValid(action.quiz, action.answers);
    }
  }

  /** Every session reachable from a fresh one is well-formed. */
  lemma {:induction false} RunPreservesWf(events: seq<Event>)
    ensures Wf(Run(Fresh, events))
  {
    if |events| > 0 {
      RunPreservesWf(events[..|events| - 1]);
      var e := events[|events| - 1];
      StepPreservesWf(Run(Fresh, events[..|events| - 1]), e.upload, e.action);
    }
  }

  /** Without a resume every page but About only warns: nothing is stored. */
  lemma GateWithoutResume(s: Session, upload: Upload, action: Action)
    requires ModeOf(action) != About
    requires StoreResume(s, upload).resumeText.None?
    ensures Step(s, upload, action) == Outcome(s, UploadResumeWarning)
  {
  }

  /** Once a resume text is stored, no later upload replaces it. */
  lemma ResumeStoredOnce(s: Session, upload: Upload, action: Action)
    requires s.resumeText.Some?
    ensures Step(s, upload, action).session.resumeText == s.resumeText
  {
  }

  /** Each stored item is written only by its own page: the quiz result by a
      submission, recommendations by a request for them, the cover letter
      and the job-description analysis by their pages; the resume text only
      by the first upload. */
  lemma StepWritesOnlyItsItem(s: Session, upload: Upload, action: Action)
    ensures var r := Step(s, upload, action).session;
      && (r.quizResults != s.quizResults ==> action.SubmitQuiz?)
      && (r.recommendations != s.recommendations ==> action.RequestRecommendations?)
      && (r.coverLetter != s.coverLetter ==> action.GenerateCoverLetter?)
      && (r.jdAnalysis != s.jdAnalysis ==> action.AnalyzeJobDescription?)
      && (r.resumeText != s.resumeText ==> s.resumeText.None? && r.resumeText == StoreResume(s, upload).resumeText)
  {
  }

  /** Asking for recommendations before a quiz was scored only warns and
      stores nothing. */
  lemma RecommendationsNeedQuiz(s: Session, upload: Upload, reply: string)
    requires s.quizResults.None?
    ensures Step(s, upload, RequestRecommendations(reply)).session == StoreResume(s, upload)
    ensures Step(s, upload, RequestRecommendations(reply)).notice in {UploadResumeWarning, CompleteQuizWarning}
  {
  }

  /** In a well-formed session a request for recommendations never divides
      by zero: once a quiz is stored, the recommendations are stored. */
  lemma RecommendationsAfterQuiz(s: Session, upload: Upload, reply: string)
    requires Wf(s) && s.quizResults.Some?
    ensures Step(s, upload, RequestRecommendations(reply)).session.recommendations == Some(reply)
  {
  }

  /** A submitted quiz with questions stores its score and shows its rating. */
  lemma SubmitStoresScore(s: Session, upload: Upload, quiz: QuizSpec, answers: Answers)
    requires StoreResume(s, upload).resumeText.Some?
    requires QuestionCount(quiz) > 0
    ensures var o := Step(s, upload, SubmitQuiz(quiz, answers));
      && o.session == StoreResume(s, upload).(quizResults := Some(Score(quiz, answers)))
      && o.notice == ShowRating(MatchCount(quiz, answers), QuestionCount(quiz),
                                Label(Rate(MatchCount(quiz, answers), QuestionCount(quiz))))
  {
    ScoreCountsMatches(quiz, answers);
  }

  /** A quiz whose blocks hold no question fails on the percentage: the page
      stops with a division by zero and the previous result stays. */
  lemma SubmitWithoutQuestions(s: Session, upload: Upload, quiz: QuizSpec, answers: Answers)
    requires StoreResume(s, upload).resumeText.Some?
    requires |quiz| > 0 && QuestionCount(quiz) == 0
    ensures Step(s, upload, SubmitQuiz(quiz, answers)) == Outcome(StoreResume(s, upload), DivisionByZero)
  {
  }

  /** A cover letter or job-description analysis needs a job description
      that is not blank; a blank one stores nothing. */
  lemma BlankJobDescriptionStoresNothing(s: Session, upload: Upload, jobDescription: string, reply: string)
    requires Strip(jobDescription) == ""
    ensures Step(s, upload, GenerateCoverLetter(jobDescription, reply)).session == StoreResume(s, upload)
    ensures Step(s, upload, AnalyzeJobDescription(jobDescription, reply)).session == StoreResume(s, upload)
  {
  }
}
