/** The per-session record the pages write into and the report reads from
    (`st.session_state`), with one optional slot per stored item. */
module State {
  import opened Optional
  import opened Scoring

  datatype Session = Session(
    resumeText: Option<string>,
    quizResults: Option<QuizRecord>,
    recommendations: Option<string>,
    coverLetter: Option<string>,
    jdAnalysis: Option<string>)

  /** A session nothing has been written to yet. */
  const Fresh := Session(None, None, None, None, None)
}
