/** Scoring a submitted quiz: the loop over skill blocks and questions that
    builds the score, the question count, the ordered detailed results and
    the per-skill tally. */
module Scoring {
  import opened Optional
  import opened Text
  import opened Quiz
  import opened Tally

  datatype Status = Correct | Incorrect

  /** One row of `detailed_results`. `userAnswer` is `None` when the form
      left nothing under the question's key. */
  datatype DetailedResult = DetailedResult(
    skill: string,
    question: string,
    userAnswer: Option<string>,
    correctAnswer: string,
    status: Status)

  /** The answers the quiz form left in session state, by `AnswerKey`. */
  type Answers = map<string, string>

  /** `st.session_state.get(key)` */
  function UserAnswer(answers: Answers, key: string): Option<string> {
    if key in answers then Some(answers[key]) else None
  }

  /** Whether the answer given to question `idx` of skill `skill` is exactly
      the recorded answer after lower-casing the recorded answer alone. */
  predicate Matches(skill: string, idx: nat, q: Question, answers: Answers) {
    UserAnswer(answers, AnswerKey(skill, idx)) == Some(CorrectAnswer(q))
  }

  /** One question of one skill block, scored. */
  function Judge(skill: string, idx: nat, q: Question, answers: Answers): (r: DetailedResult)
    ensures r.status == Correct <==> r.userAnswer == Some(r.correctAnswer)
    ensures r.status == Correct <==> Matches(skill, idx, q, answers)
    ensures forall k :: 0 <= k < |r.correctAnswer| ==> !IsUpper(r.correctAnswer[k])
    ensures r.skill == skill && r.question == QuestionText(q)
    ensures r.userAnswer == UserAnswer(answers, AnswerKey(skill, idx)) && r.correctAnswer == CorrectAnswer(q)
  {
    var user := UserAnswer(answers, AnswerKey(skill, idx));
    var correct := CorrectAnswer(q);
    DetailedResult(skill, QuestionText(q), user, correct,
      if user == Some(correct) then Correct else Incorrect)
  }

  /** The rows of one skill block, question by question. */
  function BlockResults(b: SkillBlock, answers: Answers): (r: seq<DetailedResult>)
    ensures |r| == |QuestionsOf(b)|
    ensures forall i :: 0 <= i < |r| ==>
      r[i] == Judge(SkillName(b), i, QuestionsOf(b)[i], answers)
  {
    var qs := QuestionsOf(b);
    seq(|qs|, i requires 0 <= i < |qs| => Judge(SkillName(b), i, qs[i], answers))
  }

  /** The rows of a whole quiz: block after block. */
  function Results(quiz: QuizSpec, answers: Answers): seq<DetailedResult> {
    if |quiz| == 0 then []
    else Results(quiz[..|quiz| - 1], answers) + BlockResults(quiz[|quiz| - 1], answers)
  }

  /** Which rows a count looks at. */
  datatype Selector = AllCorrect | OfSkill(skill: string) | CorrectOfSkill(skill: string)

  predicate Selects(sel: Selector, d: DetailedResult) {
    match sel
    case AllCorrect => d.status == Correct
    case OfSkill(n) => d.skill == n
    case CorrectOfSkill(n) => d.skill == n && d.status == Correct
  }

  /** The number of rows `sel` looks at. */
  function CountWhere(ds: seq<DetailedResult>, sel: Selector): (c: nat)
    ensures c <= |ds|
  {
    if |ds| == 0 then 0
    else CountWhere(ds[..|ds| - 1], sel) + (if Selects(sel, ds[|ds| - 1]) then 1 else 0)
  }

  /** The per-skill tally of a list of rows, skills in order of first appearance. */
  function SkillScoresOf(ds: seq<DetailedResult>): SkillScores {
    if |ds| == 0 then []
    else Record(SkillScoresOf(ds[..|ds| - 1]), ds[|ds| - 1].skill, ds[|ds| - 1].status == Correct)
  }

  /** The skills a list of rows is about. */
  function RowSkills(ds: seq<DetailedResult>): set<string> {
    set k | 0 <= k < |ds| :: ds[k].skill
  }

  /** The tally has exactly one entry per skill that has a row... */
  lemma {:induction false} SkillScoresSkills(ds: seq<DetailedResult>)
    ensures Skills(SkillScoresOf(ds)) == RowSkills(ds)
  {
    if |ds| > 0 {
      var init := ds[..|ds| - 1];
      var last := ds[|ds| - 1];
      SkillScoresSkills(init);
      RecordSkills(SkillScoresOf(init), last.skill, last.status == Correct);
      RowSkillsSnoc(ds);
    }
  }

  lemma RowSkillsSnoc(ds: seq<DetailedResult>)
    requires |ds| > 0
    ensures RowSkills(ds) == RowSkills(ds[..|ds| - 1]) + {ds[|ds| - 1].skill}
  {
    var init := ds[..|ds| - 1];
    var last := ds[|ds| - 1];
    RowSkillsAppend(init, [last]);
    assert init + [last] == ds;
    assert RowSkills([last]) == {last.skill};
  }

  /** ...and its entries are distinct, each counting at least one question and
      no more correct answers than questions. */
  lemma {:induction false} SkillScoresWellFormed(ds: seq<DetailedResult>)
    ensures WellFormed(SkillScoresOf(ds))
  {
    if |ds| > 0 {
      var init := ds[..|ds| - 1];
      SkillScoresWellFormed(init);
      RecordWellFormed(SkillScoresOf(init), ds[|ds| - 1].skill, ds[|ds| - 1].status == Correct);
    }
  }

  /** What `st.session_state.quiz_results` holds after a submission. */
  datatype QuizRecord = QuizRecord(
    score: nat,
    total: nat,
    detailed: seq<DetailedResult>,
    skillScores: SkillScores)

  /** The scored quiz, as a value. */
  function Score(quiz: QuizSpec, answers: Answers): QuizRecord {
    var ds := Results(quiz, answers);
    QuizRecord(CountWhere(ds, AllCorrect), QuestionCount(quiz), ds, SkillScoresOf(ds))
  }

  /** The submission loop: every question of every block in order, counting
      it, reading its answer, comparing with the lower-cased recorded answer,
      appending its row and adding it to its skill's tally. */
  method ScoreQuiz(quiz: QuizSpec, answers: Answers)
    returns (score: nat, questionCount: nat, detailedResults: seq<DetailedResult>, skillScores: SkillScores)
    ensures questionCount == QuestionCount(quiz)
    ensures detailedResults == Results(quiz, answers)
    ensures score == CountWhere(detailedResults, AllCorrect)
    ensures skillScores == SkillScoresOf(detailedResults)
  {
    score, questionCount, detailedResults, skillScores := 0, 0, [], [];
    var b := 0;
    while b < |quiz|
      invariant 0 <= b <= |quiz|
      invariant questionCount == QuestionCount(quiz[..b])
      invariant detailedResults == Results(quiz[..b], answers)
      invariant score == CountWhere(detailedResults, AllCorrect)
      invariant skillScores == SkillScoresOf(detailedResults)
    {
      PrefixStep(quiz, b, answers);
      score, questionCount, detailedResults, skillScores :=
        ScoreBlock(quiz[b], answers, score, questionCount, detailedResults, skillScores);
      b := b + 1;
    }
    assert quiz[..b] == quiz;
  }

  /** The inner loop of the submission: the questions of one block. */
  method ScoreBlock(block: SkillBlock, answers: Answers,
                    score0: nat, count0: nat, rows0: seq<DetailedResult>, tally0: SkillScores)
    returns (score: nat, questionCount: nat, detailedResults: seq<DetailedResult>, skillScores: SkillScores)
    requires score0 == CountWhere(rows0, AllCorrect)
    requires tally0 == SkillScoresOf(rows0)
    ensures questionCount == count0 + |QuestionsOf(block)|
    ensures detailedResults == rows0 + BlockResults(block, answers)
    ensures score == CountWhere(detailedResults, AllCorrect)
    ensures skillScores == SkillScoresOf(detailedResults)
  {
    score, questionCount, detailedResults, skillScores := score0, count0, rows0, tally0;
    var skillName := block.skill.GetOr(UnknownSkill);
    var questions := block.questions.GetOr([]);
    var idx := 0;
    while idx < |questions|
      invariant 0 <= idx <= |questions|
      invariant questionCount == count0 + idx
      invariant detailedResults == rows0 + BlockResults(block, answers)[..idx]
      invariant score == CountWhere(detailedResults, AllCorrect)
      invariant skillScores == SkillScoresOf(detailedResults)
    {
      questionCount := questionCount + 1;
      var row := Judge(skillName, idx, questions[idx], answers);
      if row.status == Correct {
        score := score + 1;
      }
      skillScores := Record(skillScores, skillName, row.status == Correct);
      AppendRowCount(detailedResults, row);
      AppendRowTally(detailedResults, row);
      BlockStep(block, answers, idx);
      detailedResults := detailedResults + [row];
      idx := idx + 1;
    }
    assert BlockResults(block, answers)[..idx] == BlockResults(block, answers);
  }

  /** One more block adds its questions to the count and its rows at the end. */
  lemma PrefixStep(quiz: QuizSpec, b: nat, answers: Answers)
    requires b < |quiz|
    ensures QuestionCount(quiz[..b + 1]) == QuestionCount(quiz[..b]) + |QuestionsOf(quiz[b])|
    ensures Results(quiz[..b + 1], answers) == Results(quiz[..b], answers) + BlockResults(quiz[b], answers)
  {
    assert quiz[..b + 1][..b] == quiz[..b];
  }

  /** Appending one row adds one to the count of correct rows when it is correct. */
  lemma AppendRowCount(ds: seq<DetailedResult>, row: DetailedResult)
    ensures CountWhere(ds + [row], AllCorrect)
         == CountWhere(ds, AllCorrect) + (if row.status == Correct then 1 else 0)
  {
    assert (ds + [row])[..|ds|] == ds;
  }

  /** Appending one row records it in the tally. */
  lemma AppendRowTally(ds: seq<DetailedResult>, row: DetailedResult)
    ensures SkillScoresOf(ds + [row]) == Record(SkillScoresOf(ds), row.skill, row.status == Correct)
  {
    assert (ds + [row])[..|ds|] == ds;
  }

  /** Question `idx` of a block contributes the next row. */
  lemma BlockStep(block: SkillBlock, answers: Answers, idx: nat)
    requires idx < |QuestionsOf(block)|
    ensures BlockResults(block, answers)[..idx + 1]
         == BlockResults(block, answers)[..idx] + [Judge(SkillName(block), idx, QuestionsOf(block)[idx], answers)]
  {
  }

  // ---------------------------------------------------------------------
  // What the scored quiz means
  // ---------------------------------------------------------------------

  lemma {:induction false} CountWhereAppend(a: seq<DetailedResult>, b: seq<DetailedResult>, sel: Selector)
    ensures CountWhere(a + b, sel) == CountWhere(a, sel) + CountWhere(b, sel)
  {
    if |b| == 0 {
      assert a + b == a;
    } else {
      assert (a + b)[..|a + b| - 1] == a + b[..|b| - 1];
      CountWhereAppend(a, b[..|b| - 1], sel);
    }
  }

  /** There is one row per question. */
  lemma {:induction false} ResultsLength(quiz: QuizSpec, answers: Answers)
    ensures |Results(quiz, answers)| == QuestionCount(quiz)
  {
    if |quiz| > 0 {
      ResultsLength(quiz[..|quiz| - 1], answers);
    }
  }

  /** The rows come skill block by skill block and, inside a block, question
      by question: question `i` of block `j` is row `QuestionCount(quiz[..j]) + i`,
      scored against the answer kept under its own key. */
  lemma {:induction false} ResultsAt(quiz: QuizSpec, answers: Answers, j: nat, i: nat)
    requires j < |quiz| && i < |QuestionsOf(quiz[j])|
    ensures QuestionCount(quiz[..j]) + i < |Results(quiz, answers)|
    ensures Results(quiz, answers)[QuestionCount(quiz[..j]) + i]
         == Judge(SkillName(quiz[j]), i, QuestionsOf(quiz[j])[i], answers)
  {
    var n := |quiz|;
    var init := quiz[..n - 1];
    var front, back := Results(init, answers), BlockResults(quiz[n - 1], answers);
    assert Results(quiz, answers) == front + back;
    ResultsLength(init, answers);
    if j < n - 1 {
      ResultsAt(init, answers, j, i);
      assert init[..j] == quiz[..j];
      assert init[j] == quiz[j];
      PrefixCountBound(init, j);
      RowInFront(front, back, QuestionCount(quiz[..j]) + i);
    } else {
      assert quiz[..j] == init;
      RowBehind(front, back, QuestionCount(init) + i);
    }
  }

  lemma RowInFront(x: seq<DetailedResult>, y: seq<DetailedResult>, k: nat)
    requires k < |x|
    ensures (x + y)[k] == x[k]
  {
  }

  lemma RowBehind(x: seq<DetailedResult>, y: seq<DetailedResult>, k: nat)
    requires |x| <= k < |x| + |y|
    ensures (x + y)[k] == y[k - |x|]
  {
  }

  /** The questions before block `j` are no more than all of them. */
  lemma {:induction false} PrefixCountBound(quiz: QuizSpec, j: nat)
    requires j <= |quiz|
    ensures QuestionCount(quiz[..j]) + (if j < |quiz| then |QuestionsOf(quiz[j])| else 0) <= QuestionCount(quiz)
  {
    var n := |quiz|;
    if j < n {
      var init := quiz[..n - 1];
      if j < n - 1 {
        PrefixCountBound(init, j);
        assert init[..j] == quiz[..j];
        assert init[j] == quiz[j];
      } else {
        assert quiz[..j] == init;
      }
    } else {
      assert quiz[..j] == quiz;
    }
  }

  /** The number of questions among the first `n` of block `b` whose answer matches. */
  function BlockMatches(b: SkillBlock, answers: Answers, n: nat): nat
    requires n <= |QuestionsOf(b)|
  {
    if n == 0 then 0
    else BlockMatches(b, answers, n - 1)
         + (if Matches(SkillName(b), n - 1, QuestionsOf(b)[n - 1], answers) then 1 else 0)
  }

  /** The number of questions of the quiz whose answer matches. */
  function MatchCount(quiz: QuizSpec, answers: Answers): nat {
    if |quiz| == 0 then 0
    else
      var b := quiz[|quiz| - 1];
      MatchCount(quiz[..|quiz| - 1], answers) + BlockMatches(b, answers, |QuestionsOf(b)|)
  }

  lemma {:induction false} BlockCorrectCount(b: SkillBlock, answers: Answers, n: nat)
    requires n <= |QuestionsOf(b)|
    ensures CountWhere(BlockResults(b, answers)[..n], AllCorrect) == BlockMatches(b, answers, n)
  {
    if n > 0 {
      var rows := BlockResults(b, answers);
      assert rows[..n][..n - 1] == rows[..n - 1];
      BlockCorrectCount(b, answers, n - 1);
    }
  }

  /** The score is the number of questions whose answer matches the
      lower-cased recorded answer. */
  lemma {:induction false} ScoreCountsMatches(quiz: QuizSpec, answers: Answers)
    ensures Score(quiz, answers).score == MatchCount(quiz, answers)
  {
    if |quiz| > 0 {
      var init := quiz[..|quiz| - 1];
      var b := quiz[|quiz| - 1];
      ScoreCountsMatches(init, answers);
      CountWhereAppend(Results(init, answers), BlockResults(b, answers), AllCorrect);
      BlockCorrectCount(b, answers, |QuestionsOf(b)|);
      assert BlockResults(b, answers)[..|QuestionsOf(b)|] == BlockResults(b, answers);
    }
  }

  /** The score never exceeds the number of questions, and the record holds
      one row per question. */
  lemma ScoreBounds(quiz: QuizSpec, answers: Answers)
    ensures Score(quiz, answers).score <= Score(quiz, answers).total
    ensures |Score(quiz, answers).detailed| == Score(quiz, answers).total
  {
    ResultsLength(quiz, answers);
  }

  /** The tally accounts for every row: its totals add up to the number of
      rows and its correct counts to the number of correct rows. */
  lemma {:induction false} SkillScoresSums(ds: seq<DetailedResult>)
    ensures SumTotal(SkillScoresOf(ds)) == |ds|
    ensures SumCorrect(SkillScoresOf(ds)) == CountWhere(ds, AllCorrect)
  {
    if |ds| > 0 {
      var init := ds[..|ds| - 1];
      var last := ds[|ds| - 1];
      SkillScoresSums(init);
      RecordSums(SkillScoresOf(init), last.skill, last.status == Correct);
    }
  }

  /** Each skill's entry counts exactly that skill's rows and, among them,
      the correct ones; rows of blocks sharing a skill name land in one entry. */
  lemma {:induction false} SkillScoresPerSkill(ds: seq<DetailedResult>, skill: string)
    ensures TallyFor(SkillScoresOf(ds), skill)
         == Counts(CountWhere(ds, CorrectOfSkill(skill)), CountWhere(ds, OfSkill(skill)))
  {
    if |ds| > 0 {
      var init := ds[..|ds| - 1];
      var last := ds[|ds| - 1];
      SkillScoresPerSkill(init, skill);
      RecordTally(SkillScoresOf(init), last.skill, last.status == Correct);
    }
  }

  /** The skills that have at least one question. */
  function SkillsWithQuestions(quiz: QuizSpec): set<string> {
    set j | 0 <= j < |quiz| && |QuestionsOf(quiz[j])| > 0 :: SkillName(quiz[j])
  }

  lemma RowSkillsAppend(a: seq<DetailedResult>, b: seq<DetailedResult>)
    ensures RowSkills(a + b) == RowSkills(a) + RowSkills(b)
  {
    var ab := a + b;
    forall x | x in RowSkills(ab) ensures x in RowSkills(a) + RowSkills(b) {
      var k :| 0 <= k < |ab| && ab[k].skill == x;
      if k < |a| { assert a[k] == ab[k]; } else { assert b[k - |a|] == ab[k]; }
    }
    forall x | x in RowSkills(a) + RowSkills(b) ensures x in RowSkills(ab) {
      if x in RowSkills(a) {
        var k :| 0 <= k < |a| && a[k].skill == x;
        assert ab[k] == a[k];
      } else {
        var k :| 0 <= k < |b| && b[k].skill == x;
        assert ab[|a| + k] == b[k];
      }
    }
  }

  lemma BlockRowSkills(b: SkillBlock, answers: Answers)
    ensures RowSkills(BlockResults(b, answers))
         == (if |QuestionsOf(b)| > 0 then {SkillName(b)} else {})
  {
    var rows := BlockResults(b, answers);
    if |QuestionsOf(b)| > 0 {
      assert rows[0].skill == SkillName(b);
    }
  }

  /** The tally has an entry for every skill with at least one question, and
      for no other. */
  lemma {:induction false} TalliedSkills(quiz: QuizSpec, answers: Answers)
    ensures Skills(Score(quiz, answers).skillScores) == SkillsWithQuestions(quiz)
    ensures WellFormed(Score(quiz, answers).skillScores)
  {
    SkillScoresSkills(Results(quiz, answers));
    SkillScoresWellFormed(Results(quiz, answers));
    ResultsRowSkills(quiz, answers);
  }

  lemma {:induction false} ResultsRowSkills(quiz: QuizSpec, answers: Answers)
    ensures RowSkills(Results(quiz, answers)) == SkillsWithQuestions(quiz)
  {
    if |quiz| > 0 {
      var n := |quiz|;
      var init := quiz[..n - 1];
      var b := quiz[n - 1];
      ResultsRowSkills(init, answers);
      RowSkillsAppend(Results(init, answers), BlockResults(b, answers));
      BlockRowSkills(b, answers);
      assert SkillsWithQuestions(quiz)
          == SkillsWithQuestions(init) + (if |QuestionsOf(b)| > 0 then {SkillName(b)} else {}) by {
        forall j | 0 <= j < n - 1 ensures init[j] == quiz[j] { }
      }
    } else {
      assert SkillsWithQuestions(quiz) == {};
    }
  }

  /** The number of questions in the blocks named `skill`. */
  function QuestionsNamed(quiz: QuizSpec, skill: string): nat {
    if |quiz| == 0 then 0
    else
      var b := quiz[|quiz| - 1];
      QuestionsNamed(quiz[..|quiz| - 1], skill) + (if SkillName(b) == skill then |QuestionsOf(b)| else 0)
  }

  lemma {:induction false} BlockSkillCount(b: SkillBlock, answers: Answers, skill: string, n: nat)
    requires n <= |QuestionsOf(b)|
    ensures CountWhere(BlockResults(b, answers)[..n], OfSkill(skill))
         == (if SkillName(b) == skill then n else 0)
  {
    if n > 0 {
      var rows := BlockResults(b, answers);
      assert rows[..n][..n - 1] == rows[..n - 1];
      BlockSkillCount(b, answers, skill, n - 1);
    }
  }

  /** A skill's total is the number of questions in all blocks carrying its
      name, so blocks that share a name are merged into one entry. */
  lemma {:induction false} SkillTotalsMerge(quiz: QuizSpec, answers: Answers, skill: string)
    ensures TallyFor(Score(quiz, answers).skillScores, skill).total == QuestionsNamed(quiz, skill)
  {
    SkillScoresPerSkill(Results(quiz, answers), skill);
    ResultsSkillCount(quiz, answers, skill);
  }

  lemma {:induction false} ResultsSkillCount(quiz: QuizSpec, answers: Answers, skill: string)
    ensures CountWhere(Results(quiz, answers), OfSkill(skill)) == QuestionsNamed(quiz, skill)
  {
    if |quiz| > 0 {
      var init := quiz[..|quiz| - 1];
      var b := quiz[|quiz| - 1];
      ResultsSkillCount(init, answers, skill);
      CountWhereAppend(Results(init, answers), BlockResults(b, answers), OfSkill(skill));
      BlockSkillCount(b, answers, skill, |QuestionsOf(b)|);
      assert BlockResults(b, answers)[..|QuestionsOf(b)|] == BlockResults(b, answers);
    }
  }

  /** Only the recorded answer is lower-cased: an answer holding an upper-case
      letter is never scored correct, even when it names the right option. */
  lemma UpperCaseAnswerNeverScores(skill: string, idx: nat, q: Question, answers: Answers, k: nat)
    requires AnswerKey(skill, idx) in answers
    requires k < |answers[AnswerKey(skill, idx)]| && IsUpper(answers[AnswerKey(skill, idx)][k])
    ensures Judge(skill, idx, q, answers).status == Incorrect
  {
  }

  /** A recorded answer is matched, whatever its case, by exactly the answer
      that spells it letter by letter in lower case. */
  lemma LowerAnswerMatchesAnyCase(skill: string, idx: nat, q: Question, answers: Answers)
    requires q.correct.Some?
    ensures Judge(skill, idx, q, answers).status == Correct <==>
      && AnswerKey(skill, idx) in answers
      && |answers[AnswerKey(skill, idx)]| == |q.correct.value|
      && forall k :: 0 <= k < |q.correct.value| ==>
           answers[AnswerKey(skill, idx)][k] == LowerChar(q.correct.value[k])
  {
    var key := AnswerKey(skill, idx);
    if key in answers && |answers[key]| == |q.correct.value|
       && forall k :: 0 <= k < |q.correct.value| ==> answers[key][k] == LowerChar(q.correct.value[k])
    {
      assert answers[key] == CorrectAnswer(q);
    }
  }

  /** For instance, the answer "a" scores against a recorded "A". */
  lemma LowerLetterMatchesUpperRecord()
    ensures Judge("Python", 0, Question(None, [], Some("A")), map["Python_0" := "a"]).status == Correct
  {
    assert ReplaceSpaces("Python") == "Python";
    assert NatToString(0) == "0";
    assert AnswerKey("Python", 0) == "Python_0";
    assert CorrectAnswer(Question(None, [], Some("A"))) == "a";
  }
}
