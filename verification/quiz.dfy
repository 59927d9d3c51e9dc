/** The quiz as it comes out of the JSON reply, already parsed: a list of
    skill blocks, each with its questions. Any field may be missing; the
    application reads each with a default. */
module Quiz {
  import opened Optional
  import opened Text

  /** One multiple-choice question. `options` maps an option letter to its
      text, in the order the reply lists them. */
  datatype Question = Question(
    text: Option<string>,
    options: seq<(string, string)>,
    correct: Option<string>)

  datatype SkillBlock = SkillBlock(skill: Option<string>, questions: Option<seq<Question>>)

  type QuizSpec = seq<SkillBlock>

  const UnknownSkill := "Unknown Skill"
  const NoQuestionText := "No question provided"

  /** `skill_block.get("skill", "Unknown Skill")` */
  function SkillName(b: SkillBlock): string {
    b.skill.GetOr(UnknownSkill)
  }

  /** `skill_block.get("questions", [])` */
  function QuestionsOf(b: SkillBlock): seq<Question> {
    b.questions.GetOr([])
  }

  /** `q.get("question", "No question provided")` */
  function QuestionText(q: Question): string {
    q.text.GetOr(NoQuestionText)
  }

  /** `q.get("correct", "").lower()`: the recorded answer, lower-cased. */
  function CorrectAnswer(q: Question): (r: string)
    ensures forall k :: 0 <= k < |r| ==> !IsUpper(r[k])
    ensures q.correct.None? ==> r == ""
    ensures q.correct.Some? ==>
      |r| == |q.correct.value| && forall k :: 0 <= k < |r| ==> r[k] == LowerChar(q.correct.value[k])
  {
    Lower(q.correct.GetOr(""))
  }

  /** The session-state key under which the answer to question `idx` of the
      skill called `skill` is kept: `f"{skill_key}_{idx}"` with
      `skill_key = skill.replace(" ", "_")`. */
  function AnswerKey(skill: string, idx: nat): (r: string)
    ensures |r| > |skill|
  {
    ReplaceSpaces(skill) + "_" + NatToString(idx)
  }

  /** Within one skill, each question has a key of its own. */
  lemma AnswerKeysDistinct(skill: string, i: nat, j: nat)
    requires i != j
    ensures AnswerKey(skill, i) != AnswerKey(skill, j)
  {
    var p := ReplaceSpaces(skill) + "_";
    if AnswerKey(skill, i) == AnswerKey(skill, j) {
      assert NatToString(i) == AnswerKey(skill, i)[|p|..];
      assert NatToString(j) == AnswerKey(skill, j)[|p|..];
      NatToStringInjective(i, j);
    }
  }

  /** Two questions share an answer key exactly when their skill names agree
      once spaces become underscores and their indices agree: the digits after
      the last underscore give the index back, and what comes before it gives
      the underscored name back. */
  lemma AnswerKeyCollision(a: string, b: string, i: nat, j: nat)
    ensures AnswerKey(a, i) == AnswerKey(b, j) <==> ReplaceSpaces(a) == ReplaceSpaces(b) && i == j
  {
    var ka, kb := ReplaceSpaces(a), ReplaceSpaces(b);
    var da, db := NatToString(i), NatToString(j);
    var key := AnswerKey(a, i);
    if key == AnswerKey(b, j) {
      assert key == ka + "_" + da;
      assert key == kb + "_" + db;
      assert !IsDigit('_');
      assert |kb| <= |ka| by {
        assert key[|kb|] == '_';
        assert forall t :: |ka| < t < |key| ==> key[t] == da[t - |ka| - 1];
      }
      assert |ka| <= |kb| by {
        assert key[|ka|] == '_';
        assert forall t :: |kb| < t < |key| ==> key[t] == db[t - |kb| - 1];
      }
      assert ka == key[..|ka|] && kb == key[..|kb|];
      assert da == key[|ka| + 1..] && db == key[|kb| + 1..];
      NatToStringInjective(i, j);
    }
  }

  /** Skill names that differ only in spaces versus underscores share their
      keys, so their questions read the same answer slots. */
  lemma SpaceUnderscoreKeysCollide(a: string, b: string, idx: nat)
    requires |a| == |b|
    requires forall k :: 0 <= k < |a| ==> a[k] == b[k] || (a[k] in " _" && b[k] in " _")
    ensures AnswerKey(a, idx) == AnswerKey(b, idx)
  {
    ReplaceSpacesMerges(a, b);
  }

  /** The number of questions in a quiz; a block without questions counts none. */
  function QuestionCount(quiz: QuizSpec): nat {
    if |quiz| == 0 then 0
    else QuestionCount(quiz[..|quiz| - 1]) + |QuestionsOf(quiz[|quiz| - 1])|
  }
}
