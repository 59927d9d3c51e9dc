/** The per-skill tally `skill_scores`: a Python dictionary from skill name
    to `{"correct": c, "total": t}`. A dictionary keeps its keys in insertion
    order, so it is modelled as a sequence of entries with distinct names. */
module Tally {

  datatype Counts = Counts(correct: nat, total: nat)

  datatype SkillScore = SkillScore(skill: string, tally: Counts)

  type SkillScores = seq<SkillScore>

  function Skills(ss: SkillScores): set<string> {
    set k | 0 <= k < |ss| :: ss[k].skill
  }

  /** No skill has two entries. */
  predicate DistinctSkills(ss: SkillScores) {
    forall i, j :: 0 <= i < j < |ss| ==> ss[i].skill != ss[j].skill
  }

  /** A real tally: at least one question, and no more correct answers than
      questions. */
  predicate Valid(t: Counts) {
    1 <= t.total && t.correct <= t.total
  }

  predicate ValidTallies(ss: SkillScores) {
    forall k :: 0 <= k < |ss| ==> Valid(ss[k].tally)
  }

  predicate WellFormed(ss: SkillScores) {
    DistinctSkills(ss) && ValidTallies(ss)
  }

  /** `skill_scores.get(skill, {"correct": 0, "total": 0})`. */
  function TallyFor(ss: SkillScores, skill: string): (t: Counts)
    ensures skill !in Skills(ss) ==> t == Counts(0, 0)
  {
    if |ss| == 0 then Counts(0, 0)
    else if ss[|ss| - 1].skill == skill then ss[|ss| - 1].tally
    else TallyFor(ss[..|ss| - 1], skill)
  }

  /** In a tally with distinct names, a present skill reads its own entry. */
  lemma {:induction false} TallyForPresent(ss: SkillScores, k: nat)
    requires DistinctSkills(ss) && k < |ss|
    ensures TallyFor(ss, ss[k].skill) == ss[k].tally
  {
    var n := |ss|;
    if k < n - 1 {
      var init := ss[..n - 1];
      assert init[k] == ss[k];
      assert DistinctSkills(init) by {
        forall i, j | 0 <= i < j < n - 1 ensures init[i].skill != init[j].skill {
          assert init[i] == ss[i] && init[j] == ss[j];
        }
      }
      assert ss[n - 1].skill != ss[k].skill;
      TallyForPresent(init, k);
    }
  }

  function SumCorrect(ss: SkillScores): nat {
    if |ss| == 0 then 0 else SumCorrect(ss[..|ss| - 1]) + ss[|ss| - 1].tally.correct
  }

  function SumTotal(ss: SkillScores): nat {
    if |ss| == 0 then 0 else SumTotal(ss[..|ss| - 1]) + ss[|ss| - 1].tally.total
  }

  function Count(correct: bool): nat {
    if correct then 1 else 0
  }

  /** A tally after one more question: `total` grows by one, `correct` too
      when the answer was right. */
  function Bump(t: Counts, correct: bool): Counts {
    Counts(t.correct + Count(correct), t.total + 1)
  }

  /** A skill that is not in the last entry is in one of the earlier ones. */
  lemma InitKeepsSkill(ss: SkillScores, skill: string)
    requires skill in Skills(ss) && ss[|ss| - 1].skill != skill
    ensures skill in Skills(ss[..|ss| - 1])
  {
    var k :| 0 <= k < |ss| && ss[k].skill == skill;
    assert ss[..|ss| - 1][k] == ss[k];
  }

  /** Bumps the entry of a skill already present. */
  function BumpExisting(ss: SkillScores, skill: string, correct: bool): (r: SkillScores)
    requires skill in Skills(ss)
    ensures |r| == |ss|
    ensures forall k :: 0 <= k < |ss| ==> r[k].skill == ss[k].skill
  {
    var n := |ss|;
    var init := ss[..n - 1];
    var last := ss[n - 1];
    if last.skill == skill then
      var r := init + [SkillScore(skill, Bump(last.tally, correct))];
      assert r[..n - 1] == init;
      r
    else
      InitKeepsSkill(ss, skill);
      var r := BumpExisting(init, skill, correct) + [last];
      assert r[..n - 1] == BumpExisting(init, skill, correct);
      r
  }

  /** Bumping an existing skill bumps that skill's tally... */
  lemma {:induction false} BumpExistingTally(ss: SkillScores, skill: string, correct: bool)
    requires skill in Skills(ss)
    ensures TallyFor(BumpExisting(ss, skill, correct), skill) == Bump(TallyFor(ss, skill), correct)
  {
    var n := |ss|;
    var init := ss[..n - 1];
    var last := ss[n - 1];
    var r := BumpExisting(ss, skill, correct);
    if last.skill == skill {
      assert r[..n - 1] == init;
      assert r[n - 1].tally == Bump(last.tally, correct);
    } else {
      InitKeepsSkill(ss, skill);
      var r' := BumpExisting(init, skill, correct);
      BumpExistingTally(init, skill, correct);
      assert r == r' + [last];
      assert r[..n - 1] == r';
      assert TallyFor(r, skill) == TallyFor(r', skill);
    }
  }

  /** ...and leaves every other skill's tally alone. */
  lemma {:induction false} BumpExistingOther(ss: SkillScores, skill: string, correct: bool, other: string)
    requires skill in Skills(ss) && other != skill
    ensures TallyFor(BumpExisting(ss, skill, correct), other) == TallyFor(ss, other)
  {
    var n := |ss|;
    var init := ss[..n - 1];
    var last := ss[n - 1];
    var r := BumpExisting(ss, skill, correct);
    if last.skill == skill {
      assert r[..n - 1] == init;
    } else {
      InitKeepsSkill(ss, skill);
      var r' := BumpExisting(init, skill, correct);
      BumpExistingOther(init, skill, correct, other);
      assert r == r' + [last];
      assert r[..n - 1] == r';
    }
  }

  /** Bumping one entry adds one correct answer to the overall count when
      the answer was right... */
  lemma {:induction false} BumpExistingSums(ss: SkillScores, skill: string, correct: bool)
    requires skill in Skills(ss)
    ensures SumCorrect(BumpExisting(ss, skill, correct)) == SumCorrect(ss) + Count(correct)
  {
    var n := |ss|;
    var init := ss[..n - 1];
    var last := ss[n - 1];
    var r := BumpExisting(ss, skill, correct);
    if last.skill == skill {
      assert r[..n - 1] == init;
    } else {
      InitKeepsSkill(ss, skill);
      var r' := BumpExisting(init, skill, correct);
      BumpExistingSums(init, skill, correct);
      assert r == r' + [last];
      assert r[..n - 1] == r';
    }
  }

  /** ...and one question to the overall total. */
  lemma {:induction false} BumpExistingTotal(ss: SkillScores, skill: string, correct: bool)
    requires skill in Skills(ss)
    ensures SumTotal(BumpExisting(ss, skill, correct)) == SumTotal(ss) + 1
  {
    var n := |ss|;
    var init := ss[..n - 1];
    var last := ss[n - 1];
    var r := BumpExisting(ss, skill, correct);
    if last.skill == skill {
      assert r[..n - 1] == init;
    } else {
      InitKeepsSkill(ss, skill);
      var r' := BumpExisting(init, skill, correct);
      BumpExistingTotal(init, skill, correct);
      assert r == r' + [last];
      assert r[..n - 1] == r';
    }
  }

  /** Bumping keeps every tally valid. */
  lemma {:induction false} BumpExistingValid(ss: SkillScores, skill: string, correct: bool)
    requires skill in Skills(ss)
    ensures ValidTallies(ss) ==> ValidTallies(BumpExisting(ss, skill, correct))
  {
    var n := |ss|;
    var init := ss[..n - 1];
    var last := ss[n - 1];
    var r := BumpExisting(ss, skill, correct);
    if ValidTallies(ss) {
      assert ValidTallies(init) by {
        forall k | 0 <= k < n - 1 ensures Valid(init[k].tally) {
          assert init[k] == ss[k];
        }
      }
      var r': SkillScores;
      if last.skill == skill {
        r' := init;
        assert r == r' + [SkillScore(skill, Bump(last.tally, correct))];
      } else {
        InitKeepsSkill(ss, skill);
        BumpExistingValid(init, skill, correct);
        r' := BumpExisting(init, skill, correct);
        assert r == r' + [last];
      }
      forall k | 0 <= k < n ensures Valid(r[k].tally) {
        if k < n - 1 {
          assert r[k] == r'[k];
        }
      }
    }
  }

  /** One scored question of `skill`: `setdefault` the entry, then add to it.
      A new skill is appended at the end, an existing one is updated in place. */
  function Record(ss: SkillScores, skill: string, correct: bool): SkillScores {
    if skill in Skills(ss) then BumpExisting(ss, skill, correct)
    else ss + [SkillScore(skill, Counts(Count(correct), 1))]
  }

  /** Recording adds the skill to the tally's skills and no other... */
  lemma RecordSkills(ss: SkillScores, skill: string, correct: bool)
    ensures Skills(Record(ss, skill, correct)) == Skills(ss) + {skill}
  {
    var r := Record(ss, skill, correct);
    RecordKeepsOrder(ss, skill, correct);
    forall x | x in Skills(ss) ensures x in Skills(r) {
      var k :| 0 <= k < |ss| && ss[k].skill == x;
      assert r[k].skill == x;
    }
    if skill !in Skills(ss) {
      assert r[|ss|].skill == skill;
    }
  }

  /** ...keeps the earlier entries where they were, appending at most one
      entry at the end... */
  lemma RecordKeepsOrder(ss: SkillScores, skill: string, correct: bool)
    ensures |ss| <= |Record(ss, skill, correct)| <= |ss| + 1
    ensures forall k :: 0 <= k < |ss| ==> Record(ss, skill, correct)[k].skill == ss[k].skill
  {
  }

  /** ...and keeps the entries distinct and valid. */
  lemma RecordWellFormed(ss: SkillScores, skill: string, correct: bool)
    requires WellFormed(ss)
    ensures WellFormed(Record(ss, skill, correct))
  {
    var r := Record(ss, skill, correct);
    if skill in Skills(ss) {
      BumpExistingValid(ss, skill, correct);
    } else {
      var n := |ss|;
      assert r == ss + [SkillScore(skill, Counts(Count(correct), 1))];
      forall i, j | 0 <= i < j < |r| ensures r[i].skill != r[j].skill {
        if j == n {
          assert r[i] == ss[i];
        }
      }
      forall k | 0 <= k < |r| ensures Valid(r[k].tally) {
        if k < n {
          assert r[k] == ss[k];
        }
      }
    }
  }

  /** Recording a question for `skill` bumps that skill's tally and no other. */
  lemma RecordTally(ss: SkillScores, skill: string, correct: bool)
    ensures TallyFor(Record(ss, skill, correct), skill) == Bump(TallyFor(ss, skill), correct)
    ensures forall other :: other != skill ==> TallyFor(Record(ss, skill, correct), other) == TallyFor(ss, other)
  {
    var r := Record(ss, skill, correct);
    if skill in Skills(ss) {
      BumpExistingTally(ss, skill, correct);
      forall other | other != skill
        ensures TallyFor(r, other) == TallyFor(ss, other)
      {
        BumpExistingOther(ss, skill, correct, other);
      }
    } else {
      assert r[..|ss|] == ss;
    }
  }

  /** Recording a question adds one to the sum of the totals, and one to the
      sum of the correct counts when the answer was right. */
  lemma RecordSums(ss: SkillScores, skill: string, correct: bool)
    ensures SumCorrect(Record(ss, skill, correct)) == SumCorrect(ss) + Count(correct)
    ensures SumTotal(Record(ss, skill, correct)) == SumTotal(ss) + 1
  {
    var r := Record(ss, skill, correct);
    if skill in Skills(ss) {
      BumpExistingSums(ss, skill, correct);
      BumpExistingTotal(ss, skill, correct);
    } else {
      assert r[..|ss|] == ss;
    }
  }
}
