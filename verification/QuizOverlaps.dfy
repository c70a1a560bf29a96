/** Teacher overrides that overlap (routers/quiz_teacher.py, override_answer_score) and overrides while the grading task runs
    (tasks/quiz_pipeline.py): each reads attempt and answers without a lock, works on its copy and commits later. The session
    writes the columns that differ from what it read. */
module QuizOverlaps {
  import opened Common
  import opened QuizAttempts
  import Grading
  import Scores

  function WrittenAnswer(read: Answer, mine: Answer, stored: Answer): Answer {
    stored.(awarded := Written(read.awarded, mine.awarded, stored.awarded),
            correct := Written(read.correct, mine.correct, stored.correct),
            needsReview := Written(read.needsReview, mine.needsReview, stored.needsReview),
            overridden := Written(read.overridden, mine.overridden, stored.overridden),
            byAi := Written(read.byAi, mine.byAi, stored.byAi))
  }

  /** The override of answer `k` computed from the copy `seen` and committed on the sheet `now`. */
  function Commit(index: map<Id, Question>, seen: Sheet, now: Sheet, k: nat, awarded: real, threshold: real): Outcome
    requires |seen.answers| == |now.answers|
  {
    var outcome := Override(index, seen, k, awarded, threshold);
    if outcome.Err? then outcome
    else
      var mine := outcome.value;
      Ok(Sheet(Written(seen.status, mine.status, now.status),
               now.answers[k := WrittenAnswer(seen.answers[k], mine.answers[k], now.answers[k])],
               Written(seen.score, mine.score, now.score), Written(seen.passed, mine.passed, now.passed)))
  }

  /** Nothing committed in between: the override is the one-step event. */
  lemma UnbrokenCommitIsOverride(index: map<Id, Question>, s: Sheet, k: nat, awarded: real, threshold: real)
    ensures Commit(index, s, s, k, awarded, threshold) == Override(index, s, k, awarded, threshold)
  {
  }

  ghost predicate Right(index: map<Id, Question>, s: Sheet) {
    s.score == Some(Scores.ScoreOf(ItemsOf(index, s.answers)))
  }

  ghost predicate Closed(index: map<Id, Question>, s: Sheet) {
    Inv(index, s) && s.status != InProgress
  }

  /** What a closed attempt can become: the same rows, and a review that was done stays done. */
  ghost predicate Later(seen: Sheet, now: Sheet) {
    && |seen.answers| == |now.answers|
    && forall i :: 0 <= i < |seen.answers| ==>
         && now.answers[i].question == seen.answers[i].question
         && (now.answers[i].needsReview ==> seen.answers[i].needsReview)
  }

  /** The weighted awards of all answers but one. */
  function Others(index: map<Id, Question>, s: Sheet, k: nat): real {
    if k < |ItemsOf(index, s.answers)| then Scores.Elsewhere(ItemsOf(index, s.answers), k) else 0.0
  }

  /** Is the override one that leaves the score it read alone? Then the score column is not written, and the row must not lose
      an award either: one committed meanwhile survives unless the copy still had none and 0 is written over it. Otherwise the
      other answers must weigh what they weighed when they were read. */
  ghost predicate Harmless(index: map<Id, Question>, seen: Sheet, now: Sheet, k: nat, awarded: real)
    requires |seen.answers| == |now.answers| && k < |seen.answers|
  {
    var weight := Weighs(index, seen.answers[k]);
    if weight == 0.0 || Award(seen.answers[k]) == awarded then
      weight == 0.0 || seen.answers[k].awarded == Some(awarded) || Award(now.answers[k]) == awarded
    else Others(index, seen, k) == Others(index, now, k)
  }

  /** The override leaves the score it read alone exactly when it repeats the award or its question weighs nothing. */
  lemma KeepsReadScoreIff(index: map<Id, Question>, seen: Sheet, k: nat, awarded: real, threshold: real)
    requires Closed(index, seen) && FairWeights(index) && awarded >= 0.0 && Override(index, seen, k, awarded, threshold).Ok?
    ensures var items := ItemsOf(index, seen.answers);
            && |items| == |seen.answers|
            && Override(index, seen, k, awarded, threshold).value.score
               == Some(Scores.ScoreOf(items[k := items[k].(awarded := awarded)]))
    ensures Override(index, seen, k, awarded, threshold).value.score == seen.score <==>
            Award(seen.answers[k]) == awarded || Weighs(index, seen.answers[k]) == 0.0
  {
    OverrideScore(index, seen, k, awarded, threshold);
    ItemsAreFair(index, seen);
    Scores.OneAwardKeepsScoreIff(ItemsOf(index, seen.answers), k, awarded);
  }

  lemma LaterItems(index: map<Id, Question>, seen: Sheet, now: Sheet)
    requires Inv(index, seen) && Inv(index, now) && FairWeights(index) && Later(seen, now)
    ensures Scores.SameQuestions(ItemsOf(index, seen.answers), ItemsOf(index, now.answers))
  {
    ItemsAreFair(index, seen);
    ItemsAreFair(index, now);
    forall i | 0 <= i < |seen.answers| ensures seen.answers[i].max == 1.0 == now.answers[i].max {
      assert AnswerSound(index, seen.status, seen.answers[i]) && AnswerSound(index, now.status, now.answers[i]);
    }
  }

  /** Whatever was committed between the read and the commit, the stored score is the aggregate of the stored awards afterwards
      if and only if the commit is harmless. */
  lemma CommitIsRightIff(index: map<Id, Question>, seen: Sheet, now: Sheet, k: nat, awarded: real, threshold: real)
    requires Closed(index, seen) && Closed(index, now) && Later(seen, now) && FairWeights(index)
    requires awarded >= 0.0 && Override(index, seen, k, awarded, threshold).Ok?
    ensures Right(index, Commit(index, seen, now, k, awarded, threshold).value) <==> Harmless(index, seen, now, k, awarded)
  {
    var items, later := ItemsOf(index, seen.answers), ItemsOf(index, now.answers);
    var row := Commit(index, seen, now, k, awarded, threshold).value.answers[k];
    KeepsReadScoreIff(index, seen, k, awarded, threshold);
    AwardAtCommit(index, seen, now, k, awarded, threshold);
    ItemChanges(index, now, k, row);
    ItemsAreFair(index, now);
    if Award(seen.answers[k]) == awarded || Weighs(index, seen.answers[k]) == 0.0 {
      Scores.OneAwardKeepsScoreIff(later, k, Award(row));
    } else {
      ItemsAreFair(index, seen);
      LaterItems(index, seen, now);
      Scores.SameElsewhereIff(items, later, k, awarded);
    }
  }

  lemma AwardAtCommit(index: map<Id, Question>, seen: Sheet, now: Sheet, k: nat, awarded: real, threshold: real)
    requires Inv(index, seen) && Inv(index, now) && Later(seen, now)
    requires awarded >= 0.0 && Override(index, seen, k, awarded, threshold).Ok?
    ensures var row := Commit(index, seen, now, k, awarded, threshold).value.answers[k];
            && row.question == now.answers[k].question && row.max == now.answers[k].max == 1.0 && 0.0 <= Award(row) <= 1.0
            && Award(row) == if seen.answers[k].awarded == Some(awarded) then Award(now.answers[k]) else awarded
  {
    assert AnswerSound(index, seen.status, seen.answers[k]);
    assert AnswerSound(index, now.status, now.answers[k]);
  }

  // ----- two overrides -----

  /** Override A of answer j commits between B's read and B's commit on another answer. The stored score is the aggregate
      afterwards if and only if A did not change the award B read, or B does not change one, or the question of either weighs
      nothing. */
  lemma OverlapIsRightIff(index: map<Id, Question>, s: Sheet, j: nat, a: real, k: nat, b: real, threshold: real)
    requires Closed(index, s) && FairWeights(index) && j != k && a >= 0.0 && b >= 0.0
    requires Override(index, s, j, a, threshold).Ok? && Override(index, s, k, b, threshold).Ok?
    ensures Right(index, Commit(index, s, Override(index, s, j, a, threshold).value, k, b, threshold).value) <==>
            || Award(s.answers[j]) == a || Weighs(index, s.answers[j]) == 0.0
            || Award(s.answers[k]) == b || Weighs(index, s.answers[k]) == 0.0
  {
    var now := Override(index, s, j, a, threshold).value;
    OverrideKeepsInv(index, s, j, a, threshold);
    CommitIsRightIff(index, s, now, k, b, threshold);
    OthersAfter(index, s, j, a, k, threshold);
  }

  lemma OthersAfter(index: map<Id, Question>, s: Sheet, j: nat, a: real, k: nat, threshold: real)
    requires Closed(index, s) && FairWeights(index) && j != k && k < |s.answers| && a >= 0.0
    requires Override(index, s, j, a, threshold).Ok?
    ensures var now := Override(index, s, j, a, threshold).value;
            && |ItemsOf(index, s.answers)| == |s.answers| && |ItemsOf(index, now.answers)| == |now.answers| == |s.answers|
            && (Others(index, s, k) == Others(index, now, k) <==> Award(s.answers[j]) == a || Weighs(index, s.answers[j]) == 0.0)
  {
    var now := Override(index, s, j, a, threshold).value;
    ItemChanges(index, s, j, now.answers[j]);
    ItemsAreFair(index, s);
    Scores.ElsewhereKeptIff(ItemsOf(index, s.answers), j, a, k);
  }

  /** Both on the same answer: only an override to 0 of an answer that had no award when it was read loses the other's score. */
  lemma SameAnswerIsRightIff(index: map<Id, Question>, s: Sheet, k: nat, a: real, b: real, threshold: real)
    requires Closed(index, s) && FairWeights(index) && a >= 0.0 && b >= 0.0
    requires Override(index, s, k, a, threshold).Ok? && Override(index, s, k, b, threshold).Ok?
    ensures Right(index, Commit(index, s, Override(index, s, k, a, threshold).value, k, b, threshold).value) <==>
            !(s.answers[k].awarded.None? && b == 0.0 && a != 0.0 && Weighs(index, s.answers[k]) != 0.0)
  {
    var now := Override(index, s, k, a, threshold).value;
    OverrideKeepsInv(index, s, k, a, threshold);
    CommitIsRightIff(index, s, now, k, b, threshold);
    OthersUntouched(index, s, k, a, threshold);
    HarmlessWithOthersIff(index, s, now, k, a, b);
  }

  lemma HarmlessWithOthersIff(index: map<Id, Question>, s: Sheet, now: Sheet, k: nat, a: real, b: real)
    requires |s.answers| == |now.answers| && k < |s.answers|
    requires Others(index, s, k) == Others(index, now, k) && Award(now.answers[k]) == a
    ensures Harmless(index, s, now, k, b) <==>
            !(s.answers[k].awarded.None? && b == 0.0 && a != 0.0 && Weighs(index, s.answers[k]) != 0.0)
  {
  }

  lemma OthersUntouched(index: map<Id, Question>, s: Sheet, k: nat, a: real, threshold: real)
    requires Closed(index, s) && FairWeights(index) && a >= 0.0 && Override(index, s, k, a, threshold).Ok?
    ensures var now := Override(index, s, k, a, threshold).value;
            Others(index, s, k) == Others(index, now, k) && Award(now.answers[k]) == a
  {
    var now := Override(index, s, k, a, threshold).value;
    var items := ItemsOf(index, s.answers);
    ItemChanges(index, s, k, now.answers[k]);
    Scores.ElsewhereKept(items, k, items[k].(awarded := a));
  }

  lemma TwoRowScore(index: map<Id, Question>, rows: seq<Answer>, a: real, b: real)
    requires |rows| == 2 && 0.0 <= a <= 1.0 && 0.0 <= b <= 1.0
    requires rows[0].question in index && index[rows[0].question].weight == 1.0 && rows[0].max == 1.0 && rows[0].awarded == Some(a)
    requires rows[1].question in index && index[rows[1].question].weight == 1.0 && rows[1].max == 1.0 && rows[1].awarded == Some(b)
    ensures Scores.ScoreOf(ItemsOf(index, rows)) == (a + b) / 2.0 && Scores.WeightOf(ItemsOf(index, rows)) == 2.0
  {
    ItemsAt(index, rows);
    var items := ItemsOf(index, rows);
    Scores.TwoItems(items[0], items[1]);
    assert items == [items[0], items[1]];
  }

  lemma TwoRowOverride(index: map<Id, Question>, s: Sheet, first: Answer, second: Answer, k: nat, a: real, b: real, threshold: real)
    requires s.answers == [first, second] && k < 2 && 0.0 <= a <= 1.0 && 0.0 <= b <= 1.0
    requires first.question in index && index[first.question].weight == 1.0 && first.max == 1.0
    requires second.question in index && index[second.question].weight == 1.0 && second.max == 1.0
    requires if k == 0 then second.awarded == Some(b) else first.awarded == Some(a)
    ensures var outcome := Override(index, s, k, if k == 0 then a else b, threshold);
            outcome.Ok? && outcome.value.score == Some((a + b) / 2.0) && outcome.value.passed == Some((a + b) / 2.0 >= threshold)
  {
    var awarded := if k == 0 then a else b;
    var rows := Override(index, s, k, awarded, threshold).value.answers;
    TwoRowScore(index, rows, a, b);
  }

  function TwoRows(p: Id, q: Id, a: real, b: real): seq<Answer> {
    [Blank(p, map[]).(awarded := Some(a)), Blank(q, map[]).(awarded := Some(b))]
  }

  lemma TwoRowsClosed(index: map<Id, Question>, p: Id, q: Id)
    requires p != q && p in index && q in index && index[p].weight == 1.0 && index[q].weight == 1.0
    ensures Closed(index, Sheet(Graded, TwoRows(p, q, 0.2, 0.4), Some(0.3), Some(false)))
  {
    TwoRowScore(index, TwoRows(p, q, 0.2, 0.4), 0.2, 0.4);
  }

  /** Such a run in numbers: 0.2 and 0.4 of two equal questions, passed from 0.6. A raises the first to 1.0, which passes; B, on
      the copy it read before, raises the second to 0.6. B's score is lower than what is stored, and B leaves `passed` alone. */
  lemma PassedBelowThreshold(index: map<Id, Question>, p: Id, q: Id)
    requires p != q && p in index && q in index && index[p].weight == 1.0 && index[q].weight == 1.0
    ensures var s := Sheet(Graded, TwoRows(p, q, 0.2, 0.4), Some(0.3), Some(false));
            var after := Commit(index, s, Override(index, s, 0, 1.0, 0.6).value, 1, 0.6, 0.6).value;
            && Closed(index, s) && after.score == Some(0.4) && after.passed == Some(true)
            && Scores.ScoreOf(ItemsOf(index, after.answers)) == 0.8
  {
    var s := Sheet(Graded, TwoRows(p, q, 0.2, 0.4), Some(0.3), Some(false));
    TwoRowsClosed(index, p, q);
    TwoRowOverride(index, s, s.answers[0], s.answers[1], 0, 1.0, 0.4, 0.6);
    TwoRowOverride(index, s, s.answers[0], s.answers[1], 1, 0.2, 0.6, 0.6);
    var first := Override(index, s, 0, 1.0, 0.6).value;
    BelowThreshold(index, s, first, Override(index, s, 1, 0.6, 0.6).value, Commit(index, s, first, 1, 0.6, 0.6).value);
  }

  lemma BelowThreshold(index: map<Id, Question>, s: Sheet, first: Sheet, second: Sheet, after: Sheet)
    requires |s.answers| == 2 == |first.answers| && s.score == Some(0.3) && s.passed == Some(false)
    requires forall i :: 0 <= i < 2 ==> s.answers[i].question in index && index[s.answers[i].question].weight == 1.0 && s.answers[i].max == 1.0
    requires s.answers[1].awarded == Some(0.4)
    requires Override(index, s, 0, 1.0, 0.6) == Ok(first) && first.score == Some(0.7) && first.passed == Some(true)
    requires Override(index, s, 1, 0.6, 0.6) == Ok(second) && second.score == Some(0.4) && second.passed == Some(false)
    requires Commit(index, s, first, 1, 0.6, 0.6) == Ok(after)
    ensures after.score == Some(0.4) && after.passed == Some(true) && Scores.ScoreOf(ItemsOf(index, after.answers)) == 0.8
  {
    BothInPlace(index, s, first, after.answers);
    TwoRowScore(index, after.answers, 1.0, 0.6);
  }

  lemma BothInPlace(index: map<Id, Question>, s: Sheet, first: Sheet, rows: seq<Answer>)
    requires |s.answers| == 2 == |first.answers| && Override(index, s, 0, 1.0, 0.6) == Ok(first)
    requires s.answers[1].awarded == Some(0.4) && Override(index, s, 1, 0.6, 0.6).Ok?
    requires rows == Commit(index, s, first, 1, 0.6, 0.6).value.answers
    ensures && |rows| == 2 && rows[0] == first.answers[0] && rows[0].awarded == Some(1.0) && rows[1].awarded == Some(0.6)
            && forall i :: 0 <= i < 2 ==> rows[i].question == s.answers[i].question && rows[i].max == s.answers[i].max
  {
  }

  ghost predicate OnlyPending(s: Sheet, j: nat, k: nat) {
    forall i :: 0 <= i < |s.answers| && s.answers[i].needsReview ==> i == j || i == k
  }

  /** "Once all answers are accounted for, status moves to graded": overlapping overrides miss that exactly when they were the
      last two reviews of a submitted attempt, for each still sees the other one pending. */
  lemma StaysSubmittedIff(index: map<Id, Question>, s: Sheet, j: nat, a: real, k: nat, b: real, threshold: real)
    requires j != k && Override(index, s, j, a, threshold).Ok? && Override(index, s, k, b, threshold).Ok?
    ensures var after := Commit(index, s, Override(index, s, j, a, threshold).value, k, b, threshold).value;
            after.status != Graded && !NeedsReview(after.answers) <==>
            s.status != Graded && s.answers[j].needsReview && s.answers[k].needsReview && OnlyPending(s, j, k)
  {
    var first, second := Override(index, s, j, a, threshold).value, Override(index, s, k, b, threshold).value;
    var after := Commit(index, s, first, k, b, threshold).value;
    assert forall i :: 0 <= i < |s.answers| ==> after.answers[i].needsReview == (i != j && i != k && s.answers[i].needsReview);
    PendingAfter(index, s, j, a, threshold);
    PendingAfter(index, s, k, b, threshold);
    if OnlyPending(s, j, k) {
      assert !NeedsReview(after.answers);
    } else {
      var i :| 0 <= i < |s.answers| && s.answers[i].needsReview && i != j && i != k;
      assert after.answers[i].needsReview;
    }
  }

  lemma PendingAfter(index: map<Id, Question>, s: Sheet, j: nat, a: real, threshold: real)
    requires Override(index, s, j, a, threshold).Ok?
    ensures NeedsReview(Override(index, s, j, a, threshold).value.answers) <==>
            exists i :: 0 <= i < |s.answers| && i != j && s.answers[i].needsReview
  {
    var answers := Override(index, s, j, a, threshold).value.answers;
    assert forall i :: 0 <= i < |s.answers| ==> answers[i].needsReview == (i != j && s.answers[i].needsReview);
  }

  // ----- an override while the grading task runs -----

  function GradedRows(index: map<Id, Question>, seen: Sheet, now: Sheet, scores: map<Id, real>): (rows: seq<Answer>)
    requires |seen.answers| == |now.answers|
    ensures |rows| == |now.answers|
    ensures forall i :: 0 <= i < |rows| ==>
              rows[i] == WrittenAnswer(seen.answers[i], GradedRow(index, seen.answers[i], scores), now.answers[i])
  {
    seq(|now.answers|, i requires 0 <= i < |now.answers| =>
          WrittenAnswer(seen.answers[i], GradedRow(index, seen.answers[i], scores), now.answers[i]))
  }

  /** The grading task reads the answers, waits for the model, writes the answers it graded, and only then reads the rows again and
      aggregates them. */
  function GradeCommit(index: map<Id, Question>, seen: Sheet, now: Sheet, scores: map<Id, real>, threshold: real): Sheet
    requires |seen.answers| == |now.answers|
  {
    Rescored(index, now.(answers := GradedRows(index, seen, now, scores)), threshold).(status := Graded)
  }

  lemma UnbrokenGradeCommit(index: map<Id, Question>, s: Sheet, scores: map<Id, real>, threshold: real)
    ensures GradeCommit(index, s, s, scores, threshold) == GradeOpen(index, s, scores, threshold)
  {
    GradedAt(index, s.answers, scores);
    assert GradedRows(index, s, s, scores) == GradedOpen(index, s.answers, scores);
  }

  lemma GradedHereIsSound(index: map<Id, Question>, seen: Status, now: Status, a: Answer, b: Answer, scores: map<Id, real>)
    requires AnswerSound(index, seen, a) && AnswerSound(index, now, b) && seen != InProgress && now != InProgress
    requires a.question == b.question && (b.needsReview ==> a.needsReview) && forall id :: id in scores ==> 0.0 <= scores[id] <= 1.0
    ensures var row := WrittenAnswer(a, GradedRow(index, a, scores), b);
            AnswerSound(index, Graded, row) && row.question == b.question && (row.needsReview ==> b.needsReview)
  {
  }

  lemma GradeCommitKeeps(index: map<Id, Question>, seen: Sheet, now: Sheet, scores: map<Id, real>, threshold: real)
    requires Closed(index, seen) && Closed(index, now) && Later(seen, now)
    requires forall id :: id in scores ==> 0.0 <= scores[id] <= 1.0
    ensures var after := GradeCommit(index, seen, now, scores, threshold); Closed(index, after) && Later(now, after)
  {
    var rows := GradedRows(index, seen, now, scores);
    GradedRowsKeep(index, seen, now, scores, rows);
    RegradedIsClosed(index, now, rows, threshold);
  }

  lemma GradedRowsKeep(index: map<Id, Question>, seen: Sheet, now: Sheet, scores: map<Id, real>, rows: seq<Answer>)
    requires Closed(index, seen) && Closed(index, now) && Later(seen, now)
    requires forall id :: id in scores ==> 0.0 <= scores[id] <= 1.0
    requires rows == GradedRows(index, seen, now, scores)
    ensures AllSound(index, Graded, rows) && Later(now, now.(answers := rows))
  {
    forall i | 0 <= i < |rows|
      ensures AnswerSound(index, Graded, rows[i]) && rows[i].question == now.answers[i].question
      ensures rows[i].needsReview ==> now.answers[i].needsReview
    {
      assert AnswerSound(index, now.status, now.answers[i]) && AnswerSound(index, seen.status, seen.answers[i]);
      GradedHereIsSound(index, seen.status, now.status, seen.answers[i], now.answers[i], scores);
    }
  }

  lemma RegradedIsClosed(index: map<Id, Question>, now: Sheet, rows: seq<Answer>, threshold: real)
    requires AllDifferent(now.answers) && AllSound(index, Graded, rows) && Later(now, now.(answers := rows))
    ensures var after := Rescored(index, now.(answers := rows), threshold).(status := Graded); Closed(index, after) && Later(now, after)
  {
    assert Ids(rows) == Ids(now.answers);
    ClosedIsSound(index, Rescored(index, now.(answers := rows), threshold).(status := Graded));
  }

  /** An override that commits while the grading task waits survives exactly if grading did not grade its answer, or gave the same
      award; otherwise the model's award replaces it, in a row that goes on saying it was overridden by hand. */
  lemma GradingUndoesOverrideIff(index: map<Id, Question>, s: Sheet, scores: map<Id, real>, j: nat, a: real, threshold: real)
    requires Closed(index, s) && a >= 0.0 && Override(index, s, j, a, threshold).Ok?
    ensures var answer := s.answers[j];
            var row := GradeCommit(index, s, Override(index, s, j, a, threshold).value, scores, threshold).answers[j];
            && (row.awarded == Some(a) <==> !Gradable(index, answer, scores) || scores[answer.question] == a)
            && (Gradable(index, answer, scores) && !answer.overridden && !answer.byAi ==>
                  row.awarded == Some(scores[answer.question]) && row.overridden && row.byAi)
  {
    var now := Override(index, s, j, a, threshold).value;
    assert AnswerSound(index, s.status, s.answers[j]);
    GradedOverOverride(index, s.answers[j], now.answers[j], scores, a);
    assert GradeCommit(index, s, now, scores, threshold).answers == GradedRows(index, s, now, scores);
  }

  lemma GradedOverOverride(index: map<Id, Question>, answer: Answer, now: Answer, scores: map<Id, real>, a: real)
    requires now.awarded == Some(a) && now.overridden && !now.byAi && (answer.needsReview ==> answer.awarded.None?)
    ensures var row := WrittenAnswer(answer, GradedRow(index, answer, scores), now);
            && (row.awarded == Some(a) <==> !Gradable(index, answer, scores) || scores[answer.question] == a)
            && (Gradable(index, answer, scores) && !answer.overridden && !answer.byAi ==>
                  row.awarded == Some(scores[answer.question]) && row.overridden && row.byAi)
  {
  }

  // ----- runs -----

  /** The attempt, and the copies that overrides and gradings hold between their read and their commit. */
  datatype Desk = Desk(sheet: Sheet, copies: map<nat, Sheet>)

  datatype Move =
    | Whole(event: Event)
    | Read(p: nat)
    | Commits(p: nat, answer: nat, awarded: real, threshold: real)
    | Grades(p: nat, scores: map<Id, real>, threshold: real)

  function Next(py: Grading.Python, questions: seq<Question>, d: Desk, m: Move): Desk {
    match m
    case Whole(event) => d.(sheet := After(py, questions, d.sheet, event))
    case Read(p) => if p in d.copies then d else d.(copies := d.copies[p := d.sheet])
    case Commits(p, answer, awarded, threshold) =>
      if p !in d.copies || |d.copies[p].answers| != |d.sheet.answers| then d
      else Desk(Kept(d.sheet, Commit(Index(questions), d.copies[p], d.sheet, answer, awarded, threshold)), d.copies - {p})
    case Grades(p, scores, threshold) =>
      if p !in d.copies || |d.copies[p].answers| != |d.sheet.answers| then d
      else Desk(GradeCommit(Index(questions), d.copies[p], d.sheet, scores, threshold), d.copies - {p})
  }

  function Run(py: Grading.Python, questions: seq<Question>, d: Desk, moves: seq<Move>): Desk {
    if moves == [] then d else Next(py, questions, Run(py, questions, d, moves[..|moves| - 1]), moves[|moves| - 1])
  }

  ghost predicate LegalMove(m: Move) {
    && (m.Whole? ==> Legal(m.event)) && (m.Commits? ==> m.awarded >= 0.0)
    && (m.Grades? ==> forall id :: id in m.scores ==> 0.0 <= m.scores[id] <= 1.0)
  }

  ghost predicate AllLegalMoves(moves: seq<Move>) {
    forall i :: 0 <= i < |moves| ==> LegalMove(moves[i])
  }

  ghost predicate DeskInv(index: map<Id, Question>, d: Desk) {
    && Closed(index, d.sheet)
    && forall p :: p in d.copies ==> Closed(index, d.copies[p]) && Later(d.copies[p], d.sheet)
  }

  /** Every commit that is accepted is harmless. */
  ghost predicate HarmlessMove(index: map<Id, Question>, d: Desk, m: Move) {
    m.Commits? && m.p in d.copies && |d.copies[m.p].answers| == |d.sheet.answers|
    && Override(index, d.copies[m.p], m.answer, m.awarded, m.threshold).Ok? ==>
      Harmless(index, d.copies[m.p], d.sheet, m.answer, m.awarded)
  }

  lemma OverrideIsLater(index: map<Id, Question>, s: Sheet, k: nat, awarded: real, threshold: real)
    ensures Later(s, Kept(s, Override(index, s, k, awarded, threshold)))
  {
  }

  lemma GradeIsLater(index: map<Id, Question>, s: Sheet, scores: map<Id, real>, threshold: real)
    ensures Later(s, GradeOpen(index, s, scores, threshold))
  {
    GradedAt(index, s.answers, scores);
  }

  lemma WholeKeepsCopies(py: Grading.Python, questions: seq<Question>, seen: Sheet, now: Sheet, e: Event)
    requires now.status != InProgress && Later(seen, now)
    ensures Later(seen, After(py, questions, now, e))
  {
    if e.OverrideEvent? {
      OverrideIsLater(Index(questions), now, e.answer, e.awarded, e.threshold);
      LaterStill(seen, now, After(py, questions, now, e));
    } else if e.GradeEvent? {
      GradeIsLater(Index(questions), now, e.scores, e.threshold);
      LaterStill(seen, now, After(py, questions, now, e));
    }
  }

  lemma CommitKeepsRows(index: map<Id, Question>, seen: Sheet, now: Sheet, k: nat, awarded: real, threshold: real)
    requires Closed(index, seen) && Closed(index, now) && Later(seen, now)
    requires awarded >= 0.0 && Override(index, seen, k, awarded, threshold).Ok?
    ensures var after := Commit(index, seen, now, k, awarded, threshold).value;
            && Later(now, after) && AllDifferent(after.answers) && AllSound(index, after.status, after.answers)
            && after.status != InProgress && after.score.Some?
  {
    var after := Commit(index, seen, now, k, awarded, threshold).value;
    assert Ids(after.answers) == Ids(now.answers);
    forall i | 0 <= i < |after.answers| ensures AnswerSound(index, after.status, after.answers[i]) {
      assert AnswerSound(index, now.status, now.answers[i]) && AnswerSound(index, seen.status, seen.answers[i]);
    }
  }

  lemma LaterStill(first: Sheet, second: Sheet, third: Sheet)
    requires Later(first, second) && Later(second, third)
    ensures Later(first, third)
  {
  }

  lemma WholeIsRight(py: Grading.Python, questions: seq<Question>, d: Desk, e: Event)
    requires QuestionsDiffer(questions) && DeskInv(Index(questions), d) && Legal(e)
    ensures var v := Next(py, questions, d, Whole(e)); Right(Index(questions), v.sheet) && DeskInv(Index(questions), v)
  {
    EventKeepsInv(py, questions, d.sheet, e);
    forall p | p in d.copies ensures Later(d.copies[p], After(py, questions, d.sheet, e)) {
      WholeKeepsCopies(py, questions, d.copies[p], d.sheet, e);
    }
  }

  lemma CommitOfDesk(py: Grading.Python, questions: seq<Question>, d: Desk, m: Move)
    requires DeskInv(Index(questions), d) && FairWeights(Index(questions)) && LegalMove(m) && m.Commits? && m.p in d.copies
    ensures var v := Next(py, questions, d, m);
            && (Right(Index(questions), v.sheet) <==> HarmlessMove(Index(questions), d, m))
            && (Right(Index(questions), v.sheet) ==> DeskInv(Index(questions), v))
  {
    var index, seen := Index(questions), d.copies[m.p];
    var outcome := Commit(index, seen, d.sheet, m.answer, m.awarded, m.threshold);
    if outcome.Ok? {
      CommitIsRightIff(index, seen, d.sheet, m.answer, m.awarded, m.threshold);
      if Right(index, outcome.value) {
        CommittedDesk(index, d, m, Next(py, questions, d, m));
      }
    } else {
      CopiesKept(index, d, Next(py, questions, d, m));
    }
  }

  lemma CommittedDesk(index: map<Id, Question>, d: Desk, m: Move, v: Desk)
    requires DeskInv(index, d) && m.Commits? && m.p in d.copies && m.awarded >= 0.0 && v.copies == d.copies - {m.p}
    requires Override(index, d.copies[m.p], m.answer, m.awarded, m.threshold).Ok?
    requires Commit(index, d.copies[m.p], d.sheet, m.answer, m.awarded, m.threshold) == Ok(v.sheet) && Right(index, v.sheet)
    ensures DeskInv(index, v)
  {
    CommitKeepsRows(index, d.copies[m.p], d.sheet, m.answer, m.awarded, m.threshold);
    ClosedIsSound(index, v.sheet);
    CopiesKept(index, d, v);
  }

  lemma CopiesKept(index: map<Id, Question>, d: Desk, v: Desk)
    requires DeskInv(index, d) && Closed(index, v.sheet) && Later(d.sheet, v.sheet)
    requires v.copies.Keys <= d.copies.Keys && forall p :: p in v.copies ==> v.copies[p] == d.copies[p]
    ensures DeskInv(index, v)
  {
    forall p | p in v.copies ensures Later(v.copies[p], v.sheet) {
      LaterStill(d.copies[p], d.sheet, v.sheet);
    }
  }

  lemma GradingOfDesk(py: Grading.Python, questions: seq<Question>, d: Desk, m: Move)
    requires DeskInv(Index(questions), d) && LegalMove(m) && m.Grades? && m.p in d.copies
    ensures DeskInv(Index(questions), Next(py, questions, d, m))
  {
    var v := Next(py, questions, d, m);
    GradeCommitKeeps(Index(questions), d.copies[m.p], d.sheet, m.scores, m.threshold);
    CopiesKept(Index(questions), d, v);
  }

  /** One move from a sheet that is right leaves it right exactly when it is no harmful commit. */
  lemma MoveIsRightIff(py: Grading.Python, questions: seq<Question>, d: Desk, m: Move)
    requires QuestionsDiffer(questions) && FairWeights(Index(questions)) && DeskInv(Index(questions), d) && LegalMove(m)
    ensures var v := Next(py, questions, d, m);
            && (Right(Index(questions), v.sheet) <==> HarmlessMove(Index(questions), d, m))
            && (Right(Index(questions), v.sheet) ==> DeskInv(Index(questions), v))
  {
    if m.Whole? {
      WholeIsRight(py, questions, d, m.event);
    } else if m.Commits? && m.p in d.copies {
      CommitOfDesk(py, questions, d, m);
    } else if m.Grades? && m.p in d.copies {
      GradingOfDesk(py, questions, d, m);
    }
  }

  ghost predicate RightThroughout(py: Grading.Python, questions: seq<Question>, d: Desk, moves: seq<Move>) {
    moves == [] || (RightThroughout(py, questions, d, moves[..|moves| - 1]) && Right(Index(questions), Run(py, questions, d, moves).sheet))
  }

  ghost predicate AllHarmless(py: Grading.Python, questions: seq<Question>, d: Desk, moves: seq<Move>) {
    moves == [] ||
    (var front := moves[..|moves| - 1];
     AllHarmless(py, questions, d, front) && HarmlessMove(Index(questions), Run(py, questions, d, front), moves[|moves| - 1]))
  }

  /** From a submit on, over every run of whole requests, and of overrides and gradings that overlap in any way: the stored score is the
      aggregate of the stored awards at every moment if and only if every commit of an override is harmless. */
  lemma {:induction false} RightThroughoutIff(py: Grading.Python, questions: seq<Question>, s: Sheet, moves: seq<Move>)
    requires QuestionsDiffer(questions) && FairWeights(Index(questions)) && Closed(Index(questions), s) && AllLegalMoves(moves)
    ensures RightThroughout(py, questions, Desk(s, map[]), moves) <==> AllHarmless(py, questions, Desk(s, map[]), moves)
    ensures RightThroughout(py, questions, Desk(s, map[]), moves) ==> DeskInv(Index(questions), Run(py, questions, Desk(s, map[]), moves))
  {
    if moves != [] {
      var front, m := moves[..|moves| - 1], moves[|moves| - 1];
      assert LegalMove(m) && forall i :: 0 <= i < |front| ==> front[i] == moves[i];
      RightThroughoutIff(py, questions, s, front);
      if RightThroughout(py, questions, Desk(s, map[]), front) {
        MoveIsRightIff(py, questions, Run(py, questions, Desk(s, map[]), front), m);
      }
    }
  }

  /** A read keeps the sheet as it is for its request, once; a commit and a grading use their copy up. */
  lemma DeskSteps(py: Grading.Python, questions: seq<Question>, d: Desk, m: Move, q: nat)
    ensures q in Next(py, questions, d, m).copies <==>
            if m == Read(q) then true
            else q in d.copies && !((m.Commits? || m.Grades?) && m.p == q && |d.copies[q].answers| == |d.sheet.answers|)
    ensures q in Next(py, questions, d, m).copies ==>
              Next(py, questions, d, m).copies[q] == if q in d.copies then d.copies[q] else d.sheet
    ensures m.Grades? && m.p in d.copies && |d.copies[m.p].answers| == |d.sheet.answers| ==>
              Next(py, questions, d, m).sheet == GradeCommit(Index(questions), d.copies[m.p], d.sheet, m.scores, m.threshold)
  {
  }

  lemma RunSnoc(py: Grading.Python, questions: seq<Question>, d: Desk, moves: seq<Move>, m: Move)
    ensures Run(py, questions, d, moves + [m]) == Next(py, questions, Run(py, questions, d, moves), m)
  {
    assert (moves + [m])[..|moves|] == moves;
  }

  lemma ThreeMoves(py: Grading.Python, questions: seq<Question>, d: Desk, first: Move, second: Move, third: Move)
    ensures Run(py, questions, d, [first, second, third])
         == Next(py, questions, Next(py, questions, Next(py, questions, d, first), second), third)
  {
    RunSnoc(py, questions, d, [], first);
    RunSnoc(py, questions, d, [first], second);
    RunSnoc(py, questions, d, [first, second], third);
    assert [] + [first] == [first] && [first] + [second] == [first, second] && [first, second] + [third] == [first, second, third];
  }

  /** Both new awards are stored, and the score is not their aggregate: whenever both overrides change an award that counts. */
  lemma OverlapLosesAward(py: Grading.Python, questions: seq<Question>, s: Sheet, j: nat, a: real, k: nat, b: real, threshold: real)
    requires Closed(Index(questions), s) && FairWeights(Index(questions)) && j != k && a >= 0.0 && b >= 0.0
    requires Override(Index(questions), s, j, a, threshold).Ok? && Override(Index(questions), s, k, b, threshold).Ok?
    requires Award(s.answers[j]) != a && Weighs(Index(questions), s.answers[j]) != 0.0
    requires Award(s.answers[k]) != b && Weighs(Index(questions), s.answers[k]) != 0.0
    ensures var moves := [Read(0), Whole(OverrideEvent(j, a, threshold)), Commits(0, k, b, threshold)];
            var after := Run(py, questions, Desk(s, map[]), moves).sheet;
            && |after.answers| == |s.answers| && Award(after.answers[j]) == a && Award(after.answers[k]) == b
            && !Right(Index(questions), after)
  {
    var now := Override(Index(questions), s, j, a, threshold).value;
    ThreeMoves(py, questions, Desk(s, map[]), Read(0), Whole(OverrideEvent(j, a, threshold)), Commits(0, k, b, threshold));
    OverlapIsRightIff(Index(questions), s, j, a, k, b, threshold);
    BothAwards(Index(questions), s, j, a, k, b, threshold);
    var d := Desk(now, map[0 := s]);
    assert Next(py, questions, Desk(s, map[0 := s]), Whole(OverrideEvent(j, a, threshold))) == d;
    assert Next(py, questions, d, Commits(0, k, b, threshold)).sheet == Commit(Index(questions), s, now, k, b, threshold).value;
  }

  lemma BothAwards(index: map<Id, Question>, s: Sheet, j: nat, a: real, k: nat, b: real, threshold: real)
    requires j != k && Override(index, s, j, a, threshold).Ok? && Override(index, s, k, b, threshold).Ok? && Award(s.answers[k]) != b
    ensures var after := Commit(index, s, Override(index, s, j, a, threshold).value, k, b, threshold).value;
            |after.answers| == |s.answers| && Award(after.answers[j]) == a && Award(after.answers[k]) == b
  {
  }
}
