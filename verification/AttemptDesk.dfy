/** The request handlers over one attempt (routers/quiz_student.py, routers/quiz_teacher.py) and the grading task
    (tasks/quiz_pipeline.py), each proved against its step of QuizAttempts. A failed request commits nothing. */
module AttemptDesk {
  import opened Common
  import opened Grading
  import opened QuizAttempts
  import opened QuizOverlaps
  import Scores

  /** Before the submit no row waits for review. */
  lemma NothingReviewed(questions: seq<Question>, answers: seq<Answer>)
    requires QuestionsDiffer(questions) && AllDifferent(answers) && AllSound(Index(questions), InProgress, answers)
    ensures var rows := answers + Missing(answers, questions); forall i :: 0 <= i < |rows| ==> !rows[i].needsReview
  {
    MissingSound(Index(questions), answers, questions);
    var missing := Missing(answers, questions);
    var rows := answers + missing;
    forall i | 0 <= i < |rows| ensures !rows[i].needsReview {
      if i < |answers| {
        assert AnswerSound(Index(questions), InProgress, answers[i]);
      } else {
        assert missing[i - |answers|] in missing;
      }
    }
  }

  predicate OpenRow(index: map<Id, Question>, a: Answer) {
    a.question in index && IsOpen(index[a.question].kind)
  }

  predicate SomeOpenRow(index: map<Id, Question>, rows: seq<Answer>) {
    rows != [] && (SomeOpenRow(index, rows[..|rows| - 1]) || OpenRow(index, rows[|rows| - 1]))
  }

  lemma MarkedSnoc(py: Python, index: map<Id, Question>, rows: seq<Answer>, a: Answer)
    ensures AllMarked(py, index, rows + [a])
         == AllMarked(py, index, rows) + [if a.question in index then Marked(py, index[a.question], a) else a]
    ensures SomeOpenRow(index, rows + [a]) == (SomeOpenRow(index, rows) || OpenRow(index, a))
  {
    assert (rows + [a])[..|rows|] == rows;
  }

  lemma ReviewSnoc(rows: seq<Answer>, a: Answer)
    ensures NeedsReview(rows + [a]) == (NeedsReview(rows) || a.needsReview)
  {
    var all := rows + [a];
    if NeedsReview(rows) {
      var i :| 0 <= i < |rows| && rows[i].needsReview;
      assert all[i].needsReview;
    }
    assert all[|rows|] == a;
  }

  /** Where no row waited for review before, the marking leaves one waiting exactly if some question is open. */
  lemma {:induction false} OpenRowsAreReviewed(py: Python, index: map<Id, Question>, rows: seq<Answer>)
    requires forall i :: 0 <= i < |rows| ==> !rows[i].needsReview
    ensures NeedsReview(AllMarked(py, index, rows)) == SomeOpenRow(index, rows)
  {
    if rows != [] {
      var front, a := rows[..|rows| - 1], rows[|rows| - 1];
      OpenRowsAreReviewed(py, index, front);
      ReviewSnoc(AllMarked(py, index, front), if a.question in index then Marked(py, index[a.question], a) else a);
    }
  }

  class Attempt {
    const py: Python
    const questions: seq<Question>
    var status: Status
    var answers: seq<Answer>
    var score: Option<real>
    var passed: Option<bool>

    constructor (py: Python, questions: seq<Question>)
      ensures this.py == py && this.questions == questions && State() == Started
      ensures Inv(Index(questions), State())
    {
      this.py, this.questions := py, questions;
      status, answers, score, passed := InProgress, [], None, None;
    }

    ghost function State(): Sheet
      reads this
    {
      Sheet(status, answers, score, passed)
    }

    method SaveProgress(items: seq<(Id, Response)>) returns (error: Option<Error>)
      modifies this`answers
      ensures var outcome := Save(Index(questions), old(State()), items);
              error == (if outcome.Ok? then None else Some(outcome.error)) && State() == Kept(old(State()), outcome)
    {
      if status != InProgress {
        return Some(Conflict);
      }
      var validIds := Index(questions).Keys;
      var rows := answers;
      for i := 0 to |items|
        invariant rows == Saved(answers, items[..i])
        invariant forall j :: 0 <= j < i ==> items[j].0 in validIds
      {
        assert items[..i + 1][..i] == items[..i];
        if items[i].0 !in validIds {
          return Some(UnknownQuestion);
        }
        var existing := Position(answers, items[i].0);
        if existing.None? {
          rows := rows + [Blank(items[i].0, items[i].1)];
        } else {
          rows := rows[existing.value := rows[existing.value].(response := items[i].1)];
        }
      }
      assert items[..|items|] == items;
      if !AllDifferent(rows) {
        return Some(DuplicateRow);
      }
      answers := rows;
      return None;
    }

    method AggregateItems(rows: seq<Answer>, threshold: real) returns (result: Scores.Aggregate)
      ensures result == Scores.AggregateOf(ItemsOf(Index(questions), rows), threshold)
    {
      var index := Index(questions);
      var items: seq<Scores.Item> := [];
      for i := 0 to |rows|
        invariant items == ItemsOf(index, rows[..i])
      {
        assert rows[..i + 1][..i] == rows[..i];
        if rows[i].question !in index {
          continue;
        }
        var awarded := if rows[i].awarded.Some? then rows[i].awarded.value else 0.0;
        items := items + [Scores.Item(index[rows[i].question].weight, awarded, rows[i].max)];
      }
      assert rows[..|rows|] == rows;
      result := Scores.AggregateScore(items, threshold);
    }

    /** `slot` is whether the daily grading quota still has room for this student. */
    method SubmitAttempt(threshold: real, slot: bool) returns (error: Option<Error>)
      requires QuestionsDiffer(questions) && Inv(Index(questions), State())
      modifies this
      ensures var outcome := Submit(py, questions, old(State()), threshold, slot);
              error == (if outcome.Ok? then None else Some(outcome.error)) && State() == Kept(old(State()), outcome)
    {
      if status != InProgress {
        return Some(Conflict);
      }
      error := MeterOpenAnswers(slot);
      if error.None? {
        FinishSubmit(threshold);
      }
    }

    /** The length check and the daily quota, for attempts with open questions. */
    method MeterOpenAnswers(slot: bool) returns (error: Option<Error>)
      ensures error == if AnyOpen(questions) && SomeOverlong(py, Index(questions), answers) then Some(TooLong)
                       else if AnyOpen(questions) && !slot then Some(RateLimited) else None
    {
      if AnyOpen(questions) {
        if SomeOverlong(py, Index(questions), answers) {
          return Some(TooLong);
        }
        if !slot {
          return Some(RateLimited);
        }
      }
      return None;
    }

    /** Answers for every question, grades for the closed ones, the aggregate. */
    method FinishSubmit(threshold: real)
      requires QuestionsDiffer(questions) && AllDifferent(answers) && AllSound(Index(questions), InProgress, answers)
      modifies this
      ensures State() == Completed(py, questions, old(State()), threshold)
    {
      var added := AddMissing();
      NothingReviewed(questions, answers);
      OpenRowsAreReviewed(py, Index(questions), answers + added);
      var marked, needsOpenGrading := MarkAnswers(answers + added);
      var agg := AggregateItems(marked, threshold);
      answers, score, passed := marked, Some(agg.score), Some(agg.passed);
      status := if needsOpenGrading then Submitted else Graded;
    }

    method AddMissing() returns (added: seq<Answer>)
      ensures added == Missing(answers, questions)
    {
      added := [];
      for i := 0 to |questions|
        invariant added == Missing(answers, questions[..i])
      {
        assert questions[..i + 1][..i] == questions[..i];
        if Position(answers, questions[i].id).None? {
          added := added + [Blank(questions[i].id, map[])];
        }
      }
      assert questions[..|questions|] == questions;
    }

    method MarkAnswers(rows: seq<Answer>) returns (marked: seq<Answer>, needsOpenGrading: bool)
      ensures marked == AllMarked(py, Index(questions), rows) && needsOpenGrading == SomeOpenRow(Index(questions), rows)
    {
      var index := Index(questions);
      marked, needsOpenGrading := [], false;
      for i := 0 to |rows|
        invariant marked == AllMarked(py, index, rows[..i]) && needsOpenGrading == SomeOpenRow(index, rows[..i])
      {
        assert rows[..i + 1] == rows[..i] + [rows[i]];
        MarkedSnoc(py, index, rows[..i], rows[i]);
        var a := rows[i];
        if a.question in index {
          a := MarkRow(index[a.question], a);
          needsOpenGrading := needsOpenGrading || IsOpen(index[a.question].kind);
        }
        marked := marked + [a];
      }
      assert rows[..|rows|] == rows;
    }

    method MarkRow(q: Question, row: Answer) returns (a: Answer)
      ensures a == Marked(py, q, row) && a.question == row.question && a.needsReview == IsOpen(q.kind)
    {
      var outcome := GradeQuestion(py, q.kind, q.payload, row.response);
      a := row.(max := outcome.max);
      if IsOpen(q.kind) {
        a := a.(needsReview := true, correct := None, awarded := None);
      } else {
        a := a.(awarded := Some(outcome.awarded), correct := outcome.correct, needsReview := false);
      }
    }

    method OverrideAnswerScore(k: nat, awarded: real, threshold: real) returns (error: Option<Error>)
      modifies this
      ensures var outcome := Override(Index(questions), old(State()), k, awarded, threshold);
              error == (if outcome.Ok? then None else Some(outcome.error)) && State() == Kept(old(State()), outcome)
    {
      var seen := Sheet(status, answers, score, passed);
      UnbrokenCommitIsOverride(Index(questions), seen, k, awarded, threshold);
      error := CommitOverride(seen, k, awarded, threshold);
    }

    /** The rest of the request, on the copy it read. */
    method CommitOverride(seen: Sheet, k: nat, awarded: real, threshold: real) returns (error: Option<Error>)
      requires |seen.answers| == |answers|
      modifies this
      ensures var outcome := Commit(Index(questions), seen, old(State()), k, awarded, threshold);
              error == (if outcome.Ok? then None else Some(outcome.error)) && State() == Kept(old(State()), outcome)
    {
      if k >= |seen.answers| {
        return Some(NotFound);
      }
      var a := seen.answers[k];
      if awarded > a.max {
        return Some(AboveMaximum);
      }
      var mine := a.(awarded := Some(awarded), correct := Some(awarded >= a.max), needsReview := false, overridden := true, byAi := false);
      var copy := seen.answers[k := mine];
      answers := answers[k := WrittenAnswer(a, mine, answers[k])];
      WriteAggregate(seen, copy, threshold);
      return None;
    }

    /** Score, verdict and status over the request's own copy of the answers. */
    method WriteAggregate(seen: Sheet, copy: seq<Answer>, threshold: real)
      modifies this`score, this`passed, this`status
      ensures var mine := Rescored(Index(questions), seen.(answers := copy, status := if NeedsReview(copy) then seen.status else Graded), threshold);
              && score == Written(seen.score, mine.score, old(score)) && passed == Written(seen.passed, mine.passed, old(passed))
              && status == Written(seen.status, mine.status, old(status))
    {
      var agg := AggregateItems(copy, threshold);
      if Some(agg.score) != seen.score {
        score := Some(agg.score);
      }
      if Some(agg.passed) != seen.passed {
        passed := Some(agg.passed);
      }
      if !NeedsReview(copy) && seen.status != Graded {
        status := Graded;
      }
    }

    /** `scores` holds the LLM's verdict on every answer that was authorized and succeeded. */
    method GradeOpenAnswers(scores: map<Id, real>, threshold: real)
      modifies this
      ensures State() == GradeOpen(Index(questions), old(State()), scores, threshold)
    {
      var seen := Sheet(status, answers, score, passed);
      UnbrokenGradeCommit(Index(questions), seen, scores, threshold);
      CommitGrades(seen, scores, threshold);
    }

    /** The rest of the grading, on the answers it read. */
    method CommitGrades(seen: Sheet, scores: map<Id, real>, threshold: real)
      requires |seen.answers| == |answers|
      modifies this
      ensures State() == GradeCommit(Index(questions), seen, old(State()), scores, threshold)
    {
      answers := WriteGrades(seen, scores);
      var agg := AggregateItems(answers, threshold);
      score, passed, status := Some(agg.score), Some(agg.passed), Graded;
    }

    method WriteGrades(seen: Sheet, scores: map<Id, real>) returns (rows: seq<Answer>)
      requires |seen.answers| == |answers|
      ensures rows == GradedRows(Index(questions), seen, State(), scores)
    {
      var index := Index(questions);
      rows := [];
      for i := 0 to |answers|
        invariant |rows| == i
        invariant forall j :: 0 <= j < i ==>
                    rows[j] == WrittenAnswer(seen.answers[j], GradedRow(index, seen.answers[j], scores), answers[j])
      {
        var a := seen.answers[i];
        if Gradable(index, a, scores) {
          var mine := a.(awarded := Some(scores[a.question]), correct := Some(scores[a.question] >= 0.999), needsReview := false, byAi := true);
          rows := rows + [WrittenAnswer(a, mine, answers[i])];
        } else {
          rows := rows + [answers[i]];
        }
      }
    }
  }
}
