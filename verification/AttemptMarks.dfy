/** The rows of an attempt under save, submit, override and grading (routers/quiz_student.py, routers/quiz_teacher.py,
    tasks/quiz_pipeline.py): which request is refused, what an accepted one writes to each row, and who marked a row. */
module AttemptMarks {
  import opened Common
  import opened Grading
  import opened QuizAttempts
  import Scores

  // ----- refusals -----

  /** An open question answered with more text than is graded. */
  ghost predicate TooMuchText(py: Python, index: map<Id, Question>, a: Answer) {
    && a.question in index && (index[a.question].kind == ShortKind || index[a.question].kind == EssayKind)
    && "text" in a.response && |py.str(a.response["text"])| > 2000
  }

  ghost predicate AsksOpen(questions: seq<Question>) {
    exists q :: q in questions && (q.kind == ShortKind || q.kind == EssayKind)
  }

  lemma AsksOpenIff(questions: seq<Question>)
    ensures AnyOpen(questions) <==> AsksOpen(questions)
  {
    if AnyOpen(questions) {
      var i :| 0 <= i < |questions| && IsOpen(questions[i].kind);
      assert questions[i] in questions;
    }
  }

  /** A submit is refused, in this order, once submitted, for too much text, for want of a grading slot; the last two only where
      an open question is asked. */
  lemma SubmitRefusals(py: Python, questions: seq<Question>, s: Sheet, threshold: real, slot: bool)
    ensures var outcome := Submit(py, questions, s, threshold, slot);
            var long := exists a :: a in s.answers && TooMuchText(py, Index(questions), a);
            && (outcome == Err(Conflict) <==> s.status != InProgress)
            && (outcome == Err(TooLong) <==> s.status == InProgress && AsksOpen(questions) && long)
            && (outcome == Err(RateLimited) <==> s.status == InProgress && AsksOpen(questions) && !long && !slot)
            && (outcome.Err? ==> outcome.error in {Conflict, TooLong, RateLimited})
  {
    AsksOpenIff(questions);
    OverlongIff(py, Index(questions), s.answers);
  }

  lemma OverlongIff(py: Python, index: map<Id, Question>, answers: seq<Answer>)
    ensures SomeOverlong(py, index, answers) <==> exists a :: a in answers && TooMuchText(py, index, a)
  {
    if SomeOverlong(py, index, answers) {
      var i :| 0 <= i < |answers| && Overlong(py, index, answers[i]);
      assert answers[i] in answers && TooMuchText(py, index, answers[i]);
    }
    if a :| a in answers && TooMuchText(py, index, a) {
      var i :| 0 <= i < |answers| && answers[i] == a;
      assert Overlong(py, index, answers[i]);
    }
  }

  /** A save is refused, in this order, once submitted, for a question that is not pinned, for a new row sent twice. */
  lemma SaveRefusals(index: map<Id, Question>, s: Sheet, items: seq<(Id, Response)>)
    requires AllDifferent(s.answers)
    ensures var outcome := Save(index, s, items);
            var known := forall i :: 0 <= i < |items| ==> items[i].0 in index;
            && (outcome == Err(Conflict) <==> s.status != InProgress)
            && (outcome == Err(UnknownQuestion) <==> s.status == InProgress && !known)
            && (outcome == Err(DuplicateRow) <==> s.status == InProgress && known && Repeats(s.answers, items))
            && (outcome.Ok? ==> outcome.value.status == InProgress && outcome.value.score == s.score && outcome.value.passed == s.passed)
  {
    SaveRefusesRepeats(index, s, items);
  }

  // ----- what an accepted request writes -----

  /** An item that makes this new row. */
  ghost predicate Makes(answers: seq<Answer>, items: seq<(Id, Response)>, j: nat, row: Answer) {
    j < |items| && IsNew(answers, items[j].0) && row == Blank(items[j].0, items[j].1)
  }

  lemma {:induction false} NewRowsHold(answers: seq<Answer>, items: seq<(Id, Response)>, row: Answer)
    ensures row in NewRows(answers, items) <==> exists j: nat :: Makes(answers, items, j, row)
  {
    if items != [] {
      var front, item := items[..|items| - 1], items[|items| - 1];
      assert items == front + [item];
      NewRowsHold(answers, front, row);
      MakesSnoc(answers, front, item, row);
    }
  }

  lemma MakesSnoc(answers: seq<Answer>, front: seq<(Id, Response)>, item: (Id, Response), row: Answer)
    ensures (exists j: nat :: Makes(answers, front + [item], j, row)) <==>
            (exists j: nat :: Makes(answers, front, j, row)) || (IsNew(answers, item.0) && row == Blank(item.0, item.1))
  {
    var items := front + [item];
    if j: nat :| Makes(answers, front, j, row) {
      assert Makes(answers, items, j, row);
    }
    if IsNew(answers, item.0) && row == Blank(item.0, item.1) {
      assert Makes(answers, items, |front|, row);
    }
    if j: nat :| Makes(answers, items, j, row) {
      assert j < |front| ==> Makes(answers, front, j, row);
    }
  }

  lemma NewMeansAbsent(answers: seq<Answer>, id: Id)
    ensures IsNew(answers, id) <==> forall i :: 0 <= i < |answers| ==> answers[i].question != id
  {
    forall i | 0 <= i < |answers| ensures Ids(answers)[i] == answers[i].question {
    }
  }

  /** An accepted save writes the last response sent into each row that was there, adds a row for each item of another question,
      and nothing else. */
  lemma SaveSets(index: map<Id, Question>, s: Sheet, items: seq<(Id, Response)>, row: Answer)
    requires AllDifferent(s.answers) && Save(index, s, items).Ok?
    ensures var t, n := Save(index, s, items).value, |s.answers|;
            && |t.answers| >= n && t == s.(answers := t.answers)
            && (forall k :: 0 <= k < n ==>
                  t.answers[k] == s.answers[k].(response := LastFor(items, s.answers[k].question, s.answers[k].response)))
            && (row in t.answers[n..] <==>
                  exists j: nat :: j < |items| && row == Blank(items[j].0, items[j].1)
                                   && forall i :: 0 <= i < n ==> s.answers[i].question != items[j].0)
  {
    var t, n := Save(index, s, items).value, |s.answers|;
    forall k | 0 <= k < n ensures t.answers[k] == s.answers[k].(response := LastFor(items, s.answers[k].question, s.answers[k].response)) {
      SavedInPlace(s.answers, items, k);
    }
    SavedNew(s.answers, items);
    NewRowsHold(s.answers, items, row);
    forall j: nat | j < |items| ensures IsNew(s.answers, items[j].0) <==> forall i :: 0 <= i < n ==> s.answers[i].question != items[j].0 {
      NewMeansAbsent(s.answers, items[j].0);
    }
    if j: nat :| Makes(s.answers, items, j, row) {
      NewMeansAbsent(s.answers, items[j].0);
    }
    if j: nat :| j < |items| && row == Blank(items[j].0, items[j].1) && forall i :: 0 <= i < n ==> s.answers[i].question != items[j].0 {
      assert Makes(s.answers, items, j, row);
    }
  }

  /** Nobody has marked the row. */
  predicate Plain(a: Answer) {
    a.awarded == None && a.correct == None && !a.needsReview && !a.overridden && !a.byAi
  }

  ghost predicate AllPlain(answers: seq<Answer>) {
    forall i :: 0 <= i < |answers| ==> Plain(answers[i])
  }

  /** The row as submit leaves it: an open question waits for its review, a closed one has its grade. */
  ghost predicate MarkedBySubmit(py: Python, q: Question, a: Answer) {
    var grade := GradeOf(py, q.kind, q.payload, a.response);
    && a.max == grade.max
    && if q.kind == ShortKind || q.kind == EssayKind then a.needsReview && a.awarded == None && a.correct == None
       else !a.needsReview && a.awarded == Some(grade.awarded) && a.correct == grade.correct
  }

  /** Every row is the saved one, or an empty one for a question without a row, with its mark. */
  ghost predicate RowsMarked(py: Python, index: map<Id, Question>, before: seq<Answer>, rows: seq<Answer>) {
    && |rows| >= |before|
    && forall i :: 0 <= i < |rows| ==> FreshMark(py, index, if i < |before| then before[i] else Blank(rows[i].question, map[]), rows[i])
  }

  /** Each row keeps its question and response and gets its mark; the attempt waits exactly if an open question is asked, and
      passes if its score reaches the threshold. */
  lemma SubmitMarks(py: Python, questions: seq<Question>, s: Sheet, threshold: real, slot: bool)
    requires QuestionsDiffer(questions) && Inv(Index(questions), s) && AllPlain(s.answers)
    requires Submit(py, questions, s, threshold, slot).Ok?
    ensures var t, index := Submit(py, questions, s, threshold, slot).value, Index(questions);
            && RowsMarked(py, index, s.answers, t.answers) && PassesBy(index, t, threshold)
            && t.status == (if AsksOpen(questions) then Submitted else Graded)
  {
    var rows := s.answers + Missing(s.answers, questions);
    var marked := AllMarked(py, Index(questions), rows);
    CompletedMarks(py, questions, s, rows, marked);
    CompletedScore(py, questions, s, threshold, marked);
    CompletedPasses(py, questions, s, threshold);
    SubmitAnswersAll(questions, s);
    MarkedWaits(py, questions, s.answers, rows, marked);
  }

  lemma CompletedMarks(py: Python, questions: seq<Question>, s: Sheet, rows: seq<Answer>, marked: seq<Answer>)
    requires QuestionsDiffer(questions) && Inv(Index(questions), s) && AllPlain(s.answers)
    requires rows == s.answers + Missing(s.answers, questions) && marked == AllMarked(py, Index(questions), rows)
    ensures RowsMarked(py, Index(questions), s.answers, marked) && Ids(marked) == Ids(rows)
  {
    var index := Index(questions);
    MarkedAt(py, index, rows);
    forall i | 0 <= i < |rows|
      ensures FreshMark(py, index, if i < |s.answers| then s.answers[i] else Blank(marked[i].question, map[]), marked[i])
    {
      RowToMark(questions, s, i);
      MarkIsFresh(py, index, rows[i]);
    }
  }

  lemma MarkedWaits(py: Python, questions: seq<Question>, before: seq<Answer>, rows: seq<Answer>, marked: seq<Answer>)
    requires QuestionsDiffer(questions) && forall q :: q in questions ==> q.id in Ids(rows)
    requires RowsMarked(py, Index(questions), before, marked) && Ids(marked) == Ids(rows)
    ensures NeedsReview(marked) <==> AsksOpen(questions)
  {
    var index := Index(questions);
    forall i | 0 <= i < |marked| ensures marked[i].question in index && (marked[i].needsReview <==> IsOpen(index[marked[i].question].kind)) {
      assert FreshMark(py, index, if i < |before| then before[i] else Blank(marked[i].question, map[]), marked[i]);
    }
    SomeWaits(questions, marked);
  }

  lemma MarkIsFresh(py: Python, index: map<Id, Question>, a: Answer)
    requires a.question in index && Plain(a)
    ensures FreshMark(py, index, a, Marked(py, index[a.question], a))
  {
  }

  lemma CompletedPasses(py: Python, questions: seq<Question>, s: Sheet, threshold: real)
    ensures PassesBy(Index(questions), Completed(py, questions, s, threshold), threshold)
    ensures var t := Completed(py, questions, s, threshold); t.status == if NeedsReview(t.answers) then Submitted else Graded
  {
  }

  /** The row after the submit, and what it was before. */
  ghost predicate FreshMark(py: Python, index: map<Id, Question>, before: Answer, a: Answer) {
    && a.question == before.question && a.response == before.response && !a.overridden && !a.byAi
    && a.question in index && MarkedBySubmit(py, index[a.question], a)
  }

  lemma RowToMark(questions: seq<Question>, s: Sheet, i: nat)
    requires QuestionsDiffer(questions) && Inv(Index(questions), s) && AllPlain(s.answers)
    requires i < |s.answers + Missing(s.answers, questions)|
    ensures var a := (s.answers + Missing(s.answers, questions))[i];
            a.question in Index(questions) && Plain(a) && (i >= |s.answers| ==> a == Blank(a.question, map[]))
  {
    GradedResponses(questions, s, i);
    MissingCompletes(s.answers, questions);
    if i >= |s.answers| {
      assert Missing(s.answers, questions)[i - |s.answers|] in Missing(s.answers, questions);
    }
  }

  ghost predicate PassesBy(index: map<Id, Question>, s: Sheet, threshold: real) {
    s.score.Some? && s.passed.Some?
    && (s.passed.value <==> Scores.WeightOf(ItemsOf(index, s.answers)) != 0.0 && s.score.value >= threshold)
  }

  lemma SomeWaits(questions: seq<Question>, rows: seq<Answer>)
    requires QuestionsDiffer(questions) && forall q :: q in questions ==> q.id in Ids(rows)
    requires forall i :: 0 <= i < |rows| ==>
               rows[i].question in Index(questions) && (rows[i].needsReview <==> IsOpen(Index(questions)[rows[i].question].kind))
    ensures NeedsReview(rows) <==> AsksOpen(questions)
  {
    if q :| q in questions && (q.kind == ShortKind || q.kind == EssayKind) {
      var i :| 0 <= i < |rows| && Ids(rows)[i] == q.id;
      IndexOfQuestion(questions, q);
      assert rows[i].needsReview;
    }
    if i :| 0 <= i < |rows| && rows[i].needsReview {
      QuestionOfIndex(questions, rows[i].question);
    }
  }

  lemma {:induction false} IndexOfQuestion(questions: seq<Question>, q: Question)
    requires QuestionsDiffer(questions) && q in questions
    ensures q.id in Index(questions) && Index(questions)[q.id] == q
  {
    var front, last := questions[..|questions| - 1], questions[|questions| - 1];
    assert questions == front + [last];
    if q != last {
      IndexOfQuestion(front, q);
      var i :| 0 <= i < |front| && front[i] == q;
      assert questions[i] == q;
    }
  }

  lemma {:induction false} QuestionOfIndex(questions: seq<Question>, id: Id)
    requires id in Index(questions)
    ensures Index(questions)[id] in questions && Index(questions)[id].id == id
  {
    var front, last := questions[..|questions| - 1], questions[|questions| - 1];
    assert questions == front + [last];
    if id != last.id {
      QuestionOfIndex(front, id);
    }
  }

  /** An override sets the award and what follows from it in the one row, as marked by hand, and leaves the others; the attempt
      is graded once no row waits for a review. It is refused for a row that is not there and above the maximum only. */
  lemma OverrideSets(index: map<Id, Question>, s: Sheet, k: nat, awarded: real, threshold: real)
    ensures var outcome := Override(index, s, k, awarded, threshold);
            && (outcome == Err(NotFound) <==> k >= |s.answers|)
            && (outcome == Err(AboveMaximum) <==> k < |s.answers| && s.answers[k].max < awarded)
            && (outcome.Err? ==> outcome.error == NotFound || outcome.error == AboveMaximum)
            && (outcome.Ok? ==>
                  var t := outcome.value;
                  && |t.answers| == |s.answers| && (forall i :: 0 <= i < |s.answers| && i != k ==> t.answers[i] == s.answers[i])
                  && t.answers[k].question == s.answers[k].question && t.answers[k].response == s.answers[k].response
                  && t.answers[k].max == s.answers[k].max
                  && t.answers[k].awarded == Some(awarded) && t.answers[k].correct == Some(s.answers[k].max <= awarded)
                  && t.answers[k].overridden && !t.answers[k].byAi && !t.answers[k].needsReview
                  && (t.status == if exists i :: 0 <= i < |s.answers| && i != k && s.answers[i].needsReview then s.status else Graded)
                  && PassesBy(index, t, threshold))
  {
    var outcome := Override(index, s, k, awarded, threshold);
    if outcome.Ok? {
      var rows := outcome.value.answers;
      if i :| 0 <= i < |s.answers| && i != k && s.answers[i].needsReview {
        assert rows[i].needsReview;
      }
    }
  }

  /** The grading task gives every open answer that waits and has a verdict that verdict, as marked by the model; it leaves the
      other rows, and the attempt is graded even if some of them still wait. */
  lemma GradingSets(index: map<Id, Question>, s: Sheet, scores: map<Id, real>, threshold: real, i: nat)
    requires i < |s.answers|
    ensures var t, a := GradeOpen(index, s, scores, threshold), s.answers[i];
            && |t.answers| == |s.answers| && t.status == Graded && PassesBy(index, t, threshold)
            && t.answers[i].question == a.question && t.answers[i].response == a.response && t.answers[i].max == a.max
            && t.answers[i].overridden == a.overridden
            && if a.needsReview && a.question in scores && a.question in index
                  && (index[a.question].kind == ShortKind || index[a.question].kind == EssayKind) then
                 && t.answers[i].awarded == Some(scores[a.question]) && t.answers[i].correct == Some(0.999 <= scores[a.question])
                 && t.answers[i].byAi && !t.answers[i].needsReview
               else t.answers[i] == a
  {
    GradedAt(index, s.answers, scores);
  }

  /** In a run each request has its own effect if it is accepted and none if it is refused; grading skips attempts in progress. */
  lemma RunsAreOfRequests(py: Python, questions: seq<Question>, s: Sheet, e: Event)
    ensures e.SaveEvent? ==> After(py, questions, s, e) == Kept(s, Save(Index(questions), s, e.items))
    ensures e.SubmitEvent? ==> After(py, questions, s, e) == Kept(s, Submit(py, questions, s, e.threshold, e.slot))
    ensures e.OverrideEvent? ==> After(py, questions, s, e) == Kept(s, Override(Index(questions), s, e.answer, e.awarded, e.threshold))
    ensures e.GradeEvent? ==>
              After(py, questions, s, e) == if s.status == InProgress then s else GradeOpen(Index(questions), s, e.scores, e.threshold)
    ensures forall outcome :: Kept(s, outcome) == if outcome.Ok? then outcome.value else s
  {
  }

  // ----- who marked a row -----

  /** What a row says about itself: marked by the model, by hand, or as submit left it. */
  ghost predicate Marks(py: Python, index: map<Id, Question>, a: Answer) {
    && a.question in index
    && if a.byAi then !a.needsReview && a.awarded.Some? && a.correct == Some(0.999 <= a.awarded.value)
       else if a.overridden then !a.needsReview && a.awarded.Some? && a.correct == Some(a.max <= a.awarded.value)
       else MarkedBySubmit(py, index[a.question], a)
  }

  ghost predicate AllMarks(py: Python, index: map<Id, Question>, s: Sheet) {
    s.status != InProgress && forall i :: 0 <= i < |s.answers| ==> Marks(py, index, s.answers[i])
  }

  predicate SameAnswer(a: Answer, b: Answer) {
    a.question == b.question && a.response == b.response
  }

  lemma EventKeepsMarks(py: Python, questions: seq<Question>, s: Sheet, e: Event)
    requires AllMarks(py, Index(questions), s)
    ensures AllMarks(py, Index(questions), After(py, questions, s, e))
    ensures |After(py, questions, s, e).answers| == |s.answers|
    ensures forall i :: 0 <= i < |s.answers| ==> SameAnswer(s.answers[i], After(py, questions, s, e).answers[i])
  {
    var index, t := Index(questions), After(py, questions, s, e);
    match e
    case OverrideEvent(k, awarded, threshold) =>
      OverrideSets(index, s, k, awarded, threshold);
      forall i | 0 <= i < |s.answers| ensures Marks(py, index, t.answers[i]) && SameAnswer(s.answers[i], t.answers[i]) {
        assert Marks(py, index, s.answers[i]);
      }
    case GradeEvent(scores, threshold) =>
      GradedAt(index, s.answers, scores);
      forall i | 0 <= i < |s.answers|
        ensures Marks(py, index, t.answers[i]) && SameAnswer(s.answers[i], t.answers[i])
      {
        GradingSets(index, s, scores, threshold, i);
        assert Marks(py, index, s.answers[i]);
      }
    case _ =>
  }

  lemma {:induction false} MarksStay(py: Python, questions: seq<Question>, s: Sheet, events: seq<Event>)
    requires AllMarks(py, Index(questions), s)
    ensures var t := Play(py, questions, s, events);
            && AllMarks(py, Index(questions), t) && |t.answers| == |s.answers|
            && forall i :: 0 <= i < |s.answers| ==> SameAnswer(s.answers[i], t.answers[i])
  {
    if events != [] {
      MarksStay(py, questions, s, events[..|events| - 1]);
      EventKeepsMarks(py, questions, Play(py, questions, s, events[..|events| - 1]), events[|events| - 1]);
    }
  }

  lemma SavedPlain(answers: seq<Answer>, items: seq<(Id, Response)>)
    requires AllPlain(answers)
    ensures AllPlain(Saved(answers, items))
  {
    SavedNew(answers, items);
    NewRowsPlain(answers, items);
    var saved := Saved(answers, items);
    forall i | 0 <= i < |saved| ensures Plain(saved[i]) {
      if i < |answers| {
        assert saved[i] == answers[i].(response := saved[i].response);
      } else {
        assert saved[i] == saved[|answers|..][i - |answers|];
      }
    }
  }

  lemma {:induction false} NewRowsPlain(answers: seq<Answer>, items: seq<(Id, Response)>)
    ensures AllPlain(NewRows(answers, items))
  {
    if items != [] {
      NewRowsPlain(answers, items[..|items| - 1]);
    }
  }

  /** Until the attempt is closed nobody marks a row. */
  lemma {:induction false} OpenRowsArePlain(py: Python, questions: seq<Question>, events: seq<Event>)
    ensures var s := Play(py, questions, Started, events); s.status == InProgress ==> AllPlain(s.answers)
  {
    if events != [] {
      var front, e := events[..|events| - 1], events[|events| - 1];
      var s := Play(py, questions, Started, front);
      OpenRowsArePlain(py, questions, front);
      if s.status == InProgress {
        OpenStep(py, questions, s, e);
      }
    }
  }

  lemma OpenStep(py: Python, questions: seq<Question>, s: Sheet, e: Event)
    requires s.status == InProgress && AllPlain(s.answers)
    ensures var t := After(py, questions, s, e); t.status == InProgress ==> AllPlain(t.answers)
  {
    if e.SaveEvent? {
      SavedPlain(s.answers, e.items);
    } else if e.OverrideEvent? {
      OverrideSets(Index(questions), s, e.answer, e.awarded, e.threshold);
    }
  }

  /** From a submit on, whatever is overridden and graded one after another, every row says truly how it was marked: by the model
      if that was last, else by hand if anybody did, else by the graders of the submit; questions and responses stay. */
  lemma MarksInEveryRun(py: Python, questions: seq<Question>, before: seq<Event>, threshold: real, slot: bool, after: seq<Event>)
    requires QuestionsDiffer(questions) && AllLegal(before)
    requires Submit(py, questions, Play(py, questions, Started, before), threshold, slot).Ok?
    ensures var submitted := Submit(py, questions, Play(py, questions, Started, before), threshold, slot).value;
            var s := Play(py, questions, submitted, after);
            && AllMarks(py, Index(questions), s) && |s.answers| == |submitted.answers|
            && forall i :: 0 <= i < |s.answers| ==> SameAnswer(submitted.answers[i], s.answers[i])
  {
    var open := Play(py, questions, Started, before);
    InvInEveryRun(py, questions, Started, before);
    OpenRowsArePlain(py, questions, before);
    SubmitRefusals(py, questions, open, threshold, slot);
    SubmitMarks(py, questions, open, threshold, slot);
    MarksStay(py, questions, Submit(py, questions, open, threshold, slot).value, after);
  }
}
