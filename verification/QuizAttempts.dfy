/** An attempt and its answers: save, submit, teacher override, LLM grading (routers/quiz_student.py, routers/quiz_teacher.py,
    tasks/quiz_pipeline.py). The pinned questions are already resolved, see QuizVersions; each request is one step. */
module QuizAttempts {
  import opened Common
  import opened Grading
  import Scores
  import QuizVersions

  type Id = QuizVersions.Id
  type Question = QuizVersions.Resolved

  const GRADING_MAX_ANSWER_CHARS := 2000

  datatype Answer = Answer(question: Id, response: Response, awarded: Option<real>, max: real, correct: Option<bool>,
                           needsReview: bool, overridden: bool, byAi: bool)

  datatype Status = InProgress | Submitted | Graded

  datatype Sheet = Sheet(status: Status, answers: seq<Answer>, score: Option<real>, passed: Option<bool>)

  datatype Error = Conflict | UnknownQuestion | DuplicateRow | TooLong | RateLimited | NotFound | AboveMaximum

  type Outcome = Result<Sheet, Error>

  function Blank(question: Id, response: Response): Answer {
    Answer(question, response, None, 1.0, None, false, false, false)
  }

  /** resolved_index. */
  function Index(questions: seq<Question>): (index: map<Id, Question>)
    ensures forall q :: q in questions ==> q.id in index
  {
    if questions == [] then map[] else Index(questions[..|questions| - 1])[questions[|questions| - 1].id := questions[|questions| - 1]]
  }

  function Ids(answers: seq<Answer>): (ids: seq<Id>)
    ensures |ids| == |answers| && forall i :: 0 <= i < |ids| ==> ids[i] == answers[i].question
  {
    seq(|answers|, i requires 0 <= i < |answers| => answers[i].question)
  }

  function Position(answers: seq<Answer>, id: Id): (at: Option<nat>)
    ensures at.Some? ==> at.value < |answers| && answers[at.value].question == id
    ensures at.None? ==> id !in Ids(answers)
  {
    if answers == [] then None
    else if answers[|answers| - 1].question == id then Some(|answers| - 1)
    else
      var front := answers[..|answers| - 1];
      assert forall i :: 0 <= i < |front| ==> Ids(answers)[i] == Ids(front)[i];
      Position(front, id)
  }

  // ----- save_attempt_progress -----

  /** Known answers are overwritten in place, every other item adds a row, a repeated new id included. */
  function Saved(answers: seq<Answer>, items: seq<(Id, Response)>): (saved: seq<Answer>)
    ensures |answers| <= |saved|
    ensures forall i :: 0 <= i < |answers| ==> saved[i] == answers[i].(response := saved[i].response)
  {
    if items == [] then answers
    else
      var rest, item := Saved(answers, items[..|items| - 1]), items[|items| - 1];
      var at := Position(answers, item.0);
      if at.None? then rest + [Blank(item.0, item.1)] else rest[at.value := rest[at.value].(response := item.1)]
  }

  function Save(index: map<Id, Question>, s: Sheet, items: seq<(Id, Response)>): Outcome {
    if s.status != InProgress then Err(Conflict)
    else if exists i :: 0 <= i < |items| && items[i].0 !in index then Err(UnknownQuestion)
    else if !AllDifferent(Saved(s.answers, items)) then Err(DuplicateRow)
    else Ok(s.(answers := Saved(s.answers, items)))
  }

  /** UNIQUE(attempt, question). */
  predicate AllDifferent(answers: seq<Answer>) {
    NoDup(Ids(answers))
  }

  // ----- submit_attempt -----

  function Missing(answers: seq<Answer>, questions: seq<Question>): seq<Answer> {
    if questions == [] then []
    else
      var q := questions[|questions| - 1];
      Missing(answers, questions[..|questions| - 1]) + (if Position(answers, q.id).None? then [Blank(q.id, map[])] else [])
  }

  function Marked(py: Python, q: Question, a: Answer): Answer {
    var grade := GradeOf(py, q.kind, q.payload, a.response);
    if IsOpen(q.kind) then a.(max := grade.max, needsReview := true, correct := None, awarded := None)
    else a.(max := grade.max, awarded := Some(grade.awarded), correct := grade.correct, needsReview := false)
  }

  function AllMarked(py: Python, index: map<Id, Question>, answers: seq<Answer>): seq<Answer> {
    if answers == [] then []
    else
      var a := answers[|answers| - 1];
      AllMarked(py, index, answers[..|answers| - 1]) + [if a.question in index then Marked(py, index[a.question], a) else a]
  }

  function ItemsOf(index: map<Id, Question>, answers: seq<Answer>): seq<Scores.Item> {
    if answers == [] then []
    else
      var a := answers[|answers| - 1];
      ItemsOf(index, answers[..|answers| - 1])
      + (if a.question in index then [Scores.Item(index[a.question].weight, if a.awarded.Some? then a.awarded.value else 0.0, a.max)] else [])
  }

  function Rescored(index: map<Id, Question>, s: Sheet, threshold: real): Sheet {
    var agg := Scores.AggregateOf(ItemsOf(index, s.answers), threshold);
    s.(score := Some(agg.score), passed := Some(agg.passed))
  }

  predicate AnyOpen(questions: seq<Question>) {
    exists i :: 0 <= i < |questions| && IsOpen(questions[i].kind)
  }

  predicate Overlong(py: Python, index: map<Id, Question>, a: Answer) {
    && a.question in index && IsOpen(index[a.question].kind)
    && "text" in a.response && |py.str(a.response["text"])| > GRADING_MAX_ANSWER_CHARS
  }

  predicate NeedsReview(answers: seq<Answer>) {
    exists i :: 0 <= i < |answers| && answers[i].needsReview
  }

  predicate SomeOverlong(py: Python, index: map<Id, Question>, answers: seq<Answer>) {
    exists i :: 0 <= i < |answers| && Overlong(py, index, answers[i])
  }

  /** The sheet with a row for every question, all closed ones graded. */
  function Completed(py: Python, questions: seq<Question>, s: Sheet, threshold: real): Sheet {
    var marked := AllMarked(py, Index(questions), s.answers + Missing(s.answers, questions));
    Rescored(Index(questions), s.(answers := marked, status := if NeedsReview(marked) then Submitted else Graded), threshold)
  }

  /** `slot` is whether the student's daily grading quota has room. */
  function Submit(py: Python, questions: seq<Question>, s: Sheet, threshold: real, slot: bool): Outcome {
    if s.status != InProgress then Err(Conflict)
    else if AnyOpen(questions) && SomeOverlong(py, Index(questions), s.answers) then Err(TooLong)
    else if AnyOpen(questions) && !slot then Err(RateLimited)
    else Ok(Completed(py, questions, s, threshold))
  }

  // ----- override_answer_score, grade_attempt_task -----

  /** `awarded` passed the schema, so it is not negative. */
  function Override(index: map<Id, Question>, s: Sheet, k: nat, awarded: real, threshold: real): Outcome {
    if k >= |s.answers| then Err(NotFound)
    else if awarded > s.answers[k].max then Err(AboveMaximum)
    else
      var a := s.answers[k];
      var answers := s.answers[k := a.(awarded := Some(awarded), correct := Some(awarded >= a.max), needsReview := false,
                                       overridden := true, byAi := false)];
      Ok(Rescored(index, s.(answers := answers, status := if NeedsReview(answers) then s.status else Graded), threshold))
  }

  /** `scores` holds the score in [0, 1] of each answer that was paid for and that the model managed to grade. */
  predicate Gradable(index: map<Id, Question>, a: Answer, scores: map<Id, real>) {
    a.needsReview && a.question in index && IsOpen(index[a.question].kind) && a.question in scores
  }

  function GradedRow(index: map<Id, Question>, a: Answer, scores: map<Id, real>): Answer {
    if Gradable(index, a, scores)
    then a.(awarded := Some(scores[a.question]), correct := Some(scores[a.question] >= 0.999), needsReview := false, byAi := true)
    else a
  }

  function GradedOpen(index: map<Id, Question>, answers: seq<Answer>, scores: map<Id, real>): seq<Answer> {
    if answers == [] then []
    else GradedOpen(index, answers[..|answers| - 1], scores) + [GradedRow(index, answers[|answers| - 1], scores)]
  }

  function GradeOpen(index: map<Id, Question>, s: Sheet, scores: map<Id, real>, threshold: real): Sheet {
    Rescored(index, s.(answers := GradedOpen(index, s.answers, scores)), threshold).(status := Graded)
  }

  // ----- runs -----

  datatype Event =
    | SaveEvent(items: seq<(Id, Response)>)
    | SubmitEvent(threshold: real, slot: bool)
    | OverrideEvent(answer: nat, awarded: real, threshold: real)
    | GradeEvent(scores: map<Id, real>, threshold: real)

  function Kept(s: Sheet, outcome: Outcome): Sheet {
    if outcome.Ok? then outcome.value else s
  }

  /** The grading task is queued by submit, so it never meets an attempt in progress. */
  function After(py: Python, questions: seq<Question>, s: Sheet, e: Event): Sheet {
    match e
    case SaveEvent(items) => Kept(s, Save(Index(questions), s, items))
    case SubmitEvent(threshold, slot) => Kept(s, Submit(py, questions, s, threshold, slot))
    case OverrideEvent(answer, awarded, threshold) => Kept(s, Override(Index(questions), s, answer, awarded, threshold))
    case GradeEvent(scores, threshold) => if s.status == InProgress then s else GradeOpen(Index(questions), s, scores, threshold)
  }

  function Play(py: Python, questions: seq<Question>, s: Sheet, events: seq<Event>): Sheet {
    if events == [] then s else After(py, questions, Play(py, questions, s, events[..|events| - 1]), events[|events| - 1])
  }

  lemma PlaySnoc(py: Python, questions: seq<Question>, s: Sheet, events: seq<Event>, e: Event)
    ensures Play(py, questions, s, []) == s
    ensures Play(py, questions, s, events + [e]) == After(py, questions, Play(py, questions, s, events), e)
  {
    assert (events + [e])[..|events|] == events;
  }

  /** What the schema of the override and the validation of the LLM answer guarantee. */
  ghost predicate Legal(e: Event) {
    match e
    case OverrideEvent(_, awarded, _) => awarded >= 0.0
    case GradeEvent(scores, _) => forall id :: id in scores ==> 0.0 <= scores[id] <= 1.0
    case _ => true
  }

  ghost predicate AllLegal(events: seq<Event>) {
    forall i :: 0 <= i < |events| ==> Legal(events[i])
  }

  const Started := Sheet(InProgress, [], None, None)

  ghost predicate AnswerSound(index: map<Id, Question>, status: Status, a: Answer) {
    && a.question in index && a.max == 1.0
    && (a.awarded.Some? ==> 0.0 <= a.awarded.value <= a.max)
    && (a.needsReview ==> a.awarded.None? && status != InProgress)
    && (status == InProgress ==> a.awarded.None?)
  }

  ghost predicate AllSound(index: map<Id, Question>, status: Status, answers: seq<Answer>) {
    forall i :: 0 <= i < |answers| ==> AnswerSound(index, status, answers[i])
  }

  ghost predicate Inv(index: map<Id, Question>, s: Sheet) {
    && AllDifferent(s.answers)
    && AllSound(index, s.status, s.answers)
    && (s.status == InProgress <==> s.score.None?)
    && (s.score.Some? ==> s.score.value == Scores.ScoreOf(ItemsOf(index, s.answers)))
  }

  ghost predicate Complete(index: map<Id, Question>, s: Sheet) {
    forall id :: id in index ==> id in Ids(s.answers)
  }

  lemma {:induction false} SavedSound(index: map<Id, Question>, answers: seq<Answer>, items: seq<(Id, Response)>)
    requires AllSound(index, InProgress, answers) && forall i :: 0 <= i < |items| ==> items[i].0 in index
    ensures AllSound(index, InProgress, Saved(answers, items))
  {
    if items != [] {
      var front, item := items[..|items| - 1], items[|items| - 1];
      SavedSound(index, answers, front);
      var rest, saved := Saved(answers, front), Saved(answers, items);
      assert forall i :: 0 <= i < |rest| ==> saved[i] == rest[i].(response := saved[i].response);
      assert |saved| > |rest| ==> saved[|rest|] == Blank(item.0, item.1);
    }
  }

  lemma {:induction false} MarkedAt(py: Python, index: map<Id, Question>, answers: seq<Answer>)
    ensures var marked := AllMarked(py, index, answers);
            && |marked| == |answers|
            && forall i :: 0 <= i < |answers| ==>
                 marked[i] == if answers[i].question in index then Marked(py, index[answers[i].question], answers[i]) else answers[i]
  {
    if answers != [] {
      MarkedAt(py, index, answers[..|answers| - 1]);
    }
  }

  lemma {:induction false} GradedAt(index: map<Id, Question>, answers: seq<Answer>, scores: map<Id, real>)
    ensures var graded := GradedOpen(index, answers, scores);
            && |graded| == |answers|
            && forall i :: 0 <= i < |answers| ==> graded[i] == GradedRow(index, answers[i], scores)
  {
    if answers != [] {
      GradedAt(index, answers[..|answers| - 1], scores);
    }
  }

  ghost predicate Asked(questions: seq<Question>, id: Id) {
    exists i :: 0 <= i < |questions| && questions[i].id == id
  }

  lemma AskedSnoc(front: seq<Question>, last: Question, id: Id)
    ensures Asked(front + [last], id) <==> Asked(front, id) || last.id == id
  {
    assert forall i :: 0 <= i < |front| ==> (front + [last])[i] == front[i];
    assert (front + [last])[|front|] == last;
  }

  lemma MissingSnoc(answers: seq<Answer>, front: seq<Question>, last: Question)
    ensures Missing(answers, front + [last])
         == Missing(answers, front) + (if IsNew(answers, last.id) then [Blank(last.id, map[])] else [])
  {
    assert (front + [last])[..|front|] == front;
  }

  /** A row is added exactly for a question that has none. */
  lemma {:induction false} MissingHas(answers: seq<Answer>, questions: seq<Question>, a: Answer)
    ensures a in Missing(answers, questions) <==>
            a == Blank(a.question, map[]) && IsNew(answers, a.question) && Asked(questions, a.question)
  {
    if questions != [] {
      var front, last := questions[..|questions| - 1], questions[|questions| - 1];
      assert questions == front + [last];
      MissingHas(answers, front, a);
      MissingSnoc(answers, front, last);
      AskedSnoc(front, last, a.question);
    }
  }

  lemma {:induction false} MissingDiffer(answers: seq<Answer>, questions: seq<Question>)
    requires QuestionsDiffer(questions)
    ensures AllDifferent(Missing(answers, questions))
  {
    if questions != [] {
      var front, last := questions[..|questions| - 1], questions[|questions| - 1];
      assert questions == front + [last];
      MissingDiffer(answers, front);
      MissingSnoc(answers, front, last);
      DifferentSnoc(Missing(answers, front), Blank(last.id, map[]));
      if k :| 0 <= k < |Missing(answers, front)| && Missing(answers, front)[k].question == last.id {
        MissingHas(answers, front, Missing(answers, front)[k]);
      }
    }
  }

  /** The rows added for unanswered questions: each such question once, no other. */
  lemma MissingCompletes(answers: seq<Answer>, questions: seq<Question>)
    requires QuestionsDiffer(questions) && AllDifferent(answers)
    ensures var missing := Missing(answers, questions);
            && (forall a :: a in missing ==> a == Blank(a.question, map[]) && Position(answers, a.question).None?
                                             && exists q :: q in questions && q.id == a.question)
            && (forall q :: q in questions && Position(answers, q.id).None? ==> Blank(q.id, map[]) in missing)
            && AllDifferent(missing)
  {
    MissingDiffer(answers, questions);
    forall a | a in Missing(answers, questions)
      ensures a == Blank(a.question, map[]) && IsNew(answers, a.question) && exists q :: q in questions && q.id == a.question
    {
      MissingHas(answers, questions, a);
      var i :| 0 <= i < |questions| && questions[i].id == a.question;
      assert questions[i] in questions;
    }
    forall q | q in questions && IsNew(answers, q.id) ensures Blank(q.id, map[]) in Missing(answers, questions) {
      MissingHas(answers, questions, Blank(q.id, map[]));
    }
  }

  ghost predicate QuestionsDiffer(questions: seq<Question>) {
    forall i, j :: 0 <= i < j < |questions| ==> questions[i].id != questions[j].id
  }

  lemma SubmitAnswersAll(questions: seq<Question>, s: Sheet)
    requires QuestionsDiffer(questions) && AllDifferent(s.answers)
    ensures var all := s.answers + Missing(s.answers, questions);
            AllDifferent(all) && forall q :: q in questions ==> q.id in Ids(all)
  {
    SubmitRowsDiffer(questions, s.answers);
    forall q | q in questions ensures q.id in Ids(s.answers + Missing(s.answers, questions)) {
      SubmitAnswers(questions, s.answers, q);
    }
  }

  lemma SubmitRowsDiffer(questions: seq<Question>, answers: seq<Answer>)
    requires QuestionsDiffer(questions) && AllDifferent(answers)
    ensures AllDifferent(answers + Missing(answers, questions))
  {
    MissingCompletes(answers, questions);
    var missing := Missing(answers, questions);
    var all := answers + missing;
    forall i, j | 0 <= i < j < |all| ensures all[i].question != all[j].question {
      if i < |answers| <= j {
        assert missing[j - |answers|] in missing;
        assert Ids(answers)[i] == all[i].question;
      }
    }
  }

  lemma SubmitAnswers(questions: seq<Question>, answers: seq<Answer>, q: Question)
    requires QuestionsDiffer(questions) && AllDifferent(answers) && q in questions
    ensures q.id in Ids(answers + Missing(answers, questions))
  {
    var missing := Missing(answers, questions);
    var ids := Ids(answers + missing);
    var at := Position(answers, q.id);
    if at.Some? {
      assert ids[at.value] == q.id;
    } else {
      MissingCompletes(answers, questions);
      var k :| 0 <= k < |missing| && missing[k] == Blank(q.id, map[]);
      assert ids[|answers| + k] == q.id;
    }
  }

  function LastFor(items: seq<(Id, Response)>, id: Id, otherwise: Response): Response {
    if items == [] then otherwise
    else if items[|items| - 1].0 == id then items[|items| - 1].1
    else LastFor(items[..|items| - 1], id, otherwise)
  }

  /** Saving leaves in every existing row the last response sent for it, and nothing else changes there. */
  lemma {:induction false} SavedInPlace(answers: seq<Answer>, items: seq<(Id, Response)>, k: nat)
    requires AllDifferent(answers) && k < |answers|
    ensures Saved(answers, items)[k] == answers[k].(response := LastFor(items, answers[k].question, answers[k].response))
  {
    if items != [] {
      SavedInPlace(answers, items[..|items| - 1], k);
      assert answers[k].question == Ids(answers)[k];
    }
  }

  /** Below them, one row for each item with a new id, in the order sent. */
  lemma {:induction false} SavedNew(answers: seq<Answer>, items: seq<(Id, Response)>)
    ensures Saved(answers, items)[|answers|..] == NewRows(answers, items)
  {
    if items != [] {
      SavedNew(answers, items[..|items| - 1]);
      var rest, item := Saved(answers, items[..|items| - 1]), items[|items| - 1];
      var at := Position(answers, item.0);
      if at.Some? {
        assert rest[at.value := rest[at.value].(response := item.1)][|answers|..] == rest[|answers|..];
      } else {
        assert (rest + [Blank(item.0, item.1)])[|answers|..] == rest[|answers|..] + [Blank(item.0, item.1)];
      }
    }
  }

  function NewRows(answers: seq<Answer>, items: seq<(Id, Response)>): seq<Answer> {
    if items == [] then []
    else
      var item := items[|items| - 1];
      NewRows(answers, items[..|items| - 1]) + (if IsNew(answers, item.0) then [Blank(item.0, item.1)] else [])
  }

  predicate IsNew(answers: seq<Answer>, id: Id) {
    Position(answers, id).None?
  }

  ghost predicate Sent(items: seq<(Id, Response)>, id: Id) {
    exists i :: 0 <= i < |items| && items[i].0 == id
  }

  ghost predicate HasRow(rows: seq<Answer>, id: Id) {
    exists k :: 0 <= k < |rows| && rows[k].question == id
  }

  lemma SentSnoc(front: seq<(Id, Response)>, item: (Id, Response), id: Id)
    ensures Sent(front + [item], id) <==> Sent(front, id) || item.0 == id
  {
    assert forall i :: 0 <= i < |front| ==> (front + [item])[i] == front[i];
    assert (front + [item])[|front|] == item;
  }

  lemma HasRowSnoc(rest: seq<Answer>, a: Answer, id: Id)
    ensures HasRow(rest + [a], id) <==> HasRow(rest, id) || a.question == id
  {
    assert forall i :: 0 <= i < |rest| ==> (rest + [a])[i] == rest[i];
    assert (rest + [a])[|rest|] == a;
  }

  lemma {:induction false} NewRowsAreNew(answers: seq<Answer>, items: seq<(Id, Response)>, id: Id)
    ensures HasRow(NewRows(answers, items), id) <==> IsNew(answers, id) && Sent(items, id)
  {
    if items != [] {
      var front, item := items[..|items| - 1], items[|items| - 1];
      NewRowsAreNew(answers, front, id);
      assert items == front + [item];
      SentSnoc(front, item, id);
      HasRowSnoc(NewRows(answers, front), Blank(item.0, item.1), id);
      assert !IsNew(answers, item.0) ==> NewRows(answers, items) == NewRows(answers, front);
    }
  }

  ghost predicate Repeats(answers: seq<Answer>, items: seq<(Id, Response)>) {
    exists i, j :: 0 <= i < j < |items| && items[i].0 == items[j].0 && IsNew(answers, items[i].0)
  }

  lemma RepeatsSnoc(answers: seq<Answer>, front: seq<(Id, Response)>, item: (Id, Response))
    ensures Repeats(answers, front + [item]) <==>
            Repeats(answers, front) || (IsNew(answers, item.0) && Sent(front, item.0))
  {
    var items := front + [item];
    assert forall i :: 0 <= i < |front| ==> items[i] == front[i];
    assert items[|front|] == item;
    if Repeats(answers, items) && !Repeats(answers, front) {
      var i, j :| 0 <= i < j < |items| && items[i].0 == items[j].0 && IsNew(answers, items[i].0);
      assert j == |front|;
    }
    if i, j :| 0 <= i < j < |front| && front[i].0 == front[j].0 && IsNew(answers, front[i].0) {
      assert items[i].0 == items[j].0;
    }
    if i :| IsNew(answers, item.0) && 0 <= i < |front| && front[i].0 == item.0 {
      assert items[i].0 == items[|front|].0;
    }
  }

  lemma DifferentSnoc(rest: seq<Answer>, a: Answer)
    ensures AllDifferent(rest + [a]) <==> AllDifferent(rest) && !HasRow(rest, a.question)
  {
    var rows := rest + [a];
    assert forall i :: 0 <= i < |rest| ==> rows[i] == rest[i];
    assert rows[|rest|] == a;
  }

  lemma {:induction false} RepeatsCollide(answers: seq<Answer>, items: seq<(Id, Response)>)
    ensures Repeats(answers, items) <==> !AllDifferent(NewRows(answers, items))
  {
    if items != [] {
      var front, item := items[..|items| - 1], items[|items| - 1];
      RepeatsCollide(answers, front);
      RepeatsSnoc(answers, front, item);
      assert items == front + [item];
      NewRowsAreNew(answers, front, item.0);
      DifferentSnoc(NewRows(answers, front), Blank(item.0, item.1));
      assert !IsNew(answers, item.0) ==> NewRows(answers, items) == NewRows(answers, front);
    }
  }

  /** So a save is refused for a repeated row exactly when some id that had no row yet is sent twice. */
  lemma SaveRefusesRepeats(index: map<Id, Question>, s: Sheet, items: seq<(Id, Response)>)
    requires AllDifferent(s.answers)
    ensures Save(index, s, items).Ok? <==>
            s.status == InProgress && (forall i :: 0 <= i < |items| ==> items[i].0 in index) && !Repeats(s.answers, items)
  {
    SaveSucceedsIff(index, s, items);
    SavedDiffer(s.answers, items);
    RepeatsCollide(s.answers, items);
  }

  lemma SaveSucceedsIff(index: map<Id, Question>, s: Sheet, items: seq<(Id, Response)>)
    ensures Save(index, s, items).Ok? <==>
            s.status == InProgress && (forall i :: 0 <= i < |items| ==> items[i].0 in index) && AllDifferent(Saved(s.answers, items))
  {
  }

  lemma SavedDiffer(answers: seq<Answer>, items: seq<(Id, Response)>)
    requires AllDifferent(answers)
    ensures AllDifferent(Saved(answers, items)) <==> AllDifferent(NewRows(answers, items))
  {
    var saved, rows := Saved(answers, items), NewRows(answers, items);
    SavedNew(answers, items);
    forall k | 0 <= k < |rows| ensures IsNew(answers, rows[k].question) {
      NewRowsAreNew(answers, items, rows[k].question);
    }
    assert saved == saved[..|answers|] + rows;
    Join(answers, saved[..|answers|], rows);
  }

  lemma Join(answers: seq<Answer>, head: seq<Answer>, rows: seq<Answer>)
    requires |head| == |answers| && AllDifferent(answers)
    requires forall i :: 0 <= i < |head| ==> head[i].question == answers[i].question
    requires forall k :: 0 <= k < |rows| ==> IsNew(answers, rows[k].question)
    ensures AllDifferent(head + rows) <==> AllDifferent(rows)
  {
    var all := head + rows;
    assert forall k :: 0 <= k < |rows| ==> all[|head| + k] == rows[k];
    if AllDifferent(rows) {
      forall i, j | 0 <= i < j < |all| ensures all[i].question != all[j].question {
        if i < |head| <= j {
          assert Ids(answers)[i] == all[i].question;
          assert IsNew(answers, rows[j - |head|].question);
        }
      }
    }
    if i, j :| 0 <= i < j < |rows| && rows[i].question == rows[j].question {
      assert all[|head| + i].question == all[|head| + j].question;
    }
  }

  // ----- what every event keeps -----

  lemma SaveKeepsInv(questions: seq<Question>, s: Sheet, items: seq<(Id, Response)>)
    requires Inv(Index(questions), s)
    ensures Inv(Index(questions), Kept(s, Save(Index(questions), s, items)))
  {
    if Save(Index(questions), s, items).Ok? {
      SavedSound(Index(questions), s.answers, items);
    }
  }

  lemma SubmitKeepsInv(py: Python, questions: seq<Question>, s: Sheet, threshold: real, slot: bool)
    requires QuestionsDiffer(questions) && Inv(Index(questions), s)
    ensures var outcome := Submit(py, questions, s, threshold, slot);
            Inv(Index(questions), Kept(s, outcome)) && (outcome.Ok? ==> Complete(Index(questions), outcome.value))
  {
    var outcome := Submit(py, questions, s, threshold, slot);
    if outcome.Ok? {
      var all := s.answers + Missing(s.answers, questions);
      SubmitAnswersAll(questions, s);
      MissingSound(Index(questions), s.answers, questions);
      MarkingIsSound(py, Index(questions), all);
      ClosedIsSound(Index(questions), outcome.value);
      CompleteRows(questions, all);
    }
  }

  lemma ClosedIsSound(index: map<Id, Question>, s: Sheet)
    requires AllDifferent(s.answers) && AllSound(index, s.status, s.answers) && s.status != InProgress
    requires s.score == Some(Scores.ScoreOf(ItemsOf(index, s.answers)))
    ensures Inv(index, s)
  {
  }

  lemma CompleteRows(questions: seq<Question>, all: seq<Answer>)
    requires forall q :: q in questions ==> q.id in Ids(all)
    ensures forall id :: id in Index(questions) ==> id in Ids(all)
  {
    forall id | id in Index(questions) ensures id in Ids(all) {
      IndexComesFrom(questions, id);
    }
  }

  lemma {:induction false} IndexComesFrom(questions: seq<Question>, id: Id)
    requires id in Index(questions)
    ensures Index(questions)[id] in questions && Index(questions)[id].id == id
  {
    if questions[|questions| - 1].id != id {
      IndexComesFrom(questions[..|questions| - 1], id);
    }
  }

  lemma MarkingIsSound(py: Python, index: map<Id, Question>, all: seq<Answer>)
    requires AllSound(index, InProgress, all)
    ensures var marked := AllMarked(py, index, all);
            && Ids(marked) == Ids(all)
            && (AllDifferent(all) ==> AllDifferent(marked))
            && AllSound(index, Submitted, marked) && AllSound(index, Graded, marked)
  {
    MarkedAt(py, index, all);
    var marked := AllMarked(py, index, all);
    forall i | 0 <= i < |marked| ensures AnswerSound(index, Submitted, marked[i]) && AnswerSound(index, Graded, marked[i]) {
      assert AnswerSound(index, InProgress, all[i]);
      var q := index[all[i].question];
      ScoresAreUnit(py, q.kind, q.payload, all[i].response);
    }
  }

  lemma MissingSound(index: map<Id, Question>, answers: seq<Answer>, questions: seq<Question>)
    requires QuestionsDiffer(questions) && AllDifferent(answers) && forall q :: q in questions ==> q.id in index
    ensures forall a :: a in Missing(answers, questions) ==> a.question in index && AnswerSound(index, InProgress, a)
  {
    MissingCompletes(answers, questions);
  }

  lemma OverrideKeepsInv(index: map<Id, Question>, s: Sheet, k: nat, awarded: real, threshold: real)
    requires Inv(index, s) && awarded >= 0.0
    ensures var t := Kept(s, Override(index, s, k, awarded, threshold)); Inv(index, t) && (Complete(index, s) ==> Complete(index, t))
  {
    var outcome := Override(index, s, k, awarded, threshold);
    if outcome.Ok? {
      OverriddenSound(index, s, k, awarded, threshold);
      SameRowsSound(index, s, outcome.value);
    }
  }

  lemma SameRowsSound(index: map<Id, Question>, s: Sheet, t: Sheet)
    requires Ids(t.answers) == Ids(s.answers) && AllDifferent(s.answers) && AllSound(index, t.status, t.answers)
    requires t.status != InProgress && t.score == Some(Scores.ScoreOf(ItemsOf(index, t.answers)))
    ensures Inv(index, t) && (Complete(index, s) ==> Complete(index, t))
  {
  }

  lemma OverriddenSound(index: map<Id, Question>, s: Sheet, k: nat, awarded: real, threshold: real)
    requires AllSound(index, s.status, s.answers) && awarded >= 0.0 && Override(index, s, k, awarded, threshold).Ok?
    ensures var t := Override(index, s, k, awarded, threshold).value; AllSound(index, t.status, t.answers) && t.status != InProgress
    ensures Ids(Override(index, s, k, awarded, threshold).value.answers) == Ids(s.answers)
  {
    var t := Override(index, s, k, awarded, threshold).value;
    assert forall i :: 0 <= i < |s.answers| ==> AnswerSound(index, s.status, s.answers[i]);
    if s.status == InProgress {
      assert !NeedsReview(t.answers);
    }
  }

  lemma GradedRowSound(index: map<Id, Question>, status: Status, a: Answer, scores: map<Id, real>)
    requires AnswerSound(index, status, a) && status != InProgress && forall id :: id in scores ==> 0.0 <= scores[id] <= 1.0
    ensures AnswerSound(index, Graded, GradedRow(index, a, scores)) && GradedRow(index, a, scores).question == a.question
  {
  }

  lemma GradedSound(index: map<Id, Question>, s: Sheet, scores: map<Id, real>)
    requires Inv(index, s) && s.status != InProgress && forall id :: id in scores ==> 0.0 <= scores[id] <= 1.0
    ensures var graded := GradedOpen(index, s.answers, scores);
            AllDifferent(graded) && AllSound(index, Graded, graded) && Ids(graded) == Ids(s.answers)
  {
    GradedAt(index, s.answers, scores);
    var graded := GradedOpen(index, s.answers, scores);
    forall i | 0 <= i < |graded| ensures AnswerSound(index, Graded, graded[i]) && graded[i].question == s.answers[i].question {
      assert AnswerSound(index, s.status, s.answers[i]);
      GradedRowSound(index, s.status, s.answers[i], scores);
    }
    assert Ids(graded) == Ids(s.answers);
  }

  lemma GradeKeepsInv(index: map<Id, Question>, s: Sheet, scores: map<Id, real>, threshold: real)
    requires Inv(index, s) && s.status != InProgress && forall id :: id in scores ==> 0.0 <= scores[id] <= 1.0
    ensures Inv(index, GradeOpen(index, s, scores, threshold))
    ensures Complete(index, s) ==> Complete(index, GradeOpen(index, s, scores, threshold))
  {
    GradedSound(index, s, scores);
    ClosedIsSound(index, GradeOpen(index, s, scores, threshold));
  }

  lemma EventKeepsInv(py: Python, questions: seq<Question>, s: Sheet, e: Event)
    requires QuestionsDiffer(questions) && Inv(Index(questions), s) && Legal(e)
    ensures Inv(Index(questions), After(py, questions, s, e))
    ensures s.status != InProgress ==> After(py, questions, s, e).status != InProgress
    ensures Complete(Index(questions), s) && s.status != InProgress ==> Complete(Index(questions), After(py, questions, s, e))
  {
    match e
    case SaveEvent(items) => SaveKeepsInv(questions, s, items);
    case SubmitEvent(threshold, slot) => SubmitKeepsInv(py, questions, s, threshold, slot);
    case OverrideEvent(answer, awarded, threshold) => OverrideKeepsInv(Index(questions), s, answer, awarded, threshold);
    case GradeEvent(scores, threshold) =>
      if s.status != InProgress {
        GradeKeepsInv(Index(questions), s, scores, threshold);
      }
  }

  lemma {:induction false} InvInEveryRun(py: Python, questions: seq<Question>, s: Sheet, events: seq<Event>)
    requires QuestionsDiffer(questions) && Inv(Index(questions), s) && AllLegal(events)
    ensures Inv(Index(questions), Play(py, questions, s, events))
    ensures Complete(Index(questions), s) && s.status != InProgress ==>
              Complete(Index(questions), Play(py, questions, s, events)) && Play(py, questions, s, events).status != InProgress
  {
    if events != [] {
      var front := events[..|events| - 1];
      assert forall i :: 0 <= i < |front| ==> front[i] == events[i];
      InvInEveryRun(py, questions, s, front);
      EventKeepsInv(py, questions, Play(py, questions, s, front), events[|events| - 1]);
    }
  }

  /** From a submit on, however overrides, gradings and redeliveries follow, the stored score is the weighted average of one
      answer per pinned question under the pinned weights. */
  lemma StoredScoreIsAggregate(py: Python, questions: seq<Question>, before: seq<Event>, threshold: real, slot: bool, after: seq<Event>)
    requires QuestionsDiffer(questions) && AllLegal(before) && AllLegal(after)
    requires Submit(py, questions, Play(py, questions, Started, before), threshold, slot).Ok?
    ensures var s := Play(py, questions, Submit(py, questions, Play(py, questions, Started, before), threshold, slot).value, after);
            && s.score == Some(Scores.ScoreOf(ItemsOf(Index(questions), s.answers)))
            && AllDifferent(s.answers) && s.status != InProgress
            && forall q :: q in questions ==> q.id in Ids(s.answers)
  {
    var open := Play(py, questions, Started, before);
    InvInEveryRun(py, questions, Started, before);
    SubmitKeepsInv(py, questions, open, threshold, slot);
    InvInEveryRun(py, questions, Submit(py, questions, open, threshold, slot).value, after);
  }

  // ----- how the score moves -----

  function ItemFor(index: map<Id, Question>, a: Answer): Scores.Item
    requires a.question in index
  {
    Scores.Item(index[a.question].weight, if a.awarded.Some? then a.awarded.value else 0.0, a.max)
  }

  lemma {:induction false} ItemsAt(index: map<Id, Question>, answers: seq<Answer>)
    requires forall i :: 0 <= i < |answers| ==> answers[i].question in index
    ensures |ItemsOf(index, answers)| == |answers|
    ensures forall i :: 0 <= i < |answers| ==> ItemsOf(index, answers)[i] == ItemFor(index, answers[i])
  {
    if answers != [] {
      ItemsAt(index, answers[..|answers| - 1]);
    }
  }

  ghost predicate FairWeights(index: map<Id, Question>) {
    forall id :: id in index ==> index[id].weight >= 0.0
  }

  lemma ItemsAreFair(index: map<Id, Question>, s: Sheet)
    requires Inv(index, s) && FairWeights(index)
    ensures Scores.NonNegativeWeights(ItemsOf(index, s.answers)) && Scores.InBounds(ItemsOf(index, s.answers))
    ensures |ItemsOf(index, s.answers)| == |s.answers|
    ensures forall i :: 0 <= i < |s.answers| ==> s.answers[i].question in index && ItemsOf(index, s.answers)[i] == ItemFor(index, s.answers[i])
  {
    forall i | 0 <= i < |s.answers| ensures s.answers[i].question in index {
      assert AnswerSound(index, s.status, s.answers[i]);
    }
    ItemsAt(index, s.answers);
    forall i | 0 <= i < |s.answers| ensures 0.0 <= ItemFor(index, s.answers[i]).awarded <= ItemFor(index, s.answers[i]).max {
      assert AnswerSound(index, s.status, s.answers[i]);
    }
  }

  /** The award the score counts for an answer. */
  function Award(a: Answer): real {
    if a.awarded.Some? then a.awarded.value else 0.0
  }

  /** An override keeps or raises the stored score exactly when it does not lower the award or its question weighs nothing. */
  lemma OverrideMovesScore(index: map<Id, Question>, s: Sheet, k: nat, awarded: real, threshold: real)
    requires Inv(index, s) && FairWeights(index) && s.score.Some? && awarded >= 0.0
    requires Override(index, s, k, awarded, threshold).Ok?
    ensures s.answers[k].question in index
    ensures s.score.value <= Override(index, s, k, awarded, threshold).value.score.value <==>
            Award(s.answers[k]) <= awarded || index[s.answers[k].question].weight == 0.0
  {
    OverrideScore(index, s, k, awarded, threshold);
    ItemsAreFair(index, s);
    Scores.OneAwardMovesScore(ItemsOf(index, s.answers), k, awarded);
  }

  /** The score an override stores: the items with one award replaced. */
  lemma OverrideScore(index: map<Id, Question>, s: Sheet, k: nat, awarded: real, threshold: real)
    requires Inv(index, s) && Override(index, s, k, awarded, threshold).Ok?
    ensures var items := ItemsOf(index, s.answers);
            && |items| == |s.answers| && s.answers[k].question in index
            && items[k].awarded == Award(s.answers[k]) && items[k].weight == Weighs(index, s.answers[k]) && items[k].max == s.answers[k].max
            && Override(index, s, k, awarded, threshold).value.score
               == Some(Scores.ScoreOf(items[k := items[k].(awarded := awarded)]))
  {
    var row := Override(index, s, k, awarded, threshold).value.answers[k];
    ItemChanges(index, s, k, row);
    StoredAggregate(index, s.answers[k := row], Override(index, s, k, awarded, threshold).value, threshold);
  }

  lemma StoredAggregate(index: map<Id, Question>, answers: seq<Answer>, s: Sheet, threshold: real)
    requires s == Rescored(index, s.(answers := answers), threshold)
    ensures s.score == Some(Scores.ScoreOf(ItemsOf(index, answers)))
  {
  }

  function Weighs(index: map<Id, Question>, a: Answer): real {
    if a.question in index then index[a.question].weight else 0.0
  }

  lemma RowCounts(index: map<Id, Question>, s: Sheet)
    requires Inv(index, s)
    ensures |ItemsOf(index, s.answers)| == |s.answers|
    ensures forall i :: 0 <= i < |s.answers| ==> s.answers[i].question in index
  {
    forall i | 0 <= i < |s.answers| ensures s.answers[i].question in index {
      assert AnswerSound(index, s.status, s.answers[i]);
    }
    ItemsAt(index, s.answers);
  }

  /** With one award put into the rows, one item changes. */
  lemma ItemChanges(index: map<Id, Question>, s: Sheet, k: nat, a: Answer)
    requires Inv(index, s) && k < |s.answers| && a.question == s.answers[k].question && a.max == s.answers[k].max
    ensures var items := ItemsOf(index, s.answers);
            && |items| == |s.answers| && a.question in index
            && ItemsOf(index, s.answers[k := a]) == items[k := items[k].(awarded := Award(a))]
            && items[k].weight == Weighs(index, a) && items[k].awarded == Award(s.answers[k]) && items[k].max == 1.0
  {
    RowCounts(index, s);
    ItemsAt(index, s.answers);
    ItemsUpdate(index, s.answers, k, a);
    assert AnswerSound(index, s.status, s.answers[k]);
  }

  lemma ItemsUpdate(index: map<Id, Question>, answers: seq<Answer>, k: nat, a: Answer)
    requires (forall i :: 0 <= i < |answers| ==> answers[i].question in index) && k < |answers| && a.question in index
    ensures |ItemsOf(index, answers)| == |answers|
    ensures ItemsOf(index, answers[k := a]) == ItemsOf(index, answers)[k := ItemFor(index, a)]
  {
    ItemsAt(index, answers);
    ItemsAt(index, answers[k := a]);
  }

  /** The LLM only grades answers that count nothing yet. */
  lemma GradingNeverLowers(index: map<Id, Question>, s: Sheet, scores: map<Id, real>, threshold: real)
    requires Inv(index, s) && FairWeights(index) && s.status != InProgress && forall id :: id in scores ==> 0.0 <= scores[id] <= 1.0
    ensures s.score.value <= GradeOpen(index, s, scores, threshold).score.value
  {
    ItemsAreFair(index, s);
    GradedNoWorse(index, s, scores, threshold);
    Scores.ScoreGrows(ItemsOf(index, s.answers), ItemsOf(index, GradedOpen(index, s.answers, scores)));
  }

  lemma GradedNoWorse(index: map<Id, Question>, s: Sheet, scores: map<Id, real>, threshold: real)
    requires Inv(index, s) && s.status != InProgress && forall id :: id in scores ==> 0.0 <= scores[id] <= 1.0
    ensures Scores.NoWorse(ItemsOf(index, s.answers), ItemsOf(index, GradedOpen(index, s.answers, scores)))
  {
    var graded := GradedOpen(index, s.answers, scores);
    GradedAt(index, s.answers, scores);
    forall i | 0 <= i < |s.answers|
      ensures s.answers[i].question in index && graded[i].question == s.answers[i].question
      ensures graded[i].max == s.answers[i].max && Award(s.answers[i]) <= Award(graded[i])
    {
      GradedRowNoWorse(index, s.status, s.answers[i], scores);
    }
    RowwiseNoWorse(index, s.answers, graded);
  }

  lemma GradedRowNoWorse(index: map<Id, Question>, status: Status, a: Answer, scores: map<Id, real>)
    requires AnswerSound(index, status, a) && status != InProgress && forall id :: id in scores ==> 0.0 <= scores[id] <= 1.0
    ensures var row := GradedRow(index, a, scores);
            a.question in index && row.question == a.question && row.max == a.max && Award(a) <= Award(row)
  {
  }

  lemma RowwiseNoWorse(index: map<Id, Question>, answers: seq<Answer>, better: seq<Answer>)
    requires |answers| == |better|
    requires forall i :: 0 <= i < |answers| ==>
               && answers[i].question in index && better[i].question == answers[i].question
               && better[i].max == answers[i].max && Award(answers[i]) <= Award(better[i])
    ensures Scores.NoWorse(ItemsOf(index, answers), ItemsOf(index, better))
  {
    ItemsAt(index, answers);
    ItemsAt(index, better);
  }

  /** Every accepted override of the run leaves its answer's award at least where it was. */
  ghost predicate NeverLowers(py: Python, questions: seq<Question>, s: Sheet, events: seq<Event>) {
    events == [] ||
    (var front, e := events[..|events| - 1], events[|events| - 1];
     var now := Play(py, questions, s, front);
     && NeverLowers(py, questions, s, front)
     && (e.OverrideEvent? && Override(Index(questions), now, e.answer, e.awarded, e.threshold).Ok? ==> Award(now.answers[e.answer]) <= e.awarded))
  }

  lemma EventNeverLowers(py: Python, questions: seq<Question>, s: Sheet, e: Event)
    requires QuestionsDiffer(questions) && Inv(Index(questions), s) && FairWeights(Index(questions)) && s.status != InProgress && Legal(e)
    requires e.OverrideEvent? && Override(Index(questions), s, e.answer, e.awarded, e.threshold).Ok? ==> Award(s.answers[e.answer]) <= e.awarded
    ensures After(py, questions, s, e).score.Some? && s.score.value <= After(py, questions, s, e).score.value
  {
    match e
    case OverrideEvent(answer, awarded, threshold) =>
      if Override(Index(questions), s, answer, awarded, threshold).Ok? {
        OverrideMovesScore(Index(questions), s, answer, awarded, threshold);
      }
    case GradeEvent(scores, threshold) => GradingNeverLowers(Index(questions), s, scores, threshold);
    case _ =>
  }

  /** The provisional score at submit is a lower bound for every later one, as long as no override lowers an award. */
  lemma {:induction false} ProvisionalIsLowerBound(py: Python, questions: seq<Question>, s: Sheet, events: seq<Event>)
    requires QuestionsDiffer(questions) && Inv(Index(questions), s) && FairWeights(Index(questions)) && s.status != InProgress
    requires AllLegal(events) && NeverLowers(py, questions, s, events)
    ensures Play(py, questions, s, events).score.Some?
    ensures 0.0 <= s.score.value <= Play(py, questions, s, events).score.value <= 1.0
  {
    InvInEveryRun(py, questions, s, events);
    ItemsAreFair(Index(questions), s);
    ItemsAreFair(Index(questions), Play(py, questions, s, events));
    Scores.ClampIdle(ItemsOf(Index(questions), s.answers));
    Scores.ClampIdle(ItemsOf(Index(questions), Play(py, questions, s, events).answers));
    if events != [] {
      var front := events[..|events| - 1];
      assert forall i :: 0 <= i < |front| ==> front[i] == events[i];
      ProvisionalIsLowerBound(py, questions, s, front);
      InvInEveryRun(py, questions, s, front);
      StaysClosed(py, questions, s, front);
      EventNeverLowers(py, questions, Play(py, questions, s, front), events[|events| - 1]);
    }
  }

  lemma {:induction false} StaysClosed(py: Python, questions: seq<Question>, s: Sheet, events: seq<Event>)
    requires s.status != InProgress
    ensures Play(py, questions, s, events).status != InProgress
  {
    if events != [] {
      StaysClosed(py, questions, s, events[..|events| - 1]);
    }
  }

  /** override_answer_score does not look at the status: on an attempt in progress it closes the attempt with a score over the
      answers saved so far, and the student can neither save nor submit any more. */
  lemma OverrideClosesOpenAttempt(py: Python, questions: seq<Question>, s: Sheet, k: nat, awarded: real, threshold: real,
                                  items: seq<(Id, Response)>, slot: bool)
    requires Inv(Index(questions), s) && s.status == InProgress && awarded >= 0.0
    requires Override(Index(questions), s, k, awarded, threshold).Ok?
    ensures var after := Override(Index(questions), s, k, awarded, threshold).value;
            && after.status == Graded && Ids(after.answers) == Ids(s.answers)
            && after.score == Some(Scores.ScoreOf(ItemsOf(Index(questions), after.answers)))
            && Save(Index(questions), after, items) == Err(Conflict)
            && Submit(py, questions, after, threshold, slot) == Err(Conflict)
  {
    OverrideKeepsInv(Index(questions), s, k, awarded, threshold);
    assert forall i :: 0 <= i < |s.answers| ==> AnswerSound(Index(questions), s.status, s.answers[i]);
  }

  // ----- the score of a submit -----

  function Cutout<T>(s: seq<T>, k: nat): seq<T>
    requires k < |s|
  {
    s[..k] + s[k + 1..]
  }

  lemma SameRest<T>(a: seq<T>, b: seq<T>, i: nat, k: nat)
    requires multiset(a) == multiset(b) && i < |a| && k < |b| && a[i] == b[k]
    ensures multiset(Cutout(a, i)) == multiset(Cutout(b, k))
  {
    TakeOut(a, i);
    TakeOut(b, k);
  }

  lemma Located<T>(a: seq<T>, b: seq<T>) returns (k: nat)
    requires multiset(a) == multiset(b) && a != []
    ensures k < |b| && b[k] == a[0]
  {
    assert a[0] in multiset(b);
    k :| 0 <= k < |b| && b[k] == a[0];
  }

  lemma SameLength<T>(a: seq<T>, b: seq<T>)
    requires multiset(a) == multiset(b)
    ensures |a| == |b|
  {
    assert |multiset(a)| == |multiset(b)|;
  }

  /** The item one pinned question contributes at submit, whatever row order it comes in. */
  function ItemAtSubmit(py: Python, index: map<Id, Question>, responses: map<Id, Response>, id: Id): Scores.Item {
    if id in index then QuizVersions.ItemOf(py, index[id].(id := id), responses) else Scores.Item(0.0, 0.0, 0.0)
  }

  function ItemsAtSubmit(py: Python, index: map<Id, Question>, responses: map<Id, Response>, ids: seq<Id>): (items: seq<Scores.Item>)
    ensures |items| == |ids| && forall i :: 0 <= i < |ids| ==> items[i] == ItemAtSubmit(py, index, responses, ids[i])
  {
    seq(|ids|, i requires 0 <= i < |ids| => ItemAtSubmit(py, index, responses, ids[i]))
  }

  lemma CutoutItems(py: Python, index: map<Id, Question>, responses: map<Id, Response>, ids: seq<Id>, k: nat)
    requires k < |ids|
    ensures ItemsAtSubmit(py, index, responses, Cutout(ids, k)) == Cutout(ItemsAtSubmit(py, index, responses, ids), k)
  {
  }

  lemma CutoutAdds<T>(s: seq<T>, k: nat)
    requires k < |s|
    ensures multiset(s) == multiset(Cutout(s, k)) + multiset{s[k]}
  {
    assert s == s[..k] + [s[k]] + s[k + 1..];
  }

  lemma ItemsWithout(py: Python, index: map<Id, Question>, responses: map<Id, Response>, ids: seq<Id>, k: nat)
    requires k < |ids|
    ensures multiset(ItemsAtSubmit(py, index, responses, ids))
         == multiset(ItemsAtSubmit(py, index, responses, Cutout(ids, k))) + multiset{ItemAtSubmit(py, index, responses, ids[k])}
  {
    CutoutItems(py, index, responses, ids, k);
    CutoutAdds(ItemsAtSubmit(py, index, responses, ids), k);
  }

  /** The same ids in different order give the same items in different order. */
  lemma {:induction false} SameItems(py: Python, index: map<Id, Question>, responses: map<Id, Response>, a: seq<Id>, b: seq<Id>)
    requires multiset(a) == multiset(b)
    ensures multiset(ItemsAtSubmit(py, index, responses, a)) == multiset(ItemsAtSubmit(py, index, responses, b))
    decreases |a|
  {
    SameLength(a, b);
    if a != [] {
      var k := Located(a, b);
      SameRest(a, b, 0, k);
      SameItems(py, index, responses, Cutout(a, 0), Cutout(b, k));
      ItemsWithout(py, index, responses, a, 0);
      ItemsWithout(py, index, responses, b, k);
    }
  }

  function QuestionIds(questions: seq<Question>): seq<Id> {
    if questions == [] then [] else QuestionIds(questions[..|questions| - 1]) + [questions[|questions| - 1].id]
  }

  lemma {:induction false} ItemsByQuestion(py: Python, index: map<Id, Question>, questions: seq<Question>, responses: map<Id, Response>)
    requires forall i :: 0 <= i < |questions| ==> questions[i].id in index && index[questions[i].id] == questions[i]
    ensures QuizVersions.Items(py, questions, responses) == ItemsAtSubmit(py, index, responses, QuestionIds(questions))
  {
    if questions != [] {
      var front, last := questions[..|questions| - 1], questions[|questions| - 1];
      assert last.id in index && index[last.id] == last;
      ItemsByQuestion(py, index, front, responses);
      AtSubmitSnoc(py, index, responses, QuestionIds(front), last.id);
      assert last.(id := last.id) == last;
    }
  }

  lemma AtSubmitSnoc(py: Python, index: map<Id, Question>, responses: map<Id, Response>, ids: seq<Id>, id: Id)
    ensures ItemsAtSubmit(py, index, responses, ids + [id])
         == ItemsAtSubmit(py, index, responses, ids) + [ItemAtSubmit(py, index, responses, id)]
  {
  }

  ghost predicate Answers(responses: map<Id, Response>, a: Answer) {
    a.response == if a.question in responses then responses[a.question] else map[]
  }

  lemma MarkedItem(py: Python, index: map<Id, Question>, a: Answer, responses: map<Id, Response>)
    requires a.question in index && Answers(responses, a)
    ensures ItemFor(index, Marked(py, index[a.question], a)) == ItemAtSubmit(py, index, responses, a.question)
  {
  }

  /** Row by row, grading at submit gives the quiz's items for the saved responses. */
  lemma ItemsByRow(py: Python, index: map<Id, Question>, answers: seq<Answer>, marked: seq<Answer>, responses: map<Id, Response>)
    requires |marked| == |answers|
    requires forall i :: 0 <= i < |answers| ==> answers[i].question in index && Answers(responses, answers[i])
    requires forall i :: 0 <= i < |answers| ==> marked[i] == Marked(py, index[answers[i].question], answers[i])
    ensures ItemsOf(index, marked) == ItemsAtSubmit(py, index, responses, Ids(answers))
  {
    forall i | 0 <= i < |marked|
      ensures marked[i].question in index && ItemFor(index, marked[i]) == ItemAtSubmit(py, index, responses, answers[i].question)
    {
      MarkedItem(py, index, answers[i], responses);
    }
    ItemsAt(index, marked);
  }

  lemma ItemsByAnswer(py: Python, index: map<Id, Question>, answers: seq<Answer>, responses: map<Id, Response>)
    requires forall i :: 0 <= i < |answers| ==> answers[i].question in index && Answers(responses, answers[i])
    ensures ItemsOf(index, AllMarked(py, index, answers)) == ItemsAtSubmit(py, index, responses, Ids(answers))
  {
    MarkedAt(py, index, answers);
    ItemsByRow(py, index, answers, AllMarked(py, index, answers), responses);
  }

  /** The saved responses by question. */
  function Responses(answers: seq<Answer>): map<Id, Response> {
    map id | id in Ids(answers) :: answers[Position(answers, id).value].response
  }

  lemma {:induction false} QuestionIdsOnce(questions: seq<Question>)
    requires QuestionsDiffer(questions)
    ensures NoDup(QuestionIds(questions)) && |QuestionIds(questions)| == |questions|
    ensures forall id :: id in QuestionIds(questions) <==> exists i :: 0 <= i < |questions| && questions[i].id == id
    ensures forall i :: 0 <= i < |questions| ==> QuestionIds(questions)[i] == questions[i].id
  {
    if questions != [] {
      QuestionIdsOnce(questions[..|questions| - 1]);
    }
  }

  lemma {:induction false} IndexFinds(questions: seq<Question>, i: nat)
    requires QuestionsDiffer(questions) && i < |questions|
    ensures questions[i].id in Index(questions) && Index(questions)[questions[i].id] == questions[i]
  {
    var n := |questions| - 1;
    if i < n {
      IndexFinds(questions[..n], i);
    }
  }

  lemma {:induction false} IndexKeys(questions: seq<Question>, id: Id)
    ensures id in Index(questions) <==> id in QuestionIds(questions)
  {
    if questions != [] {
      IndexKeys(questions[..|questions| - 1], id);
    }
  }

  lemma PositionIsUnique(answers: seq<Answer>, i: nat)
    requires AllDifferent(answers) && i < |answers|
    ensures Position(answers, answers[i].question) == Some(i)
  {
    var ids := Ids(answers);
    var k := Position(answers, ids[i]);
    assert ids[i] in ids;
    assert k.Some?;
    assert ids[i] == ids[k.value];
  }

  /** The rows submit grades: the saved responses, and empty ones for the rest. */
  lemma GradedResponses(questions: seq<Question>, s: Sheet, i: nat)
    requires QuestionsDiffer(questions) && Inv(Index(questions), s) && i < |s.answers + Missing(s.answers, questions)|
    ensures var a := (s.answers + Missing(s.answers, questions))[i];
            && a.question in Index(questions)
            && Answers(Responses(s.answers), a)
  {
    var missing := Missing(s.answers, questions);
    if i < |s.answers| {
      assert AnswerSound(Index(questions), s.status, s.answers[i]);
      PositionIsUnique(s.answers, i);
      assert Ids(s.answers)[i] == s.answers[i].question;
    } else {
      MissingCompletes(s.answers, questions);
      assert missing[i - |s.answers|] in missing;
    }
  }

  /** A successful submit stores the quiz's own score for the saved responses: in whatever order rows were saved, and with
      unanswered questions graded as empty responses. */
  lemma SubmitScoreIsQuizScore(py: Python, questions: seq<Question>, s: Sheet, threshold: real, slot: bool)
    requires QuestionsDiffer(questions) && Inv(Index(questions), s) && Submit(py, questions, s, threshold, slot).Ok?
    ensures var agg := Scores.AggregateOf(QuizVersions.Items(py, questions, Responses(s.answers)), threshold);
            var done := Submit(py, questions, s, threshold, slot).value;
            done.score == Some(agg.score) && done.passed == Some(agg.passed)
  {
    var marked := AllMarked(py, Index(questions), s.answers + Missing(s.answers, questions));
    GradedItems(py, questions, s);
    Scores.OrderIsIrrelevant(ItemsOf(Index(questions), marked), QuizVersions.Items(py, questions, Responses(s.answers)), threshold);
    CompletedScore(py, questions, s, threshold, marked);
  }

  lemma CompletedScore(py: Python, questions: seq<Question>, s: Sheet, threshold: real, marked: seq<Answer>)
    requires marked == AllMarked(py, Index(questions), s.answers + Missing(s.answers, questions))
    ensures var agg := Scores.AggregateOf(ItemsOf(Index(questions), marked), threshold);
            var done := Completed(py, questions, s, threshold);
            done.score == Some(agg.score) && done.passed == Some(agg.passed) && done.answers == marked
  {
  }

  lemma GradedItems(py: Python, questions: seq<Question>, s: Sheet)
    requires QuestionsDiffer(questions) && Inv(Index(questions), s)
    ensures var all := s.answers + Missing(s.answers, questions);
            multiset(ItemsOf(Index(questions), AllMarked(py, Index(questions), all)))
            == multiset(QuizVersions.Items(py, questions, Responses(s.answers)))
  {
    var all := s.answers + Missing(s.answers, questions);
    AnswerItems(py, questions, s);
    QuestionItems(py, questions, Responses(s.answers));
    GradedIds(questions, s);
    SameItems(py, Index(questions), Responses(s.answers), Ids(all), QuestionIds(questions));
  }

  lemma AnswerItems(py: Python, questions: seq<Question>, s: Sheet)
    requires QuestionsDiffer(questions) && Inv(Index(questions), s)
    ensures var all := s.answers + Missing(s.answers, questions);
            ItemsOf(Index(questions), AllMarked(py, Index(questions), all))
            == ItemsAtSubmit(py, Index(questions), Responses(s.answers), Ids(all))
  {
    var index, responses := Index(questions), Responses(s.answers);
    var all := s.answers + Missing(s.answers, questions);
    forall i | 0 <= i < |all|
      ensures all[i].question in index && Answers(responses, all[i])
    {
      GradedResponses(questions, s, i);
    }
    ItemsByAnswer(py, index, all, responses);
  }

  lemma QuestionItems(py: Python, questions: seq<Question>, responses: map<Id, Response>)
    requires QuestionsDiffer(questions)
    ensures QuizVersions.Items(py, questions, responses)
            == ItemsAtSubmit(py, Index(questions), responses, QuestionIds(questions))
  {
    forall i | 0 <= i < |questions| ensures questions[i].id in Index(questions) && Index(questions)[questions[i].id] == questions[i] {
      IndexFinds(questions, i);
    }
    ItemsByQuestion(py, Index(questions), questions, responses);
  }

  lemma GradedIds(questions: seq<Question>, s: Sheet)
    requires QuestionsDiffer(questions) && Inv(Index(questions), s)
    ensures multiset(Ids(s.answers + Missing(s.answers, questions))) == multiset(QuestionIds(questions))
  {
    var all := s.answers + Missing(s.answers, questions);
    forall i | 0 <= i < |all| ensures all[i].question in Index(questions) {
      GradedResponses(questions, s, i);
    }
    SubmitAnswersAll(questions, s);
    SubmitIds(questions, all);
    QuestionIdsOnce(questions);
    SameMembersOnce(Ids(all), QuestionIds(questions));
  }

  lemma SubmitIds(questions: seq<Question>, all: seq<Answer>)
    requires QuestionsDiffer(questions) && AllDifferent(all) && forall q :: q in questions ==> q.id in Ids(all)
    requires forall i :: 0 <= i < |all| ==> all[i].question in Index(questions)
    ensures NoDup(Ids(all)) && forall id :: id in Ids(all) <==> id in QuestionIds(questions)
  {
    QuestionIdsOnce(questions);
    forall id | id in QuestionIds(questions) ensures id in Ids(all) {
      var i :| 0 <= i < |questions| && questions[i].id == id;
      assert questions[i] in questions;
    }
    forall id | id in Ids(all) ensures id in QuestionIds(questions) {
      var i :| 0 <= i < |Ids(all)| && Ids(all)[i] == id;
      IndexKeys(questions, all[i].question);
    }
  }

  // ----- from start to submit -----

  lemma {:induction false} ResolvedIds(t: QuizVersions.Table, pins: seq<QuizVersions.Pointer>)
    requires QuizVersions.Resolve(t, pins).Some?
    ensures var questions := QuizVersions.Resolve(t, pins).value;
            |questions| == |pins| && forall i :: 0 <= i < |pins| ==> questions[i].id == pins[i].id
  {
    if pins != [] {
      ResolvedIds(t, pins[..|pins| - 1]);
    }
  }

  /** A snapshot names each question once. */
  lemma PinnedDiffer(t: QuizVersions.Table, quiz: nat, pins: seq<QuizVersions.Pointer>)
    requires QuizVersions.Inv(t) && QuizVersions.IsSnapshot(t, quiz, pins) && QuizVersions.Resolve(t, pins).Some?
    ensures QuestionsDiffer(QuizVersions.Resolve(t, pins).value)
  {
    var questions := QuizVersions.Resolve(t, pins).value;
    ResolvedIds(t, pins);
    forall i, j | 0 <= i < j < |questions| ensures questions[i].id != questions[j].id {
      assert pins[i] in pins && QuizVersions.Current(t, (pins[i].id, pins[i].version));
      QuizVersions.SnapshotPinsNewest(t, [], quiz, pins, i, j, (pins[i].id, pins[i].version));
    }
  }

  /** A student's result depends on the quiz as it was at the start and on the saved responses alone: the submit, which
      resolves the pins after whatever the teacher did meanwhile, stores the score the quiz of the start gives those responses. */
  lemma ResultIsFixedAtStart(t: QuizVersions.Table, quiz: nat, pins: seq<QuizVersions.Pointer>, edits: seq<QuizVersions.Write>,
                             py: Python, s: Sheet, threshold: real, slot: bool)
    requires QuizVersions.Inv(t) && QuizVersions.IsSnapshot(t, quiz, pins)
    ensures QuizVersions.Resolve(t, pins).Some? && QuizVersions.Resolve(QuizVersions.Play(t, edits), pins).Some?
    ensures var questions := QuizVersions.Resolve(QuizVersions.Play(t, edits), pins).value;
            && QuestionsDiffer(questions)
            && (Inv(Index(questions), s) && Submit(py, questions, s, threshold, slot).Ok? ==>
                  Submit(py, questions, s, threshold, slot).value.score
                  == Some(Scores.ScoreOf(QuizVersions.Items(py, QuizVersions.Resolve(t, pins).value, Responses(s.answers)))))
  {
    assert forall i :: 0 <= i < |pins| ==> pins[i] in pins;
    QuizVersions.SnapshotNeverMoves(t, edits, pins);
    var questions := QuizVersions.Resolve(t, pins).value;
    PinnedDiffer(t, quiz, pins);
    if Inv(Index(questions), s) && Submit(py, questions, s, threshold, slot).Ok? {
      SubmitScoreIsQuizScore(py, questions, s, threshold, slot);
    }
  }
}
