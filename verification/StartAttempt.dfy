/** routers/quiz_student.py, start_attempt: one student's concurrent calls on one quiz. The open-attempt check, the count and
    the insert are separate steps; UNIQUE(quiz, student, number) refuses a number that is taken. */
module StartAttempt {
  import opened Common

  datatype Attempt = Attempt(number: nat, inProgress: bool)

  /** `seen` and `used` are how many attempts existed at the check and at the count. */
  datatype Call = Idle | SawNoneOpen(seen: nat) | Counted(seen: nat, used: nat)

  datatype State = State(attempts: seq<Attempt>, calls: map<nat, Call>)

  datatype Step = Check(p: nat) | Count(p: nat) | Insert(p: nat) | Close(index: nat)

  function CallOf(s: State, p: nat): Call {
    if p in s.calls then s.calls[p] else Idle
  }

  predicate AnyOpen(s: State, from: nat) {
    exists i :: from <= i < |s.attempts| && s.attempts[i].inProgress
  }

  predicate Taken(s: State, number: nat) {
    exists i :: 0 <= i < |s.attempts| && s.attempts[i].number == number
  }

  predicate NoneLeft(limit: Option<nat>, used: nat) {
    limit.Some? && used >= limit.value
  }

  function Put(s: State, p: nat, call: Call): State {
    s.(calls := s.calls[p := call])
  }

  /** A call that finds an open attempt returns it; one that finds none left answers 409; a taken number is an error. */
  function After(limit: Option<nat>, s: State, step: Step): State {
    match step
    case Check(p) => if CallOf(s, p).Idle? && !AnyOpen(s, 0) then Put(s, p, SawNoneOpen(|s.attempts|)) else s
    case Count(p) =>
      var call := CallOf(s, p);
      if !call.SawNoneOpen? then s
      else if NoneLeft(limit, |s.attempts|) then Put(s, p, Idle)
      else Put(s, p, Counted(call.seen, |s.attempts|))
    case Insert(p) =>
      var call := CallOf(s, p);
      if !call.Counted? then s
      else if Taken(s, call.used + 1) then Put(s, p, Idle)
      else Put(s, p, Idle).(attempts := s.attempts + [Attempt(call.used + 1, true)])
    case Close(index) =>
      if index < |s.attempts| then s.(attempts := s.attempts[index := s.attempts[index].(inProgress := false)]) else s
  }

  function Play(limit: Option<nat>, s: State, steps: seq<Step>): State {
    if steps == [] then s else After(limit, Play(limit, s, steps[..|steps| - 1]), steps[|steps| - 1])
  }

  const Empty := State([], map[])

  ghost predicate Numbered(limit: Option<nat>, s: State) {
    && (forall i :: 0 <= i < |s.attempts| ==> s.attempts[i].number == i + 1)
    && (limit.Some? ==> |s.attempts| <= limit.value)
  }

  ghost predicate CallSound(limit: Option<nat>, s: State, call: Call) {
    match call
    case Idle => true
    case SawNoneOpen(seen) => seen <= |s.attempts| && forall i :: 0 <= i < seen ==> !s.attempts[i].inProgress
    case Counted(seen, used) =>
      seen <= used <= |s.attempts| && !NoneLeft(limit, used) && forall i :: 0 <= i < seen ==> !s.attempts[i].inProgress
  }

  ghost predicate Inv(limit: Option<nat>, s: State) {
    Numbered(limit, s) && forall p :: p in s.calls ==> CallSound(limit, s, s.calls[p])
  }

  lemma StepKeepsInv(limit: Option<nat>, s: State, step: Step)
    requires Inv(limit, s)
    ensures Inv(limit, After(limit, s, step))
  {
    var v := After(limit, s, step);
    if step.Insert? && CallOf(s, step.p).Counted? {
      InsertNeedsFreshCount(limit, s, step.p);
    }
    forall p | p in v.calls ensures CallSound(limit, v, v.calls[p]) {
      assert p in s.calls ==> CallSound(limit, s, s.calls[p]);
    }
  }

  /** The unique constraint accepts an insert exactly when no attempt was committed since the count. */
  lemma InsertNeedsFreshCount(limit: Option<nat>, s: State, p: nat)
    requires Inv(limit, s) && CallOf(s, p).Counted?
    ensures Taken(s, CallOf(s, p).used + 1) <==> CallOf(s, p).used < |s.attempts|
  {
    var used := CallOf(s, p).used;
    assert CallSound(limit, s, s.calls[p]);
    if used < |s.attempts| {
      assert s.attempts[used].number == used + 1;
    }
  }

  lemma {:induction false} InvInEveryRun(limit: Option<nat>, s: State, steps: seq<Step>)
    requires Inv(limit, s)
    ensures Inv(limit, Play(limit, s, steps))
  {
    if steps != [] {
      InvInEveryRun(limit, s, steps[..|steps| - 1]);
      StepKeepsInv(limit, Play(limit, s, steps[..|steps| - 1]), steps[|steps| - 1]);
    }
  }

  /** In every interleaving the numbers are 1, 2, …, n in order of commit, and n never exceeds attempts_allowed. */
  lemma NumbersAreContiguous(limit: Option<nat>, steps: seq<Step>)
    ensures var s := Play(limit, Empty, steps);
            && (forall i :: 0 <= i < |s.attempts| ==> s.attempts[i].number == i + 1)
            && (limit.Some? ==> |s.attempts| <= limit.value)
  {
    InvInEveryRun(limit, Empty, steps);
  }

  predicate ClosedIn(steps: seq<Step>, i: nat) {
    exists j :: 0 <= j < |steps| && steps[j] == Close(i)
  }

  lemma ClosedInSnoc(front: seq<Step>, step: Step, i: nat)
    ensures ClosedIn(front + [step], i) <==> ClosedIn(front, i) || step == Close(i)
  {
    assert forall j :: 0 <= j < |front| ==> (front + [step])[j] == front[j];
    assert (front + [step])[|front|] == step;
  }

  /** An attempt stays open until it is closed, and no step but `Count(p)` counts for `p`. */
  lemma {:induction false} OpenSince(limit: Option<nat>, c: State, between: seq<Step>, p: nat, i: nat)
    requires i < |c.attempts| && forall j :: 0 <= j < |between| ==> between[j] != Count(p)
    ensures var s := Play(limit, c, between);
            && |c.attempts| <= |s.attempts|
            && (s.attempts[i].inProgress <==> c.attempts[i].inProgress && !ClosedIn(between, i))
  {
    if between != [] {
      var front, step := between[..|between| - 1], between[|between| - 1];
      assert between == front + [step];
      OpenSince(limit, c, front, p, i);
      ClosedInSnoc(front, step, i);
      StepCloses(limit, Play(limit, c, front), step, i);
    }
  }

  lemma StepCloses(limit: Option<nat>, s: State, step: Step, i: nat)
    requires i < |s.attempts|
    ensures var t := After(limit, s, step);
            |s.attempts| <= |t.attempts| && (t.attempts[i].inProgress <==> s.attempts[i].inProgress && step != Close(i))
  {
  }

  lemma {:induction false} CountStands(limit: Option<nat>, c: State, between: seq<Step>, p: nat)
    requires CallOf(c, p).Counted? && forall j :: 0 <= j < |between| ==> between[j] != Count(p)
    ensures CallOf(Play(limit, c, between), p).Counted? ==> CallOf(Play(limit, c, between), p) == CallOf(c, p)
  {
    if between != [] {
      var front := between[..|between| - 1];
      assert forall j :: 0 <= j < |front| ==> front[j] == between[j];
      CountStands(limit, c, front, p);
    }
  }

  /** The check promises not to start a second attempt beside an open one. For an insert the constraint accepts, in whatever
      interleaving: it opens a second attempt if and only if the open-attempt query, repeated at the count, finds an attempt
      that is not closed before the insert. */
  lemma SecondOpenIff(limit: Option<nat>, before: seq<Step>, p: nat, between: seq<Step>)
    requires CallOf(Play(limit, Empty, before), p).SawNoneOpen? && !NoneLeft(limit, |Play(limit, Empty, before).attempts|)
    requires forall j :: 0 <= j < |between| ==> between[j] != Count(p)
    requires var s := Play(limit, After(limit, Play(limit, Empty, before), Count(p)), between);
             CallOf(s, p).Counted? && !Taken(s, CallOf(s, p).used + 1)
    ensures var count := Play(limit, Empty, before);
            var s := Play(limit, After(limit, count, Count(p)), between);
            && |s.attempts| == |count.attempts|
            && (AnyOpen(s, 0) <==> exists i :: 0 <= i < |count.attempts| && count.attempts[i].inProgress && !ClosedIn(between, i))
  {
    var count := Play(limit, Empty, before);
    var c := After(limit, count, Count(p));
    var s := Play(limit, c, between);
    AcceptedAtCount(limit, before, p, between);
    forall i | 0 <= i < |c.attempts|
      ensures s.attempts[i].inProgress <==> count.attempts[i].inProgress && !ClosedIn(between, i)
    {
      OpenSince(limit, c, between, p, i);
    }
  }

  /** Nothing was inserted between the count and an accepted insert. */
  lemma AcceptedAtCount(limit: Option<nat>, before: seq<Step>, p: nat, between: seq<Step>)
    requires CallOf(Play(limit, Empty, before), p).SawNoneOpen? && !NoneLeft(limit, |Play(limit, Empty, before).attempts|)
    requires forall j :: 0 <= j < |between| ==> between[j] != Count(p)
    requires var s := Play(limit, After(limit, Play(limit, Empty, before), Count(p)), between);
             CallOf(s, p).Counted? && !Taken(s, CallOf(s, p).used + 1)
    ensures |Play(limit, After(limit, Play(limit, Empty, before), Count(p)), between).attempts| == |Play(limit, Empty, before).attempts|
  {
    var c := After(limit, Play(limit, Empty, before), Count(p));
    var s := Play(limit, c, between);
    InvInEveryRun(limit, Empty, before);
    StepKeepsInv(limit, Play(limit, Empty, before), Count(p));
    InvInEveryRun(limit, c, between);
    CountStands(limit, c, between, p);
    InsertNeedsFreshCount(limit, s, p);
    assert CallSound(limit, s, s.calls[p]);
  }

  lemma PlaySnoc(limit: Option<nat>, s: State, steps: seq<Step>, step: Step)
    ensures Play(limit, s, steps + [step]) == After(limit, Play(limit, s, steps), step)
  {
    assert (steps + [step])[..|steps|] == steps;
  }

  /** It does happen: two calls check, the first inserts before the second counts, and both attempts are open. */
  lemma TwoOpenAttempts(limit: Option<nat>)
    requires limit.None? || limit.value >= 2
    ensures exists steps :: Play(limit, Empty, steps).attempts == [Attempt(1, true), Attempt(2, true)]
  {
    var first: seq<Step> := [];
    PlaySnoc(limit, Empty, first, Check(0));
    PlaySnoc(limit, Empty, first + [Check(0)], Check(1));
    PlaySnoc(limit, Empty, first + [Check(0)] + [Check(1)], Count(0));
    PlaySnoc(limit, Empty, first + [Check(0)] + [Check(1)] + [Count(0)], Insert(0));
    FirstInserts(limit);
    var t := first + [Check(0)] + [Check(1)] + [Count(0)] + [Insert(0)];
    PlaySnoc(limit, Empty, t, Count(1));
    PlaySnoc(limit, Empty, t + [Count(1)], Insert(1));
    SecondInserts(limit);
    assert Play(limit, Empty, t + [Count(1)] + [Insert(1)]).attempts == [Attempt(1, true), Attempt(2, true)];
  }

  const HALFWAY := State([Attempt(1, true)], map[0 := Idle, 1 := SawNoneOpen(0)])

  lemma FirstInserts(limit: Option<nat>)
    requires limit.None? || limit.value >= 2
    ensures After(limit, After(limit, After(limit, After(limit, Empty, Check(0)), Check(1)), Count(0)), Insert(0)) == HALFWAY
  {
    var s2 := State([], map[0 := SawNoneOpen(0), 1 := SawNoneOpen(0)]);
    assert After(limit, After(limit, Empty, Check(0)), Check(1)) == s2;
    var s3 := State([], map[0 := Counted(0, 0), 1 := SawNoneOpen(0)]);
    assert After(limit, s2, Count(0)) == s3;
    assert !Taken(s3, 1);
    assert After(limit, s3, Insert(0)) == HALFWAY;
  }

  lemma SecondInserts(limit: Option<nat>)
    requires limit.None? || limit.value >= 2
    ensures After(limit, After(limit, HALFWAY, Count(1)), Insert(1)).attempts == [Attempt(1, true), Attempt(2, true)]
  {
    var s5 := After(limit, HALFWAY, Count(1));
    assert CallOf(s5, 1) == Counted(0, 1);
    assert !Taken(s5, 2);
  }

  /** What each step does to the attempts: an insert with a free number adds an open attempt, a close closes one, and the check
      and the count change none. */
  lemma AttemptSteps(limit: Option<nat>, s: State, step: Step)
    ensures var t := After(limit, s, step);
            match step
            case Insert(p) =>
              t.attempts == if CallOf(s, p).Counted? && !exists i :: 0 <= i < |s.attempts| && s.attempts[i].number == CallOf(s, p).used + 1
                            then s.attempts + [Attempt(CallOf(s, p).used + 1, true)] else s.attempts
            case Close(k) =>
              && |t.attempts| == |s.attempts|
              && forall i :: 0 <= i < |s.attempts| ==>
                   t.attempts[i].number == s.attempts[i].number && t.attempts[i].inProgress == (s.attempts[i].inProgress && i != k)
            case _ => t.attempts == s.attempts
  {
  }

  /** How far a call has come: past the check if no attempt was open, past the count if attempts are left, and back at the start
      after an insert or where none is left. */
  lemma CallSteps(limit: Option<nat>, s: State, step: Step, p: nat)
    ensures CallOf(After(limit, s, step), p) ==
            if step == Check(p) && CallOf(s, p).Idle? && forall i :: 0 <= i < |s.attempts| ==> !s.attempts[i].inProgress
            then SawNoneOpen(|s.attempts|)
            else if step == Count(p) && CallOf(s, p).SawNoneOpen? then
              if limit.Some? && |s.attempts| >= limit.value then Idle else Counted(CallOf(s, p).seen, |s.attempts|)
            else if step == Insert(p) && CallOf(s, p).Counted? then Idle
            else CallOf(s, p)
  {
  }
}
