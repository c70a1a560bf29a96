/** Versioned quiz questions (models/quiz.py, services/quiz_service.py) and attempts pinned to them. The steps are the single
    writes that edits commit; each may act on a row that was read earlier and has changed since. */
module QuizVersions {
  import opened Common
  import opened Grading
  import Scores

  type Id = nat
  type Pk = (Id, nat)

  datatype Row = Row(quiz: nat, kind: Kind, payload: Payload, weight: real, order: int, superseded: bool, createdAt: int)

  datatype Table = Table(rows: map<Pk, Row>, nextId: Id)

  datatype Write =
    | Insert(quiz: nat, kind: Kind, payload: Payload, weight: real, order: int, at: int)
    | Supersede(read: Pk, newPayload: Option<Payload>, newWeight: Option<real>, newOrder: int, stamp: int)
    | Stamp(gone: Pk)
    | SetOrder(moved: Pk, position: int)

  /** Insert with a fresh uuid; the successor of a row, refused when (id, version + 1) exists; a soft delete; a move. */
  function After(t: Table, w: Write): Table {
    match w
    case Insert(quiz, kind, payload, weight, order, at) =>
      Table(t.rows[(t.nextId, 1) := Row(quiz, kind, payload, weight, order, false, at)], t.nextId + 1)
    case Supersede(read, newPayload, newWeight, newOrder, stamp) =>
      if read in t.rows && (read.0, read.1 + 1) !in t.rows then
        var row := t.rows[read];
        t.(rows := t.rows[read := row.(superseded := true)][(read.0, read.1 + 1) :=
             Row(row.quiz, row.kind, if newPayload.Some? then newPayload.value else row.payload,
                 if newWeight.Some? then newWeight.value else row.weight, newOrder, false, stamp)])
      else t
    case Stamp(gone) => if gone in t.rows then t.(rows := t.rows[gone := t.rows[gone].(superseded := true)]) else t
    case SetOrder(moved, position) => if moved in t.rows then t.(rows := t.rows[moved := t.rows[moved].(order := position)]) else t
  }

  function Play(t: Table, writes: seq<Write>): Table {
    if writes == [] then t else After(Play(t, writes[..|writes| - 1]), writes[|writes| - 1])
  }

  predicate Current(t: Table, pk: Pk) {
    pk in t.rows && !t.rows[pk].superseded
  }

  ghost predicate Gapless(t: Table) {
    forall pk: Pk, v: nat :: pk in t.rows && 1 <= v <= pk.1 ==> (pk.0, v) in t.rows
  }

  /** Versions of one id share quiz and type, and all but the newest are superseded. */
  ghost predicate Agree(t: Table, a: Pk, b: Pk)
    requires a in t.rows && b in t.rows
  {
    t.rows[a].quiz == t.rows[b].quiz && t.rows[a].kind == t.rows[b].kind && (a.1 < b.1 ==> t.rows[a].superseded)
  }

  ghost predicate Inv(t: Table) {
    && (forall pk :: pk in t.rows ==> pk.0 < t.nextId && pk.1 >= 1)
    && Gapless(t)
    && (forall a, b :: a in t.rows && b in t.rows && a.0 == b.0 ==> Agree(t, a, b))
  }

  lemma NoneIsNewer(t: Table, read: Pk, pk: Pk)
    requires Inv(t) && (read.0, read.1 + 1) !in t.rows && pk in t.rows && pk.0 == read.0
    ensures pk.1 <= read.1
  {
  }

  lemma SupersedeKeepsGapless(t: Table, w: Write)
    requires Inv(t) && w.Supersede?
    ensures Gapless(After(t, w))
  {
    var u := After(t, w);
    forall pk: Pk, v: nat | pk in u.rows && 1 <= v <= pk.1 ensures (pk.0, v) in u.rows {
      if pk !in t.rows {
        assert v <= w.read.1 ==> (w.read.0, v) in t.rows;
      }
    }
  }

  lemma SupersedeKeepsInv(t: Table, w: Write)
    requires Inv(t) && w.Supersede?
    ensures Inv(After(t, w))
  {
    SupersedeKeepsGapless(t, w);
    var u := After(t, w);
    forall a, b | a in u.rows && b in u.rows && a.0 == b.0 ensures Agree(u, a, b) {
      if u != t {
        if a in t.rows && b in t.rows {
          assert Agree(t, a, b);
        } else if a in t.rows {
          NoneIsNewer(t, w.read, a);
          assert Agree(t, a, w.read) && Agree(t, w.read, a);
        } else if b in t.rows {
          NoneIsNewer(t, w.read, b);
          assert Agree(t, b, w.read);
        }
      } else {
        assert Agree(t, a, b);
      }
    }
  }

  lemma InPlaceKeepsInv(t: Table, u: Table)
    requires Inv(t) && u.nextId == t.nextId && u.rows.Keys == t.rows.Keys
    requires forall pk :: pk in t.rows ==> SameContent(t.rows[pk], u.rows[pk])
    ensures Inv(u)
  {
    forall a, b | a in u.rows && b in u.rows && a.0 == b.0 ensures Agree(u, a, b) {
      assert Agree(t, a, b);
    }
  }

  lemma InsertKeepsInv(t: Table, w: Write)
    requires Inv(t) && w.Insert?
    ensures Inv(After(t, w))
  {
    var u := After(t, w);
    forall a, b | a in u.rows && b in u.rows && a.0 == b.0 ensures Agree(u, a, b) {
      if a in t.rows && b in t.rows {
        assert Agree(t, a, b);
      }
    }
  }

  lemma WriteKeepsInv(t: Table, w: Write)
    requires Inv(t)
    ensures Inv(After(t, w))
  {
    match w
    case Insert(_, _, _, _, _, _) => InsertKeepsInv(t, w);
    case Supersede(_, _, _, _, _) => SupersedeKeepsInv(t, w);
    case _ => InPlaceKeepsInv(t, After(t, w));
  }

  lemma {:induction false} InvInEveryRun(t: Table, writes: seq<Write>)
    requires Inv(t)
    ensures Inv(Play(t, writes))
  {
    if writes != [] {
      InvInEveryRun(t, writes[..|writes| - 1]);
      WriteKeepsInv(Play(t, writes[..|writes| - 1]), writes[|writes| - 1]);
    }
  }

  lemma OneCurrent(t: Table, pk: Pk, other: Pk)
    requires Inv(t) && Current(t, pk) && other in t.rows && other.0 == pk.0
    ensures other.1 <= pk.1 && (Current(t, other) ==> other == pk)
  {
    assert Agree(t, pk, other) && Agree(t, other, pk);
  }

  /** After any writes, a question id has at most one current row, and it carries the id's highest version. */
  lemma OneCurrentVersion(t: Table, writes: seq<Write>, pk: Pk, other: Pk)
    requires Inv(t) && Current(Play(t, writes), pk) && other in Play(t, writes).rows && other.0 == pk.0
    ensures other.1 <= pk.1
    ensures Current(Play(t, writes), other) ==> other == pk
  {
    InvInEveryRun(t, writes);
    OneCurrent(Play(t, writes), pk, other);
  }

  /** type, payload, weight and quiz of a row never change, and no row goes away. */
  ghost predicate SameContent(row: Row, later: Row) {
    later == row.(order := later.order, superseded := later.superseded) && (row.superseded ==> later.superseded)
  }

  lemma {:induction false} RowsAreImmutable(t: Table, writes: seq<Write>, pk: Pk)
    requires Inv(t) && pk in t.rows
    ensures pk in Play(t, writes).rows && SameContent(t.rows[pk], Play(t, writes).rows[pk])
  {
    if writes != [] {
      RowsAreImmutable(t, writes[..|writes| - 1], pk);
      InvInEveryRun(t, writes[..|writes| - 1]);
    }
  }

  // ----- what each write does, row by row -----

  /** The row an edit writes, or an insert. */
  ghost predicate Adds(t: Table, w: Write, pk: Pk) {
    match w
    case Insert(_, _, _, _, _, _) => pk == (t.nextId, 1)
    case Supersede(read, _, _, _, _) => read in t.rows && pk == (read.0, read.1 + 1) && pk !in t.rows
    case _ => false
  }

  /** A new row holds what the insert or the edit says, and what an edit leaves out it takes from the row it read. */
  lemma RowAdded(t: Table, w: Write, pk: Pk)
    ensures pk in After(t, w).rows <==> pk in t.rows || Adds(t, w, pk)
    ensures Adds(t, w, pk) ==>
              After(t, w).rows[pk] == match w
                                      case Insert(quiz, kind, payload, weight, order, at) => Row(quiz, kind, payload, weight, order, false, at)
                                      case Supersede(read, newPayload, newWeight, newOrder, stamp) =>
                                        var row := t.rows[read];
                                        Row(row.quiz, row.kind, if newPayload == None then row.payload else newPayload.value,
                                            if newWeight == None then row.weight else newWeight.value, newOrder, false, stamp)
                                      case _ => After(t, w).rows[pk]
    ensures After(t, w).nextId == t.nextId + if w.Insert? then 1 else 0
  {
  }

  /** An old row keeps its contents. It is superseded by a successful edit that read it or a stamp, moved by a move, and else
      left as it was. */
  lemma RowSteps(t: Table, w: Write, pk: Pk)
    requires Inv(t) && pk in t.rows
    ensures pk in After(t, w).rows
    ensures After(t, w).rows[pk] == t.rows[pk].(superseded := t.rows[pk].superseded || w == Stamp(pk)
                                                  || (w.Supersede? && w.read == pk && (pk.0, pk.1 + 1) !in t.rows),
                                                order := if w.SetOrder? && w.moved == pk then w.position else t.rows[pk].order)
  {
  }

  // ----- snapshots -----

  datatype Pointer = Pointer(id: Id, version: nat, order: int)

  datatype Resolved = Resolved(id: Id, version: nat, kind: Kind, payload: Payload, weight: real, order: int)

  /** _snapshot_questions: the current rows of the quiz, sorted by (order, created_at). */
  ghost predicate IsSnapshot(t: Table, quiz: nat, pins: seq<Pointer>) {
    && (forall i, j :: 0 <= i < j < |pins| ==> (pins[i].id, pins[i].version) != (pins[j].id, pins[j].version))
    && (forall pin :: pin in pins ==> Current(t, (pin.id, pin.version)) && PinnedRow(t, pin).quiz == quiz && pin.order == PinnedRow(t, pin).order)
    && (forall pk :: Current(t, pk) && t.rows[pk].quiz == quiz ==> Pointer(pk.0, pk.1, t.rows[pk].order) in pins)
    && (forall i, j :: 0 <= i < j < |pins| ==>
          pins[i].order < pins[j].order
          || (pins[i].order == pins[j].order && PinnedRow(t, pins[i]).createdAt <= PinnedRow(t, pins[j]).createdAt))
  }

  ghost function PinnedRow(t: Table, pin: Pointer): Row {
    if (pin.id, pin.version) in t.rows then t.rows[(pin.id, pin.version)] else Row(0, SingleKind, Short, 0.0, 0, true, 0)
  }

  /** None is BrokenSnapshotError. */
  function Resolve(t: Table, pins: seq<Pointer>): Option<seq<Resolved>> {
    if pins == [] then Some([])
    else
      var front, pin := Resolve(t, pins[..|pins| - 1]), pins[|pins| - 1];
      if front.None? || (pin.id, pin.version) !in t.rows then None
      else
        var row := t.rows[(pin.id, pin.version)];
        Some(front.value + [Resolved(pin.id, pin.version, row.kind, row.payload, row.weight, pin.order)])
  }

  ghost predicate AllPresent(t: Table, pins: seq<Pointer>) {
    forall i :: 0 <= i < |pins| ==> (pins[i].id, pins[i].version) in t.rows
  }

  /** A snapshot resolves exactly if the row of every pointer is there; each question then has id, version and order of its
      pointer, and type, payload and weight of the row. */
  lemma {:induction false} ResolveReadsRows(t: Table, pins: seq<Pointer>)
    ensures Resolve(t, pins).Some? <==> forall i :: 0 <= i < |pins| ==> (pins[i].id, pins[i].version) in t.rows
    ensures Resolve(t, pins).Some? ==> IsResolved(t, pins, Resolve(t, pins).value)
  {
    if pins != [] {
      var front, pin := pins[..|pins| - 1], pins[|pins| - 1];
      ResolveReadsRows(t, front);
      assert forall i :: 0 <= i < |front| ==> front[i] == pins[i];
      assert AllPresent(t, pins) <==> AllPresent(t, front) && (pin.id, pin.version) in t.rows;
    }
  }

  ghost predicate IsResolved(t: Table, pins: seq<Pointer>, questions: seq<Resolved>) {
    && |questions| == |pins|
    && forall i :: 0 <= i < |pins| ==>
         var pk := (pins[i].id, pins[i].version);
         && pk in t.rows
         && questions[i].id == pins[i].id && questions[i].version == pins[i].version && questions[i].order == pins[i].order
         && questions[i].kind == t.rows[pk].kind && questions[i].payload == t.rows[pk].payload && questions[i].weight == t.rows[pk].weight
  }

  /** However many writes happen after the snapshot, it resolves, and to the same types, payloads, weights and orders. */
  lemma {:induction false} SnapshotNeverMoves(t: Table, writes: seq<Write>, pins: seq<Pointer>)
    requires Inv(t) && AllPresent(t, pins)
    ensures Resolve(Play(t, writes), pins) == Resolve(t, pins) && Resolve(t, pins).Some?
  {
    if pins != [] {
      var pin := pins[|pins| - 1];
      SnapshotNeverMoves(t, writes, pins[..|pins| - 1]);
      RowsAreImmutable(t, writes, (pin.id, pin.version));
    }
  }

  /** submit_attempt's closed grading of the resolved questions against the saved responses. */
  function Items(py: Python, questions: seq<Resolved>, responses: map<Id, Response>): seq<Scores.Item> {
    if questions == [] then []
    else Items(py, questions[..|questions| - 1], responses) + [ItemOf(py, questions[|questions| - 1], responses)]
  }

  function ItemOf(py: Python, q: Resolved, responses: map<Id, Response>): Scores.Item {
    var grade := GradeOf(py, q.kind, q.payload, if q.id in responses then responses[q.id] else map[]);
    Scores.Item(q.weight, if IsOpen(q.kind) then 0.0 else grade.awarded, grade.max)
  }

  lemma ItemInBounds(py: Python, q: Resolved, responses: map<Id, Response>)
    ensures var item := ItemOf(py, q, responses); item.weight == q.weight && 0.0 <= item.awarded <= item.max
  {
    ScoresAreUnit(py, q.kind, q.payload, if q.id in responses then responses[q.id] else map[]);
  }

  lemma {:induction false} ItemsInBounds(py: Python, questions: seq<Resolved>, responses: map<Id, Response>)
    requires forall q :: q in questions ==> q.weight >= 0.0
    ensures Scores.NonNegativeWeights(Items(py, questions, responses)) && Scores.InBounds(Items(py, questions, responses))
  {
    if questions != [] {
      var front, q := questions[..|questions| - 1], questions[|questions| - 1];
      assert q in questions && forall p :: p in front ==> p in questions;
      ItemsInBounds(py, front, responses);
      ItemInBounds(py, q, responses);
    }
  }

  /** So a student's score is the one the quiz had when the attempt started: any writes in between change nothing, and with
      non-negative weights it is a true average in [0, 1]. */
  lemma EditsNeverChangeScore(t: Table, quiz: nat, pins: seq<Pointer>, writes: seq<Write>, py: Python,
                              responses: map<Id, Response>, threshold: real)
    requires Inv(t) && IsSnapshot(t, quiz, pins)
    ensures Resolve(t, pins).Some? && Resolve(Play(t, writes), pins).Some?
    ensures var before, after := Resolve(t, pins).value, Resolve(Play(t, writes), pins).value;
            && Scores.AggregateOf(Items(py, after, responses), threshold) == Scores.AggregateOf(Items(py, before, responses), threshold)
            && ((forall q :: q in before ==> q.weight >= 0.0) ==> 0.0 <= Scores.ScoreOf(Items(py, after, responses)) <= 1.0)
  {
    assert forall i :: 0 <= i < |pins| ==> pins[i] in pins;
    SnapshotNeverMoves(t, writes, pins);
    var before := Resolve(t, pins).value;
    if forall q :: q in before ==> q.weight >= 0.0 {
      ItemsInBounds(py, before, responses);
      Scores.ClampIdle(Items(py, before, responses));
    }
  }

  /** A snapshot names each question once, in its newest version. */
  lemma SnapshotPinsNewest(t: Table, writes: seq<Write>, quiz: nat, pins: seq<Pointer>, i: nat, j: nat, pk: Pk)
    requires Inv(t) && IsSnapshot(Play(t, writes), quiz, pins) && i < |pins| && j < |pins|
    requires pk in Play(t, writes).rows && pk.0 == pins[i].id
    ensures pins[i].id == pins[j].id ==> i == j
    ensures pk.1 <= pins[i].version
  {
    var u := Play(t, writes);
    assert pins[i] in pins && pins[j] in pins;
    OneCurrentVersion(t, writes, (pins[i].id, pins[i].version), pk);
    if pins[i].id == pins[j].id {
      OneCurrentVersion(t, writes, (pins[i].id, pins[i].version), (pins[j].id, pins[j].version));
    }
  }

  /** An edit takes effect exactly when nobody superseded the row it read: then the new version is the one later attempts pin. */
  lemma EditReachesNewAttempts(t: Table, edit: Write, quiz: nat, pins: seq<Pointer>)
    requires Inv(t) && edit.Supersede? && edit.read in t.rows && t.rows[edit.read].quiz == quiz
    requires IsSnapshot(After(t, edit), quiz, pins)
    ensures (edit.read.0, edit.read.1 + 1) !in t.rows ==>
              var pin := Pointer(edit.read.0, edit.read.1 + 1, edit.newOrder);
              var row, made := t.rows[edit.read], PinnedRow(After(t, edit), pin);
              && pin in pins
              && made.payload == (if edit.newPayload.Some? then edit.newPayload.value else row.payload)
              && made.weight == (if edit.newWeight.Some? then edit.newWeight.value else row.weight)
    ensures (edit.read.0, edit.read.1 + 1) in t.rows ==> After(t, edit) == t
  {
    var made := (edit.read.0, edit.read.1 + 1);
    if made !in t.rows {
      assert Current(After(t, edit), made);
      var pin := Pointer(made.0, made.1, edit.newOrder);
      assert pin in pins;
    }
  }

  /** A deleted question can come back: an edit that read its row before the delete commits after it. */
  lemma LateEditRevives(t: Table, pk: Pk, weight: real, stamp: int)
    requires Inv(t) && Current(t, pk)
    ensures var edit := Supersede(pk, None, Some(weight), t.rows[pk].order, stamp);
            && !(exists v: nat :: Current(After(t, Stamp(pk)), (pk.0, v)))
            && Current(After(After(t, Stamp(pk)), edit), (pk.0, pk.1 + 1))
  {
    assert (pk.0, pk.1 + 1) !in t.rows;
    forall v: nat ensures !Current(After(t, Stamp(pk)), (pk.0, v)) {
      if (pk.0, v) in t.rows {
        assert v <= pk.1;
      }
    }
  }
}
