/** routers/quiz_teacher.py and services/quiz_service.py: the teacher's edits of a quiz. Each method is proved to perform
    writes of QuizVersions; what a SELECT returned is a parameter. */
module QuizEditor {
  import opened Common
  import opened Grading
  import opened QuizVersions
  import Listing

  /** One generated question: its `order` key is optional. */
  datatype Draft = Draft(kind: Kind, payload: Payload, weight: real, order: Option<int>)

  /** `{r.id: r for r in rows}` over the current rows of the quiz: id to version. */
  ghost predicate IsIndex(t: Table, quiz: nat, index: map<Id, nat>) {
    && (forall id :: id in index ==> (id, index[id]) in t.rows && Current(t, (id, index[id])) && t.rows[(id, index[id])].quiz == quiz)
    && (forall pk :: Current(t, pk) && t.rows[pk].quiz == quiz ==> pk.0 in index && index[pk.0] == pk.1)
  }

  ghost function OrdersOf(t: Table, index: map<Id, nat>): map<Id, int> {
    map id | id in index && (id, index[id]) in t.rows :: t.rows[(id, index[id])].order
  }

  /** max(order) over the current rows; None when there are none. */
  ghost predicate IsMaxOrder(t: Table, quiz: nat, max: Option<int>) {
    && (forall pk :: Current(t, pk) && t.rows[pk].quiz == quiz ==> max.Some? && t.rows[pk].order <= max.value)
    && (max.Some? ==> exists pk :: Current(t, pk) && t.rows[pk].quiz == quiz && t.rows[pk].order == max.value)
  }

  function Moves(index: map<Id, nat>, order: seq<Id>): seq<Write>
    requires Elements(order) <= index.Keys
  {
    if order == [] then []
    else
      var last := order[|order| - 1];
      assert last in Elements(order) && Elements(order[..|order| - 1]) <= Elements(order);
      Moves(index, order[..|order| - 1]) + [SetOrder((last, index[last]), |order|)]
  }

  function Stamps(gone: seq<Pk>): seq<Write> {
    if gone == [] then [] else Stamps(gone[..|gone| - 1]) + [Stamp(gone[|gone| - 1])]
  }

  function Inserts(quiz: nat, drafts: seq<Draft>, at: int): seq<Write> {
    if drafts == [] then []
    else
      var d := drafts[|drafts| - 1];
      Inserts(quiz, drafts[..|drafts| - 1], at)
      + [Insert(quiz, d.kind, d.payload, d.weight, if d.order.Some? then d.order.value else |drafts| - 1, at)]
  }

  lemma PlaySnoc(t: Table, writes: seq<Write>, w: Write)
    ensures Play(t, writes + [w]) == After(Play(t, writes), w)
  {
    assert (writes + [w])[..|writes + [w]| - 1] == writes;
  }

  ghost predicate IndexIn(t: Table, index: map<Id, nat>) {
    forall id :: id in index ==> (id, index[id]) in t.rows
  }

  lemma MoveRenumbers(t: Table, index: map<Id, nat>, id: Id, position: int)
    requires id in index && IndexIn(t, index)
    ensures var u := After(t, SetOrder((id, index[id]), position));
            IndexIn(u, index) && OrdersOf(u, index) == OrdersOf(t, index)[id := position]
  {
  }

  lemma MovesSnoc(index: map<Id, nat>, order: seq<Id>, id: Id)
    requires Elements(order) <= index.Keys && id in index
    ensures Elements(order + [id]) <= index.Keys
    ensures Moves(index, order + [id]) == Moves(index, order) + [SetOrder((id, index[id]), |order| + 1)]
  {
    assert (order + [id])[..|order|] == order;
  }

  lemma {:induction false} MovesRenumber(t: Table, index: map<Id, nat>, order: seq<Id>)
    requires Elements(order) <= index.Keys && IndexIn(t, index)
    ensures IndexIn(Play(t, Moves(index, order)), index)
    ensures OrdersOf(Play(t, Moves(index, order)), index) == Listing.Numbered(OrdersOf(t, index), order)
  {
    if order != [] {
      var front, last := order[..|order| - 1], order[|order| - 1];
      assert last in Elements(order) && Elements(front) <= Elements(order);
      MovesRenumber(t, index, front);
      assert order == front + [last];
      MovesSnoc(index, front, last);
      PlaySnoc(t, Moves(index, front), SetOrder((last, index[last]), |order|));
      MoveRenumbers(Play(t, Moves(index, front)), index, last, |order|);
    }
  }

  lemma StampsSnoc(front: seq<Pk>, last: Pk)
    ensures Stamps(front + [last]) == Stamps(front) + [Stamp(last)]
  {
    assert (front + [last])[..|front|] == front;
  }

  /** Stamping rows changes nothing but the stamp, and stamps them all. */
  lemma {:induction false} StampsStamp(t: Table, gone: seq<Pk>)
    requires forall pk :: pk in gone ==> pk in t.rows
    ensures Stamped(t, Play(t, Stamps(gone)), gone)
  {
    if gone != [] {
      var front, last := gone[..|gone| - 1], gone[|gone| - 1];
      assert gone == front + [last] && last in gone;
      StampsStamp(t, front);
      StampsSnoc(front, last);
      PlaySnoc(t, Stamps(front), Stamp(last));
      StampedOneMore(t, Play(t, Stamps(front)), front, last);
    }
  }

  ghost predicate Stamped(t: Table, u: Table, gone: seq<Pk>) {
    && u.nextId == t.nextId && u.rows.Keys == t.rows.Keys
    && forall pk :: pk in t.rows ==> u.rows[pk] == t.rows[pk].(superseded := t.rows[pk].superseded || pk in gone)
  }

  lemma StampedOneMore(t: Table, u: Table, front: seq<Pk>, last: Pk)
    requires Stamped(t, u, front) && last in t.rows
    ensures Stamped(t, After(u, Stamp(last)), front + [last])
  {
    assert forall pk :: pk in front + [last] <==> pk in front || pk == last;
  }

  lemma InsertsSnoc(quiz: nat, front: seq<Draft>, d: Draft, at: int)
    ensures Inserts(quiz, front + [d], at)
         == Inserts(quiz, front, at) + [Insert(quiz, d.kind, d.payload, d.weight, if d.order.Some? then d.order.value else |front|, at)]
  {
    assert (front + [d])[..|front|] == front;
  }

  /** `n` current rows of the quiz more, in version 1 under the next ids; every old row as it was. */
  ghost predicate Extended(t: Table, u: Table, quiz: nat, n: nat) {
    && u.nextId == t.nextId + n
    && (forall pk: Pk :: pk in u.rows <==> pk in t.rows || (pk.1 == 1 && t.nextId <= pk.0 < u.nextId))
    && (forall pk :: pk in t.rows ==> u.rows[pk] == t.rows[pk])
    && (forall pk :: pk in u.rows && pk !in t.rows ==> u.rows[pk].quiz == quiz && !u.rows[pk].superseded)
  }

  lemma ExtendedOneMore(t: Table, u: Table, quiz: nat, n: nat, w: Write)
    requires Extended(t, u, quiz, n) && w.Insert? && w.quiz == quiz && forall pk :: pk in t.rows ==> pk.0 < t.nextId
    ensures Extended(t, After(u, w), quiz, n + 1)
  {
  }

  /** Inserting leaves every old row alone and adds current rows of the quiz in version 1 under the next ids. */
  lemma {:induction false} InsertsAdd(t: Table, quiz: nat, drafts: seq<Draft>, at: int)
    requires forall pk :: pk in t.rows ==> pk.0 < t.nextId
    ensures Extended(t, Play(t, Inserts(quiz, drafts, at)), quiz, |drafts|)
  {
    if drafts != [] {
      var front, d := drafts[..|drafts| - 1], drafts[|drafts| - 1];
      var w := Insert(quiz, d.kind, d.payload, d.weight, if d.order.Some? then d.order.value else |front|, at);
      InsertsAdd(t, quiz, front, at);
      assert drafts == front + [d];
      InsertsSnoc(quiz, front, d, at);
      PlaySnoc(t, Inserts(quiz, front, at), w);
      ExtendedOneMore(t, Play(t, Inserts(quiz, front, at)), quiz, |front|, w);
    }
  }

  /** The k-th draft of a batch becomes the k-th new row: its own type, payload and weight, its order or else its place. */
  lemma {:induction false} InsertsHold(t: Table, quiz: nat, drafts: seq<Draft>, at: int, k: nat)
    requires (forall pk :: pk in t.rows ==> pk.0 < t.nextId) && k < |drafts|
    ensures var u, d := Play(t, Inserts(quiz, drafts, at)), drafts[k];
            && (t.nextId + k, 1) in u.rows
            && u.rows[(t.nextId + k, 1)] == Row(quiz, d.kind, d.payload, d.weight, if d.order.Some? then d.order.value else k, false, at)
  {
    var front, d := drafts[..|drafts| - 1], drafts[|drafts| - 1];
    var w := Insert(quiz, d.kind, d.payload, d.weight, if d.order.Some? then d.order.value else |front|, at);
    InsertsAdd(t, quiz, front, at);
    assert drafts == front + [d];
    InsertsSnoc(quiz, front, d, at);
    PlaySnoc(t, Inserts(quiz, front, at), w);
    if k < |front| {
      InsertsHold(t, quiz, front, at, k);
    }
  }

  /** Replacing leaves the quiz showing exactly the new batch. */
  lemma ReplaceShowsBatch(t: Table, quiz: nat, gone: seq<Pk>, drafts: seq<Draft>, at: int, pk: Pk)
    requires Inv(t) && forall p :: p in gone <==> Current(t, p) && t.rows[p].quiz == quiz
    ensures var u := Play(Play(t, Stamps(gone)), Inserts(quiz, drafts, at));
            Current(u, pk) && u.rows[pk].quiz == quiz <==> pk.1 == 1 && t.nextId <= pk.0 < t.nextId + |drafts|
  {
    var stamped := Play(t, Stamps(gone));
    StampsStamp(t, gone);
    InsertsAdd(stamped, quiz, drafts, at);
    ShowsBatch(t, stamped, Play(stamped, Inserts(quiz, drafts, at)), quiz, gone, |drafts|, pk);
  }

  lemma ShowsBatch(t: Table, stamped: Table, u: Table, quiz: nat, gone: seq<Pk>, n: nat, pk: Pk)
    requires (forall p: Pk :: p in t.rows ==> p.0 < t.nextId) && forall p :: p in gone <==> Current(t, p) && t.rows[p].quiz == quiz
    requires stamped.nextId == t.nextId && stamped.rows.Keys == t.rows.Keys
    requires pk in t.rows ==> stamped.rows[pk] == t.rows[pk].(superseded := t.rows[pk].superseded || pk in gone)
    requires u.nextId == t.nextId + n && (pk in u.rows <==> pk in t.rows || (pk.1 == 1 && t.nextId <= pk.0 < u.nextId))
    requires if pk in t.rows then u.rows[pk] == stamped.rows[pk] else pk in u.rows ==> u.rows[pk].quiz == quiz && !u.rows[pk].superseded
    ensures Current(u, pk) && u.rows[pk].quiz == quiz <==> pk.1 == 1 && t.nextId <= pk.0 < t.nextId + n
  {
  }

  class Editor {
    var rows: map<Pk, Row>
    var nextId: Id

    constructor ()
      ensures State() == Table(map[], 0)
    {
      rows, nextId := map[], 0;
    }

    ghost function State(): Table
      reads this
    {
      Table(rows, nextId)
    }

    /** create_question: without a positive order the question goes right after every current one. */
    method CreateQuestion(quiz: nat, draft: Draft, at: int, maxOrder: Option<int>) returns (order: int)
      requires IsMaxOrder(State(), quiz, maxOrder) && draft.order.Some?
      modifies this
      ensures State() == After(old(State()), Insert(quiz, draft.kind, draft.payload, draft.weight, order, at))
      ensures draft.order.value > 0 ==> order == draft.order.value
      ensures draft.order.value <= 0 ==> order == (if maxOrder.Some? then maxOrder.value else 0) + 1
      ensures draft.order.value <= 0 ==>
                forall pk :: Current(old(State()), pk) && old(rows)[pk].quiz == quiz ==> old(rows)[pk].order < order
    {
      order := draft.order.value;
      if order <= 0 {
        order := (if maxOrder.Some? then maxOrder.value else 0) + 1;
      }
      InsertQuestion(quiz, draft, order, at);
    }

    /** update_question on the current row that was loaded: content changes supersede it, a bare order moves it in place. */
    method UpdateQuestion(current: Pk, payload: Option<Payload>, weight: Option<real>, order: Option<int>, at: int)
      requires Inv(State()) && Current(State(), current)
      modifies this
      ensures payload.Some? || weight.Some? ==>
                State() == After(old(State()), Supersede(current, payload, weight, if order.Some? then order.value else old(rows)[current].order, at))
                && Current(State(), (current.0, current.1 + 1)) && !Current(State(), current)
      ensures payload.None? && weight.None? ==>
                State() == if order.Some? then After(old(State()), SetOrder(current, order.value)) else old(State())
      ensures Inv(State())
    {
      var row := rows[current];
      if payload.Some? || weight.Some? {
        NoSuccessor(State(), current);
        var newRow := row.(payload := if payload.Some? then payload.value else row.payload,
                           weight := if weight.Some? then weight.value else row.weight, createdAt := at, superseded := false);
        if order.Some? {
          newRow := newRow.(order := order.value);
        }
        rows := rows[current := row.(superseded := true)][(current.0, current.1 + 1) := newRow];
        SupersedeKeepsInv(old(State()), Supersede(current, payload, weight, newRow.order, at));
      } else if order.Some? {
        rows := rows[current := row.(order := order.value)];
        WriteKeepsInv(old(State()), SetOrder(current, order.value));
      }
    }

    method DeleteQuestion(current: Pk)
      requires Current(State(), current)
      modifies this
      ensures State() == After(old(State()), Stamp(current))
    {
      StampRow(current);
    }

    /** reorder_questions: refused unless the list names exactly the existing ids; a repeated id is not refused. The orders
        are then the renumbering of Listing, and nothing else about any row changes. */
    method ReorderQuestions(quiz: nat, order: seq<Id>, index: map<Id, nat>) returns (ok: bool)
      requires IsIndex(State(), quiz, index)
      modifies this
      ensures ok <==> Elements(order) == index.Keys
      ensures !ok ==> State() == old(State())
      ensures ok ==> State() == Play(old(State()), Moves(index, order))
      ensures ok ==> OrdersOf(State(), index) == Listing.Numbered(OrdersOf(old(State()), index), order)
    {
      if Elements(order) != index.Keys {
        return false;
      }
      for idx := 0 to |order|
        invariant Elements(order[..idx]) <= index.Keys
        invariant State() == Play(old(State()), Moves(index, order[..idx]))
      {
        assert order[idx] in Elements(order);
        assert order[..idx + 1] == order[..idx] + [order[idx]];
        MovesRenumber(old(State()), index, order[..idx]);
        MovesSnoc(index, order[..idx], order[idx]);
        PlaySnoc(old(State()), Moves(index, order[..idx]), SetOrder((order[idx], index[order[idx]]), idx + 1));
        MoveQuestion((order[idx], index[order[idx]]), idx + 1);
      }
      assert order[..|order|] == order;
      MovesRenumber(old(State()), index, order);
      return true;
    }

    method MoveQuestion(pk: Pk, position: int)
      requires pk in rows
      modifies this
      ensures State() == After(old(State()), SetOrder(pk, position))
    {
      rows := rows[pk := rows[pk].(order := position)];
    }

    /** replace_questions_sync over the current rows `gone`. */
    method ReplaceQuestions(quiz: nat, drafts: seq<Draft>, gone: seq<Pk>, at: int)
      requires forall pk :: pk in gone <==> Current(State(), pk) && rows[pk].quiz == quiz
      modifies this
      ensures State() == Play(Play(old(State()), Stamps(gone)), Inserts(quiz, drafts, at))
    {
      StampAll(gone);
      InsertAll(quiz, drafts, at);
    }

    method StampAll(gone: seq<Pk>)
      requires forall pk :: pk in gone ==> Current(State(), pk)
      modifies this
      ensures State() == Play(old(State()), Stamps(gone))
    {
      for i := 0 to |gone|
        invariant State() == Play(old(State()), Stamps(gone[..i])) && rows.Keys == old(rows).Keys
      {
        StampsSnoc(gone[..i], gone[i]);
        assert gone[..i + 1] == gone[..i] + [gone[i]] && gone[i] in gone;
        PlaySnoc(old(State()), Stamps(gone[..i]), Stamp(gone[i]));
        StampRow(gone[i]);
      }
      assert gone[..|gone|] == gone;
    }

    method StampRow(pk: Pk)
      requires pk in rows
      modifies this
      ensures State() == After(old(State()), Stamp(pk)) && rows.Keys == old(rows).Keys
    {
      rows := rows[pk := rows[pk].(superseded := true)];
    }

    method InsertAll(quiz: nat, drafts: seq<Draft>, at: int)
      modifies this
      ensures State() == Play(old(State()), Inserts(quiz, drafts, at))
    {
      for idx := 0 to |drafts|
        invariant State() == Play(old(State()), Inserts(quiz, drafts[..idx], at))
      {
        var d := drafts[idx];
        var order := if d.order.Some? then d.order.value else idx;
        InsertsSnoc(quiz, drafts[..idx], d, at);
        assert drafts[..idx + 1] == drafts[..idx] + [d];
        PlaySnoc(old(State()), Inserts(quiz, drafts[..idx], at), Insert(quiz, d.kind, d.payload, d.weight, order, at));
        InsertQuestion(quiz, d, order, at);
      }
      assert drafts[..|drafts|] == drafts;
    }

    method InsertQuestion(quiz: nat, d: Draft, order: int, at: int)
      modifies this
      ensures State() == After(old(State()), Insert(quiz, d.kind, d.payload, d.weight, order, at))
    {
      rows := rows[(nextId, 1) := Row(quiz, d.kind, d.payload, d.weight, order, false, at)];
      nextId := nextId + 1;
    }

    /** resolve_snapshot, in pointer order. */
    method ResolveSnapshot(pins: seq<Pointer>) returns (questions: Option<seq<Resolved>>)
      ensures questions == Resolve(State(), pins)
    {
      var out: seq<Resolved> := [];
      for i := 0 to |pins|
        invariant Resolve(State(), pins[..i]) == Some(out)
      {
        assert pins[..i + 1][..i] == pins[..i];
        var pk := (pins[i].id, pins[i].version);
        if pk !in rows {
          BrokenStaysBroken(State(), pins, i + 1);
          return None;
        }
        out := out + [Resolved(pk.0, pk.1, rows[pk].kind, rows[pk].payload, rows[pk].weight, pins[i].order)];
      }
      assert pins[..|pins|] == pins;
      return Some(out);
    }
  }

  lemma NoSuccessor(t: Table, pk: Pk)
    requires Inv(t) && Current(t, pk)
    ensures (pk.0, pk.1 + 1) !in t.rows
  {
  }

  lemma {:induction false} BrokenStaysBroken(t: Table, pins: seq<Pointer>, n: nat)
    requires n <= |pins| && Resolve(t, pins[..n]).None?
    ensures Resolve(t, pins).None?
  {
    if n == |pins| {
      assert pins[..n] == pins;
    } else {
      assert pins[..|pins| - 1][..n] == pins[..n];
      BrokenStaysBroken(t, pins[..|pins| - 1], n);
    }
  }

  /** The listing after an accepted reorder: the requested sequence exactly when it repeats no id, otherwise the sequence of
      last mentions; the orders are pairwise distinct either way. */
  lemma ReorderShows(t: Table, quiz: nat, index: map<Id, nat>, order: seq<Id>, listing: seq<Id>)
    requires IsIndex(t, quiz, index) && Elements(order) == index.Keys
    requires Listing.IsListing(listing, Listing.Numbered(OrdersOf(t, index), order))
    ensures listing == Listing.KeepLast(order) && Listing.Distinct(Listing.Numbered(OrdersOf(t, index), order))
    ensures listing == order <==> NoDup(order)
  {
    assert OrdersOf(t, index).Keys == index.Keys;
    Listing.NextListing(OrdersOf(t, index), order, listing);
    Listing.NextListingIsRequested(OrdersOf(t, index), order, listing);
  }
}
