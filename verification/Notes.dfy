/** services/lesson_material_service.py, notes: their `order` column under create, delete and reorder. */
module Notes {
  import opened Common
  import Listing

  type Id = Listing.Id

  const LESSON_NOTE_MAX_PER_LESSON := 100

  datatype Notes = Notes(orders: map<Id, int>, nextId: Id)

  datatype Event = Create | Delete(id: Id) | Reorder(ids: seq<Id>)

  ghost function Highest(orders: map<Id, int>): (m: int)
    requires orders != map[]
    ensures (exists id :: id in orders && orders[id] == m) && forall id :: id in orders ==> orders[id] <= m
    decreases |orders.Keys|
  {
    assert orders.Keys != {};
    var id :| id in orders;
    var rest := orders - {id};
    assert rest.Keys == orders.Keys - {id};
    assert forall x :: x in orders ==> x == id || (x in rest && rest[x] == orders[x]);
    if rest == map[] then orders[id]
    else Max(orders[id], Highest(rest))
  }

  /** 0 for the first note, otherwise one more than the highest order. */
  ghost function NextOrder(orders: map<Id, int>): int {
    if orders == map[] then 0 else Highest(orders) + 1
  }

  predicate Accepts(orders: map<Id, int>, ids: seq<Id>) {
    NoDup(ids) && Elements(ids) == orders.Keys
  }

  /** position = {id: idx for idx, id in enumerate(ids)}. */
  function Positions(ids: seq<Id>): (position: map<Id, int>)
    ensures forall id :: id in position <==> id in ids
  {
    if ids == [] then map[] else Positions(ids[..|ids| - 1])[ids[|ids| - 1] := |ids| - 1]
  }

  function Placed(orders: map<Id, int>, position: map<Id, int>): map<Id, int> {
    map id | id in orders :: if id in position then position[id] else orders[id]
  }

  ghost function After(n: Notes, e: Event): Notes {
    match e
    case Create =>
      if |n.orders| >= LESSON_NOTE_MAX_PER_LESSON then n
      else Notes(n.orders[n.nextId := NextOrder(n.orders)], n.nextId + 1)
    case Delete(id) => n.(orders := n.orders - {id})
    case Reorder(ids) => if Accepts(n.orders, ids) then n.(orders := Placed(n.orders, Positions(ids))) else n
  }

  ghost function Play(n: Notes, events: seq<Event>): Notes {
    if events == [] then n else After(Play(n, events[..|events| - 1]), events[|events| - 1])
  }

  lemma PlaySnoc(n: Notes, events: seq<Event>, e: Event)
    ensures Play(n, []) == n && Play(n, events + [e]) == After(Play(n, events), e)
  {
    assert (events + [e])[..|events|] == events;
  }

  ghost predicate Inv(n: Notes) {
    && Listing.Distinct(n.orders) && |n.orders| <= LESSON_NOTE_MAX_PER_LESSON
    && forall id :: id in n.orders ==> id < n.nextId
  }

  lemma {:induction false} PositionsAt(ids: seq<Id>, i: nat)
    requires NoDup(ids) && i < |ids|
    ensures ids[i] in Positions(ids) && Positions(ids)[ids[i]] == i
  {
    if i < |ids| - 1 {
      PositionsAt(ids[..|ids| - 1], i);
    }
  }

  /** An accepted reorder numbers the notes 0, 1, 2, … in the requested sequence. */
  lemma ReorderPlaces(n: Notes, ids: seq<Id>)
    requires Accepts(n.orders, ids)
    ensures var v := After(n, Reorder(ids));
            && v.orders.Keys == n.orders.Keys
            && (forall i :: 0 <= i < |ids| ==> ids[i] in v.orders && v.orders[ids[i]] == i)
            && Listing.Ascending(ids, v.orders) && Listing.SameIds(ids, v.orders)
  {
    var v := After(n, Reorder(ids));
    forall id ensures id in ids <==> id in v.orders {
      assert id in ids <==> id in Elements(ids);
    }
    forall i | 0 <= i < |ids| ensures ids[i] in v.orders && v.orders[ids[i]] == i {
      assert ids[i] in ids;
      PositionsAt(ids, i);
    }
  }

  lemma CreateGoesLast(n: Notes)
    requires Inv(n) && |n.orders| < LESSON_NOTE_MAX_PER_LESSON
    ensures var v := After(n, Create);
            Inv(v) && forall id :: id in n.orders ==> v.orders[id] == n.orders[id] < v.orders[n.nextId]
  {
    assert forall id :: id in n.orders ==> n.orders[id] < NextOrder(n.orders);
    assert After(n, Create).orders.Keys == n.orders.Keys + {n.nextId};
    assert |n.orders| == |n.orders.Keys|;
  }

  lemma ReorderKeepsInv(n: Notes, ids: seq<Id>)
    requires Inv(n) && Accepts(n.orders, ids)
    ensures Inv(After(n, Reorder(ids)))
  {
    ReorderPlaces(n, ids);
    var v := After(n, Reorder(ids));
    forall a, b | a in v.orders && b in v.orders && v.orders[a] == v.orders[b] ensures a == b {
      assert a in ids && b in ids;
    }
    assert |v.orders| == |v.orders.Keys| && |n.orders| == |n.orders.Keys|;
  }

  lemma DeleteKeepsInv(n: Notes, id: Id)
    requires Inv(n)
    ensures Inv(After(n, Delete(id)))
  {
    var v := After(n, Delete(id));
    assert v.orders.Keys == n.orders.Keys - {id};
    assert |v.orders| == |v.orders.Keys| && |n.orders| == |n.orders.Keys|;
  }

  lemma EventKeepsInv(n: Notes, e: Event)
    requires Inv(n)
    ensures Inv(After(n, e))
  {
    match e
    case Create =>
      if |n.orders| < LESSON_NOTE_MAX_PER_LESSON {
        CreateGoesLast(n);
      }
    case Delete(id) => DeleteKeepsInv(n, id);
    case Reorder(ids) =>
      if Accepts(n.orders, ids) {
        ReorderKeepsInv(n, ids);
      }
  }

  /** Over every run note orders stay pairwise distinct, and a lesson never has more notes than allowed. */
  lemma {:induction false} OrdersStayDistinct(events: seq<Event>)
    ensures var n := Play(Notes(map[], 0), events); Listing.Distinct(n.orders) && |n.orders| <= 100 && Inv(n)
  {
    if events != [] {
      OrdersStayDistinct(events[..|events| - 1]);
      EventKeepsInv(Play(Notes(map[], 0), events[..|events| - 1]), events[|events| - 1]);
    }
  }

  /** A list is accepted exactly when it is a permutation of the lesson's notes; then the next listing is that very list, and
      a refused one leaves the listing as it was. */
  lemma ReorderShowsRequest(n: Notes, ids: seq<Id>, before: seq<Id>, after: seq<Id>)
    requires Inv(n) && Listing.IsListing(before, n.orders) && Listing.IsListing(after, After(n, Reorder(ids)).orders)
    ensures Accepts(n.orders, ids) <==> multiset(ids) == multiset(before)
    ensures after == if multiset(ids) == multiset(before) then ids else before
  {
    AcceptsPermutations(n.orders, ids, before);
    if Accepts(n.orders, ids) {
      ReorderPlaces(n, ids);
      Listing.AscendingIsTheListing(after, ids, After(n, Reorder(ids)).orders);
    } else {
      ListingAscends(before, n.orders);
      Listing.AscendingIsTheListing(after, before, n.orders);
    }
  }

  lemma ListingAscends(listing: seq<Id>, orders: map<Id, int>)
    requires Listing.IsListing(listing, orders) && Listing.Distinct(orders)
    ensures Listing.Ascending(listing, orders)
  {
    forall i, j | 0 <= i < j < |listing| ensures listing[i] in orders && listing[j] in orders && orders[listing[i]] < orders[listing[j]] {
      assert listing[i] in listing && listing[j] in listing;
    }
  }

  lemma AcceptsPermutations(orders: map<Id, int>, ids: seq<Id>, listing: seq<Id>)
    requires Listing.IsListing(listing, orders)
    ensures Accepts(orders, ids) <==> multiset(ids) == multiset(listing)
  {
    if Accepts(orders, ids) {
      forall id ensures id in ids <==> id in listing {
        assert id in ids <==> id in Elements(ids);
      }
      SameMembersOnce(ids, listing);
    }
    if multiset(ids) == multiset(listing) {
      forall id ensures id in ids <==> id in orders {
        assert id in ids <==> id in multiset(ids);
        assert id in listing <==> id in multiset(listing);
      }
      forall i, j | 0 <= i < j < |ids| ensures ids[i] != ids[j] {
        OnceEach(listing, ids[i]);
        TwiceIsTwo(ids, i, j);
      }
    }
  }

  lemma TwiceIsTwo(ids: seq<Id>, i: nat, j: nat)
    requires i < j < |ids|
    ensures ids[i] == ids[j] ==> multiset(ids)[ids[i]] >= 2
  {
    var before, after := ids[..j], ids[j..];
    assert ids == before + after;
    assert before[i] in multiset(before) && after[0] in multiset(after);
  }

  /** A full lesson refuses a new note, the first one has order 0, and a delete takes its own note only. */
  lemma NoteSteps(n: Notes, id: Id)
    ensures |n.orders| >= 100 ==> After(n, Create) == n
    ensures n.orders == map[] ==> After(n, Create).orders == map[n.nextId := 0]
    ensures var v := After(n, Delete(id));
            && id !in v.orders && v.nextId == n.nextId
            && forall other :: other != id ==> (other in v.orders <==> other in n.orders) && (other in n.orders ==> v.orders[other] == n.orders[other])
  {
  }
}
