/** Rows listed by an `order` column, and what writing positions 1, 2, 3, … along a list of ids does to that listing. Quiz
    questions and lesson notes are both reordered this way. */
module Listing {
  import opened Common

  type Id = nat

  /** The ids of the rows, ascending by order; ties in any order. */
  ghost predicate IsListing(listing: seq<Id>, orders: map<Id, int>) {
    && NoDup(listing)
    && SameIds(listing, orders)
    && forall i, j :: 0 <= i < j < |listing| ==> orders[listing[i]] <= orders[listing[j]]
  }

  ghost predicate SameIds(list: seq<Id>, orders: map<Id, int>) {
    forall id :: id in list <==> id in orders
  }

  ghost predicate Distinct(orders: map<Id, int>) {
    forall a, b :: a in orders && b in orders && orders[a] == orders[b] ==> a == b
  }

  /** `for idx, id in enumerate(list): rows[id].order = idx + 1`. */
  function Numbered(orders: map<Id, int>, list: seq<Id>): map<Id, int> {
    if list == [] then orders else Numbered(orders, list[..|list| - 1])[list[|list| - 1] := |list|]
  }

  /** The list without the entries that come again later. */
  function KeepLast(list: seq<Id>): seq<Id> {
    if list == [] then []
    else
      var last := list[|list| - 1];
      Without(KeepLast(list[..|list| - 1]), last) + [last]
  }

  function Without(list: seq<Id>, id: Id): (r: seq<Id>)
    ensures forall x :: x in r <==> x in list && x != id
  {
    if list == [] then []
    else
      var front := Without(list[..|list| - 1], id);
      if list[|list| - 1] == id then front else front + [list[|list| - 1]]
  }

  lemma NoDupSnoc(list: seq<Id>, id: Id)
    ensures NoDup(list + [id]) <==> NoDup(list) && id !in list
  {
    var longer := list + [id];
    assert forall i :: 0 <= i < |list| ==> longer[i] == list[i];
    assert longer[|list|] == id;
  }

  lemma {:induction false} WithoutOfDistinct(list: seq<Id>, id: Id)
    ensures NoDup(list) ==> NoDup(Without(list, id))
    ensures id !in list ==> Without(list, id) == list
  {
    if list != [] {
      var front, last := list[..|list| - 1], list[|list| - 1];
      WithoutOfDistinct(front, id);
      assert list == front + [last];
      NoDupSnoc(front, last);
      NoDupSnoc(Without(front, id), last);
    }
  }

  lemma {:induction false} KeepLastMembers(list: seq<Id>)
    ensures NoDup(KeepLast(list)) && forall id :: id in KeepLast(list) <==> id in list
  {
    if list != [] {
      var front, last := list[..|list| - 1], list[|list| - 1];
      KeepLastMembers(front);
      assert list == front + [last];
      WithoutOfDistinct(KeepLast(front), last);
      NoDupSnoc(Without(KeepLast(front), last), last);
    }
  }

  lemma {:induction false} KeepLastOfDistinct(list: seq<Id>)
    ensures KeepLast(list) == list <==> NoDup(list)
  {
    KeepLastMembers(list);
    if list != [] && NoDup(list) {
      var front, last := list[..|list| - 1], list[|list| - 1];
      assert list == front + [last];
      NoDupSnoc(front, last);
      KeepLastOfDistinct(front);
      WithoutOfDistinct(front, last);
    }
  }

  /** Filtering keeps a strictly ascending listing strictly ascending. */
  ghost predicate Ascending(list: seq<Id>, orders: map<Id, int>) {
    forall i, j :: 0 <= i < j < |list| ==> list[i] in orders && list[j] in orders && orders[list[i]] < orders[list[j]]
  }

  lemma {:induction false} WithoutAscends(list: seq<Id>, id: Id, orders: map<Id, int>)
    requires Ascending(list, orders) && forall x :: x in list ==> x in orders
    ensures Ascending(Without(list, id), orders)
  {
    if list != [] {
      WithoutAscends(list[..|list| - 1], id, orders);
      var front := Without(list[..|list| - 1], id);
      forall i | 0 <= i < |front| ensures front[i] in orders && (list[|list| - 1] != id ==> orders[front[i]] < orders[list[|list| - 1]]) {
        assert front[i] in list[..|list| - 1];
      }
    }
  }

  lemma {:induction false} NumberedRange(orders: map<Id, int>, list: seq<Id>)
    ensures forall id :: id in Numbered(orders, list) <==> id in orders || id in list
    ensures forall id :: id in list ==> 1 <= Numbered(orders, list)[id] <= |list|
    ensures forall id :: id in orders && id !in list ==> Numbered(orders, list)[id] == orders[id]
  {
    if list != [] {
      var front, last := list[..|list| - 1], list[|list| - 1];
      NumberedRange(orders, front);
      assert list == front + [last];
    }
  }

  lemma AscendingSnoc(list: seq<Id>, id: Id, before: map<Id, int>, after: map<Id, int>)
    requires Ascending(list, before) && id in after
    requires forall x :: x in list ==> x in before && x in after && after[x] == before[x] && after[x] < after[id]
    ensures Ascending(list + [id], after)
  {
    assert forall i :: 0 <= i < |list| ==> list[i] in list;
  }

  /** Along the kept entries the new numbers ascend. */
  lemma {:induction false} NumberedAscends(orders: map<Id, int>, list: seq<Id>)
    ensures Ascending(KeepLast(list), Numbered(orders, list))
  {
    if list != [] {
      NumberedAscends(orders, list[..|list| - 1]);
      LastAscends(orders, list[..|list| - 1], list[|list| - 1], KeepLast(list[..|list| - 1]));
    }
  }

  lemma LastAscends(orders: map<Id, int>, front: seq<Id>, last: Id, kept: seq<Id>)
    requires kept == KeepLast(front) && Ascending(kept, Numbered(orders, front))
    ensures Ascending(Without(kept, last) + [last], Numbered(orders, front)[last := |front| + 1])
  {
    NumberedRange(orders, front);
    KeepLastMembers(front);
    WithoutThenLast(Numbered(orders, front), kept, last, |front|);
  }

  lemma WithoutThenLast(before: map<Id, int>, kept: seq<Id>, last: Id, n: nat)
    requires Ascending(kept, before) && forall x :: x in kept ==> x in before && before[x] <= n
    ensures Ascending(Without(kept, last) + [last], before[last := n + 1])
  {
    WithoutAscends(kept, last, before);
    AscendingSnoc(Without(kept, last), last, before, before[last := n + 1]);
  }

  lemma SameLast(listing: seq<Id>, list: seq<Id>, orders: map<Id, int>)
    requires IsListing(listing, orders) && Ascending(list, orders) && list != []
    requires SameIds(list, orders)
    ensures listing != [] && listing[|listing| - 1] == list[|list| - 1]
  {
    var last := list[|list| - 1];
    assert last in orders;
    assert last in listing;
    var k :| 0 <= k < |listing| && listing[k] == last;
    var end := listing[|listing| - 1];
    assert end in listing;
    assert end in list;
    var j :| 0 <= j < |list| && list[j] == end;
    assert orders[last] <= orders[end];
  }

  lemma DropLast(list: seq<Id>, orders: map<Id, int>)
    requires list != [] && NoDup(list) && SameIds(list, orders)
    ensures NoDup(list[..|list| - 1]) && SameIds(list[..|list| - 1], orders - {list[|list| - 1]})
  {
    var front, last := list[..|list| - 1], list[|list| - 1];
    assert list == front + [last];
    NoDupSnoc(front, last);
  }

  lemma DropLastOfListing(listing: seq<Id>, orders: map<Id, int>)
    requires listing != [] && IsListing(listing, orders)
    ensures IsListing(listing[..|listing| - 1], orders - {listing[|listing| - 1]})
  {
    DropLast(listing, orders);
    var front := listing[..|listing| - 1];
    assert forall i :: 0 <= i < |front| ==> front[i] in front;
  }

  lemma DropLastOfAscending(list: seq<Id>, orders: map<Id, int>)
    requires list != [] && Ascending(list, orders) && SameIds(list, orders)
    ensures Ascending(list[..|list| - 1], orders - {list[|list| - 1]})
    ensures SameIds(list[..|list| - 1], orders - {list[|list| - 1]})
  {
    DropLast(list, orders);
    var front := list[..|list| - 1];
    assert forall i :: 0 <= i < |front| ==> front[i] in front;
  }

  lemma FirstIsMember(s: seq<Id>)
    ensures s != [] ==> s[0] in s
  {
  }

  /** When orders are pairwise distinct there is one listing: the ascending one. */
  lemma {:induction false} AscendingIsTheListing(listing: seq<Id>, list: seq<Id>, orders: map<Id, int>)
    requires IsListing(listing, orders) && Ascending(list, orders) && SameIds(list, orders)
    ensures listing == list
    decreases |list|
  {
    if list == [] {
      FirstIsMember(listing);
    } else {
      SameLast(listing, list, orders);
      DropLastOfAscending(list, orders);
      DropLastOfListing(listing, orders);
      AscendingIsTheListing(listing[..|listing| - 1], list[..|list| - 1], orders - {list[|list| - 1]});
    }
  }

  /** A list naming exactly the existing ids, any of them possibly twice: afterwards orders are pairwise distinct, and the
      listing is the list with only the last mention of each id kept. */
  lemma NextListing(orders: map<Id, int>, list: seq<Id>, listing: seq<Id>)
    requires Elements(list) == orders.Keys
    requires IsListing(listing, Numbered(orders, list))
    ensures listing == KeepLast(list) && Distinct(Numbered(orders, list))
  {
    NumberedRange(orders, list);
    NumberedAscends(orders, list);
    KeepLastMembers(list);
    var after, kept := Numbered(orders, list), KeepLast(list);
    assert SameIds(kept, after);
    AscendingIsTheListing(listing, kept, after);
    forall a, b | a in after && b in after && after[a] == after[b] ensures a == b {
      assert a in kept && b in kept;
      var i :| 0 <= i < |kept| && kept[i] == a;
      var j :| 0 <= j < |kept| && kept[j] == b;
      assert !(i < j) && !(j < i);
    }
  }

  /** So the next listing is the requested sequence exactly when no id was listed twice. */
  lemma NextListingIsRequested(orders: map<Id, int>, list: seq<Id>, listing: seq<Id>)
    requires Elements(list) == orders.Keys
    requires IsListing(listing, Numbered(orders, list))
    ensures listing == list <==> NoDup(list)
  {
    NextListing(orders, list, listing);
    KeepLastOfDistinct(list);
  }
}
