/** scripts/migration_guard.py: exactly when `pending_revisions` lists the revisions oldest first. The walk explores the last
    parent of a merge first, so what matters is the order of the parents inside each merge. */
module MigrationOrder {
  import opened Common
  import opened MigrationGuard

  /** One of `above` reaches `rev` along parent links without passing `current`. */
  ghost predicate Covered(index: Index, current: Rev, rev: Rev, above: seq<Rev>) {
    exists k :: 0 <= k < |above| && Pending(index, current, above[k], rev)
  }

  /** What `rev` reaches, none of `above` reaches. */
  ghost predicate Apart(index: Index, current: Rev, rev: Rev, above: seq<Rev>) {
    forall k, z :: 0 <= k < |above| && Pending(index, current, rev, z) ==> !Pending(index, current, above[k], z)
  }

  /** Each parent is reached from a later one, or shares nothing with the later ones. */
  ghost predicate MergeOrdered(index: Index, current: Rev, parents: seq<Rev>) {
    forall i :: 0 <= i < |parents| ==> Covered(index, current, parents[i], parents[i + 1..]) || Apart(index, current, parents[i], parents[i + 1..])
  }

  /** No pending revision is its own ancestor. */
  ghost predicate Acyclic(index: Index, current: Rev, head: Rev) {
    forall rev, p :: Pending(index, current, head, rev) && rev in index && p in index[rev].parents ==> !Pending(index, current, p, rev)
  }

  ghost predicate WellOrdered(index: Index, current: Rev, head: Rev) {
    && Acyclic(index, current, head)
    && forall rev :: Pending(index, current, head, rev) && rev in index ==> MergeOrdered(index, current, index[rev].parents)
  }

  /** Every revision of the list comes after all of its parents in it. */
  ghost predicate OldestFirst(index: Index, list: seq<Rev>) {
    forall i, j :: 0 <= i < |list| && 0 <= j < |list| && list[i] in index && list[j] in index[list[i]].parents ==> j < i
  }

  // ----- reaching -----

  lemma ReachesEnds(index: Index, current: Rev, from: Rev, to: Rev)
    requires Pending(index, current, from, to)
    ensures from in index && to in index && from != current && to != current
    ensures Pending(index, current, from, from)
  {
    var p :| Path(index, current, from, p) && p[|p| - 1] == to;
    assert Path(index, current, from, [from]) && [from][0] == from;
  }

  lemma ReachesTogether(index: Index, current: Rev, a: Rev, b: Rev, c: Rev)
    requires Pending(index, current, a, b) && Pending(index, current, b, c)
    ensures Pending(index, current, a, c)
  {
    var p :| Path(index, current, a, p) && p[|p| - 1] == b;
    var q :| Path(index, current, b, q) && q[|q| - 1] == c;
    var all := p + q[1..];
    assert all[|all| - 1] == c;
    forall i | 0 <= i < |all| - 1 ensures all[i] in index && all[i + 1] in index[all[i]].parents {
      if i >= |p| - 1 {
        assert all[i] == q[i - |p| + 1] && all[i + 1] == q[i - |p| + 2];
      }
    }
    assert Path(index, current, a, all);
  }

  lemma ReachesParent(index: Index, current: Rev, rev: Rev, parent: Rev)
    requires rev in index && rev != current && parent in index[rev].parents && parent in index && parent != current
    ensures Pending(index, current, rev, parent)
  {
    assert Path(index, current, rev, [rev, parent]) && [rev, parent][1] == parent;
  }

  lemma ReachesByParent(index: Index, current: Rev, from: Rev, to: Rev) returns (parent: Rev)
    requires Pending(index, current, from, to) && from != to
    ensures from in index && parent in index[from].parents && Pending(index, current, parent, to)
  {
    var p :| Path(index, current, from, p) && p[|p| - 1] == to;
    parent := p[1];
    var q := p[1..];
    assert q[|q| - 1] == to;
    forall i | 0 <= i < |q| ensures q[i] != current && q[i] in index {
      assert q[i] == p[i + 1];
    }
    forall i | 0 <= i < |q| - 1 ensures q[i + 1] in index[q[i]].parents {
      assert q[i] == p[i + 1] && q[i + 1] == p[i + 2];
    }
    assert Path(index, current, parent, q);
  }

  // ----- a well-ordered graph is listed oldest first -----

  ghost predicate CoveredUnseen(index: Index, current: Rev, rev: Rev, above: seq<Rev>, seen: set<Rev>) {
    exists k :: 0 <= k < |above| && above[k] !in seen && Pending(index, current, above[k], rev)
  }

  ghost predicate Fresh(index: Index, current: Rev, rev: Rev, above: seq<Rev>, seen: set<Rev>) {
    Apart(index, current, rev, above) && forall z :: Pending(index, current, rev, z) ==> z !in seen
  }

  ghost predicate EntryOk(index: Index, current: Rev, rev: Rev, above: seq<Rev>, seen: set<Rev>) {
    rev in seen || rev == current || CoveredUnseen(index, current, rev, above, seen) || Fresh(index, current, rev, above, seen)
  }

  /** Every waiting revision will be visited from above it, or is untouched so far and by everything above it. */
  ghost predicate StackOk(index: Index, current: Rev, frontier: seq<Rev>, seen: set<Rev>) {
    forall t :: 0 <= t < |frontier| ==> EntryOk(index, current, frontier[t], frontier[t + 1..], seen)
  }

  lemma SkipKeepsEntry(index: Index, current: Rev, rev: Rev, above: seq<Rev>, top: Rev, seen: set<Rev>)
    requires EntryOk(index, current, rev, above + [top], seen) && (top in seen || top == current)
    ensures EntryOk(index, current, rev, above, seen)
  {
    var all := above + [top];
    if CoveredUnseen(index, current, rev, all, seen) {
      var k :| 0 <= k < |all| && all[k] !in seen && Pending(index, current, all[k], rev);
      ReachesEnds(index, current, all[k], rev);
      assert above[k] == all[k];
    } else if Fresh(index, current, rev, all, seen) {
      assert forall k :: 0 <= k < |above| ==> above[k] == all[k];
    }
  }

  lemma SkipKeepsStack(index: Index, current: Rev, rest: seq<Rev>, top: Rev, seen: set<Rev>)
    requires StackOk(index, current, rest + [top], seen) && (top in seen || top == current)
    ensures StackOk(index, current, rest, seen)
  {
    var frontier := rest + [top];
    forall t | 0 <= t < |rest| ensures EntryOk(index, current, rest[t], rest[t + 1..], seen) {
      assert frontier[t] == rest[t] && frontier[t + 1..] == rest[t + 1..] + [top];
      SkipKeepsEntry(index, current, rest[t], rest[t + 1..], top, seen);
    }
  }

  /** The top of the stack is fresh when it has not been seen. */
  lemma TopIsFresh(index: Index, current: Rev, rest: seq<Rev>, top: Rev, seen: set<Rev>, z: Rev)
    requires StackOk(index, current, rest + [top], seen) && top !in seen && top != current && Pending(index, current, top, z)
    ensures z !in seen
  {
    var frontier := rest + [top];
    assert frontier[|rest|] == top && |frontier[|rest| + 1..]| == 0;
    assert EntryOk(index, current, top, frontier[|rest| + 1..], seen);
  }

  /** What was covered from the visited revision is covered from one of its parents. */
  lemma CoveredByParent(index: Index, current: Rev, head: Rev, rest: seq<Rev>, top: Rev, seen: set<Rev>, rev: Rev)
    requires StackOk(index, current, rest + [top], seen) && top !in seen && top != current && Acyclic(index, current, head)
    requires Pending(index, current, head, top) && Pending(index, current, top, rev) && rev != top
    ensures top in index && CoveredUnseen(index, current, rev, index[top].parents, seen + {top})
  {
    var q := ReachesByParent(index, current, top, rev);
    ReachesEnds(index, current, q, rev);
    var k :| 0 <= k < |index[top].parents| && index[top].parents[k] == q;
    assert !Pending(index, current, q, top);
    assert q != top;
    ReachesParent(index, current, top, q);
    TopIsFresh(index, current, rest, top, seen, q);
  }

  lemma CoveredWider(index: Index, current: Rev, rev: Rev, above: seq<Rev>, more: seq<Rev>, seen: set<Rev>)
    requires CoveredUnseen(index, current, rev, above, seen) || CoveredUnseen(index, current, rev, more, seen)
    ensures CoveredUnseen(index, current, rev, above + more, seen)
  {
    if k :| 0 <= k < |above| && above[k] !in seen && Pending(index, current, above[k], rev) {
      assert (above + more)[k] == above[k];
    }
    if k :| 0 <= k < |more| && more[k] !in seen && Pending(index, current, more[k], rev) {
      assert (above + more)[|above| + k] == more[k];
    }
  }

  lemma VisitKeepsEntry(index: Index, current: Rev, head: Rev, rest: seq<Rev>, top: Rev, seen: set<Rev>, t: nat)
    requires StackOk(index, current, rest + [top], seen) && top !in seen && top != current && Acyclic(index, current, head)
    requires Pending(index, current, head, top) && top in index && t < |rest|
    requires forall q :: q in index[top].parents ==> q in index
    ensures EntryOk(index, current, rest[t], rest[t + 1..] + index[top].parents, seen + {top})
  {
    var rev, above, parents := rest[t], rest[t + 1..], index[top].parents;
    assert (rest + [top])[t] == rev && (rest + [top])[t + 1..] == above + [top];
    assert EntryOk(index, current, rev, above + [top], seen);
    if rev !in seen && rev != current && rev != top {
      if CoveredUnseen(index, current, rev, above + [top], seen) {
        var k :| 0 <= k < |above + [top]| && (above + [top])[k] !in seen && Pending(index, current, (above + [top])[k], rev);
        if (above + [top])[k] == top {
          CoveredByParent(index, current, head, rest, top, seen, rev);
        } else {
          assert above[k] == (above + [top])[k];
          assert CoveredUnseen(index, current, rev, above, seen + {top});
        }
        CoveredWider(index, current, rev, above, parents, seen + {top});
      } else {
        FreshStays(index, current, rev, above, top, seen);
      }
    }
  }

  lemma FreshStays(index: Index, current: Rev, rev: Rev, above: seq<Rev>, top: Rev, seen: set<Rev>)
    requires Fresh(index, current, rev, above + [top], seen) && top in index && top != current
    requires forall q :: q in index[top].parents ==> q in index
    ensures Fresh(index, current, rev, above + index[top].parents, seen + {top})
  {
    var all := above + [top];
    assert all[|above|] == top;
    assert Path(index, current, top, [top]) && [top][0] == top;
    forall k, z | 0 <= k < |above + index[top].parents| && Pending(index, current, rev, z)
      ensures !Pending(index, current, (above + index[top].parents)[k], z)
    {
      var q := (above + index[top].parents)[k];
      if k < |above| {
        assert all[k] == q;
      } else if Pending(index, current, q, z) {
        ReachesEnds(index, current, q, z);
        ReachesParent(index, current, top, q);
        ReachesTogether(index, current, top, q, z);
        assert false;
      }
    }
  }

  /** A parent of the visited revision, and all it reaches, is unseen. */
  lemma ParentIsUnseen(index: Index, current: Rev, head: Rev, rest: seq<Rev>, top: Rev, seen: set<Rev>, q: Rev, z: Rev)
    requires StackOk(index, current, rest + [top], seen) && top !in seen && top != current && Acyclic(index, current, head)
    requires Pending(index, current, head, top) && top in index && q in index[top].parents && Pending(index, current, q, z)
    ensures z !in seen + {top}
  {
    ReachesEnds(index, current, q, z);
    ReachesParent(index, current, top, q);
    ReachesTogether(index, current, top, q, z);
    TopIsFresh(index, current, rest, top, seen, z);
    assert !Pending(index, current, q, top);
  }

  lemma ParentEntry(index: Index, current: Rev, head: Rev, rest: seq<Rev>, top: Rev, seen: set<Rev>, i: nat)
    requires StackOk(index, current, rest + [top], seen) && top !in seen && top != current && Acyclic(index, current, head)
    requires Pending(index, current, head, top) && top in index && i < |index[top].parents|
    requires MergeOrdered(index, current, index[top].parents)
    ensures EntryOk(index, current, index[top].parents[i], index[top].parents[i + 1..], seen + {top})
  {
    var parents := index[top].parents;
    var rev, above := parents[i], parents[i + 1..];
    if k :| 0 <= k < |above| && Pending(index, current, above[k], rev) {
      assert above[k] == parents[i + 1 + k] && above[k] in parents;
      ReachesEnds(index, current, above[k], rev);
      ParentIsUnseen(index, current, head, rest, top, seen, above[k], above[k]);
    } else {
      forall z | Pending(index, current, rev, z) ensures z !in seen + {top} {
        ParentIsUnseen(index, current, head, rest, top, seen, rev, z);
      }
    }
  }

  lemma VisitKeepsStack(index: Index, current: Rev, head: Rev, rest: seq<Rev>, top: Rev, seen: set<Rev>)
    requires StackOk(index, current, rest + [top], seen) && top !in seen && top != current && WellOrdered(index, current, head)
    requires Pending(index, current, head, top) && top in index
    requires forall q :: q in index[top].parents ==> q in index
    ensures StackOk(index, current, rest + index[top].parents, seen + {top})
  {
    var parents := index[top].parents;
    forall t: nat | t < |rest| ensures EntryOk(index, current, rest[t], rest[t + 1..] + parents, seen + {top}) {
      VisitKeepsEntry(index, current, head, rest, top, seen, t);
    }
    forall i: nat | i < |parents| ensures EntryOk(index, current, parents[i], parents[i + 1..], seen + {top}) {
      ParentEntry(index, current, head, rest, top, seen, i);
    }
    JoinedStack(index, current, rest, parents, seen + {top});
  }

  lemma JoinedStack(index: Index, current: Rev, low: seq<Rev>, high: seq<Rev>, seen: set<Rev>)
    requires forall t: nat :: t < |low| ==> EntryOk(index, current, low[t], low[t + 1..] + high, seen)
    requires forall i: nat :: i < |high| ==> EntryOk(index, current, high[i], high[i + 1..], seen)
    ensures StackOk(index, current, low + high, seen)
  {
    var frontier := low + high;
    forall t | 0 <= t < |frontier| ensures EntryOk(index, current, frontier[t], frontier[t + 1..], seen) {
      if t < |low| {
        assert frontier[t + 1..] == low[t + 1..] + high;
      } else {
        assert frontier[t + 1..] == high[t - |low| + 1..];
      }
    }
  }

  /** A pending revision that has not been seen waits behind some unseen entry of the stack. */
  lemma {:induction false} Waits(index: Index, current: Rev, head: Rev, frontier: seq<Rev>, seen: set<Rev>, reached: bool, p: seq<Rev>)
    requires WalkInv(index, current, head, frontier, seen, reached) && Path(index, current, head, p) && p[|p| - 1] !in seen
    ensures CoveredUnseen(index, current, p[|p| - 1], frontier, seen)
  {
    var last := p[|p| - 1];
    assert Path(index, current, last, [last]) && [last][0] == last;
    if |p| == 1 {
      var t :| 0 <= t < |frontier| && frontier[t] == head;
    } else {
      var shorter, before := p[..|p| - 1], p[|p| - 2];
      assert Path(index, current, head, shorter) && shorter[|shorter| - 1] == before;
      assert p[|p| - 2 + 1] in index[before].parents;
      if before in seen {
        var t :| 0 <= t < |frontier| && frontier[t] == last;
      } else {
        Waits(index, current, head, frontier, seen, reached, shorter);
        var t :| 0 <= t < |frontier| && frontier[t] !in seen && Pending(index, current, frontier[t], before);
        ReachesParent(index, current, before, last);
        ReachesTogether(index, current, frontier[t], before, last);
      }
    }
  }

  /** The highest unseen entry that reaches `rev`. */
  lemma {:induction false} Highest(index: Index, current: Rev, frontier: seq<Rev>, seen: set<Rev>, rev: Rev) returns (t: nat)
    requires CoveredUnseen(index, current, rev, frontier, seen)
    ensures t < |frontier| && frontier[t] !in seen && Pending(index, current, frontier[t], rev)
    ensures !CoveredUnseen(index, current, rev, frontier[t + 1..], seen)
  {
    var rest := frontier[1..];
    FirstOrRest(index, current, frontier, seen, rev);
    if CoveredUnseen(index, current, rev, rest, seen) {
      var u := Highest(index, current, rest, seen, rev);
      t := u + 1;
      assert frontier[t + 1..] == rest[u + 1..];
    } else {
      t := 0;
    }
  }

  lemma FirstOrRest(index: Index, current: Rev, frontier: seq<Rev>, seen: set<Rev>, rev: Rev)
    requires CoveredUnseen(index, current, rev, frontier, seen)
    ensures (frontier[0] !in seen && Pending(index, current, frontier[0], rev)) || CoveredUnseen(index, current, rev, frontier[1..], seen)
  {
    var k :| 0 <= k < |frontier| && frontier[k] !in seen && Pending(index, current, frontier[k], rev);
    if k > 0 {
      assert frontier[1..][k - 1] == frontier[k];
    }
  }

  /** When an unseen revision is on top, all its pending children have been seen. */
  lemma ChildrenAreSeen(index: Index, current: Rev, head: Rev, rest: seq<Rev>, top: Rev, seen: set<Rev>, reached: bool, child: Rev)
    requires WalkInv(index, current, head, rest + [top], seen, reached) && StackOk(index, current, rest + [top], seen)
    requires WellOrdered(index, current, head) && top !in seen && top != current && top in index
    requires Pending(index, current, head, child) && child in index && top in index[child].parents
    ensures child in seen
  {
    if child !in seen {
      var frontier := rest + [top];
      var p :| Path(index, current, head, p) && p[|p| - 1] == child;
      Waits(index, current, head, frontier, seen, reached, p);
      var t := Highest(index, current, frontier, seen, child);
      ReachesEnds(index, current, frontier[t], child);
      ReachesParent(index, current, child, top);
      ReachesTogether(index, current, frontier[t], child, top);
      NotTop(index, current, head, rest, top, seen, t, child);
    }
  }

  lemma NotTop(index: Index, current: Rev, head: Rev, rest: seq<Rev>, top: Rev, seen: set<Rev>, t: nat, child: Rev)
    requires StackOk(index, current, rest + [top], seen) && Acyclic(index, current, head) && top !in seen && top != current && top in index
    requires Pending(index, current, head, child) && child in index && top in index[child].parents
    requires t <= |rest| && (rest + [top])[t] !in seen && (rest + [top])[t] != current
    requires Pending(index, current, (rest + [top])[t], child) && Pending(index, current, (rest + [top])[t], top)
    ensures CoveredUnseen(index, current, child, (rest + [top])[t + 1..], seen)
  {
    var frontier := rest + [top];
    assert !Pending(index, current, top, child);
    assert t < |rest|;
    var above := frontier[t + 1..];
    assert above[|above| - 1] == top;
    assert Path(index, current, top, [top]) && [top][0] == top;
    assert EntryOk(index, current, frontier[t], above, seen);
    assert !Apart(index, current, frontier[t], above) by {
      assert Pending(index, current, above[|above| - 1], top);
    }
    var k :| 0 <= k < |above| && above[k] !in seen && Pending(index, current, above[k], frontier[t]);
    ReachesTogether(index, current, above[k], frontier[t], child);
  }

  /** The walk from here ends, on a well-ordered graph, with everything in order so far. */
  ghost predicate InOrder(index: Index, current: Rev, head: Rev, frontier: seq<Rev>, seen: set<Rev>, reached: bool) {
    && head != current && WellOrdered(index, current, head)
    && WalkInv(index, current, head, frontier, seen, reached) && StackOk(index, current, frontier, seen)
    && Walk(index, current, frontier, seen, reached).Done?
  }

  lemma {:induction false} OrderedWalk(index: Index, current: Rev, head: Rev, frontier: seq<Rev>, seen: set<Rev>, reached: bool, all: set<Rev>)
    requires InOrder(index, current, head, frontier, seen, reached) && Exactly(index, current, head, all)
    ensures ChildrenFirst(index, all, seen, Walk(index, current, frontier, seen, reached).revs)
    decreases index.Keys - seen, |frontier|
  {
    if frontier != [] {
      var rest, top := frontier[..|frontier| - 1], frontier[|frontier| - 1];
      assert frontier == rest + [top];
      if top in seen || top == current {
        SkipInOrder(index, current, head, rest, top, seen, reached);
        OrderedWalk(index, current, head, rest, seen, top !in seen || reached, all);
      } else {
        VisitInOrder(index, current, head, rest, top, seen, reached);
        OrderedWalk(index, current, head, rest + index[top].parents, seen + {top}, reached, all);
        VisitStaysFirst(index, current, head, rest, top, seen, reached, all);
      }
    }
  }

  lemma SkipInOrder(index: Index, current: Rev, head: Rev, rest: seq<Rev>, top: Rev, seen: set<Rev>, reached: bool)
    requires InOrder(index, current, head, rest + [top], seen, reached) && (top in seen || top == current)
    ensures InOrder(index, current, head, rest, seen, top !in seen || reached)
    ensures Walk(index, current, rest + [top], seen, reached) == Walk(index, current, rest, seen, top !in seen || reached)
  {
    SkipKeepsInv(index, current, head, rest, top, seen, reached);
    SkipKeepsStack(index, current, rest, top, seen);
    assert (rest + [top])[..|rest|] == rest;
  }

  lemma VisitInOrder(index: Index, current: Rev, head: Rev, rest: seq<Rev>, top: Rev, seen: set<Rev>, reached: bool)
    requires InOrder(index, current, head, rest + [top], seen, reached) && top !in seen && top != current
    ensures top in index && InOrder(index, current, head, rest + index[top].parents, seen + {top}, reached)
    ensures Walk(index, current, rest + [top], seen, reached).revs
         == [top] + Walk(index, current, rest + index[top].parents, seen + {top}, reached).revs
  {
    assert top in rest + [top];
    WalkVisits(index, current, rest, top, seen, reached);
    VisitKeepsInv(index, current, head, rest, top, seen, reached);
    VisitKeepsStack(index, current, head, rest, top, seen);
  }

  lemma VisitStaysFirst(index: Index, current: Rev, head: Rev, rest: seq<Rev>, top: Rev, seen: set<Rev>, reached: bool, all: set<Rev>)
    requires InOrder(index, current, head, rest + [top], seen, reached) && top !in seen && top != current && top in index
    requires InOrder(index, current, head, rest + index[top].parents, seen + {top}, reached) && Exactly(index, current, head, all)
    requires ChildrenFirst(index, all, seen + {top}, Walk(index, current, rest + index[top].parents, seen + {top}, reached).revs)
    ensures ChildrenFirst(index, all, seen, Walk(index, current, rest + [top], seen, reached).revs)
  {
    VisitInOrder(index, current, head, rest, top, seen, reached);
    AllChildrenAreSeen(index, current, head, rest, top, seen, reached, all);
    ChildrenFirstCons(index, all, seen, top, Walk(index, current, rest + index[top].parents, seen + {top}, reached).revs);
  }

  /** The set of all pending revisions. */
  ghost predicate Exactly(index: Index, current: Rev, head: Rev, all: set<Rev>) {
    forall rev :: rev in all <==> Pending(index, current, head, rev)
  }

  /** One visit of a walk that ends. */
  lemma WalkVisits(index: Index, current: Rev, rest: seq<Rev>, top: Rev, seen: set<Rev>, reached: bool)
    requires AllIn(index, rest + [top]) && top in index && top !in seen && top != current
    requires Walk(index, current, rest + [top], seen, reached).Done?
    ensures AllIn(index, index[top].parents) && AllIn(index, rest + index[top].parents)
    ensures Walk(index, current, rest + index[top].parents, seen + {top}, reached).Done?
    ensures Walk(index, current, rest + [top], seen, reached).revs
         == [top] + Walk(index, current, rest + index[top].parents, seen + {top}, reached).revs
  {
    FirstMissingSpec(index, index[top].parents);
    AllInJoined(index, rest, [top]);
    AllInJoined(index, rest, index[top].parents);
    Visit(index, current, rest, top, seen, reached);
  }

  lemma AllChildrenAreSeen(index: Index, current: Rev, head: Rev, rest: seq<Rev>, top: Rev, seen: set<Rev>, reached: bool, all: set<Rev>)
    requires WalkInv(index, current, head, rest + [top], seen, reached) && StackOk(index, current, rest + [top], seen)
    requires WellOrdered(index, current, head) && top !in seen && top != current && top in index
    requires Exactly(index, current, head, all)
    ensures ChildrenSeen(index, all, top, seen)
  {
    forall c | c in all && c in index && top in index[c].parents ensures c in seen {
      ChildrenAreSeen(index, current, head, rest, top, seen, reached, c);
    }
  }

  /** In visiting order, a revision reached from another comes no earlier. */
  lemma {:induction false} PathDescends(index: Index, current: Rev, visited: seq<Rev>, p: seq<Rev>, from: nat, to: nat)
    requires OldestLast(index, visited) && NoDup(visited) && from < |visited| && to < |visited|
    requires |p| > 0 && Path(index, current, p[0], p) && p[0] == visited[from] && p[|p| - 1] == visited[to]
    requires forall i :: 0 <= i < |p| ==> p[i] in visited
    ensures from <= to
    decreases |p|
  {
    if |p| > 1 {
      var k :| 0 <= k < |visited| && visited[k] == p[1];
      var q := p[1..];
      assert forall i :: 0 <= i < |q| ==> q[i] == p[i + 1];
      PathDescends(index, current, visited, q, k, to);
      assert p[0 + 1] in index[p[0]].parents;
    }
  }

  /** Newest first, as the walk visits: every revision comes before all of its parents. */
  ghost predicate OldestLast(index: Index, visited: seq<Rev>) {
    forall a, b :: 0 <= a < |visited| && 0 <= b < |visited| && visited[b] in index && visited[a] in index[visited[b]].parents ==> b < a
  }

  ghost predicate AllPending(index: Index, current: Rev, head: Rev, visited: seq<Rev>) {
    NoDup(visited) && forall rev :: rev in visited <==> Pending(index, current, head, rev)
  }

  lemma Descends(index: Index, current: Rev, head: Rev, visited: seq<Rev>, from: nat, to: nat)
    requires OldestLast(index, visited) && AllPending(index, current, head, visited) && from < |visited| && to < |visited|
    requires Pending(index, current, visited[from], visited[to])
    ensures from <= to
  {
    var p :| Path(index, current, visited[from], p) && p[|p| - 1] == visited[to];
    assert visited[from] in visited;
    forall i | 0 <= i < |p| ensures p[i] in visited {
      assert Path(index, current, visited[from], p[..i + 1]) && p[..i + 1][i] == p[i];
      ReachesTogether(index, current, head, visited[from], p[i]);
    }
    PathDescends(index, current, visited, p, from, to);
  }

  /** A list in order has no cycle. */
  lemma OrderedIsAcyclic(index: Index, current: Rev, head: Rev, visited: seq<Rev>)
    requires OldestLast(index, visited) && AllPending(index, current, head, visited)
    ensures Acyclic(index, current, head)
  {
    forall rev, p | Pending(index, current, head, rev) && rev in index && p in index[rev].parents ensures !Pending(index, current, p, rev) {
      if Pending(index, current, p, rev) {
        ReachesEnds(index, current, p, rev);
        PendingStep(index, current, head, rev, p);
        assert rev in visited && p in visited;
        var b :| 0 <= b < |visited| && visited[b] == rev;
        var a :| 0 <= a < |visited| && visited[a] == p;
        Descends(index, current, head, visited, a, b);
        assert false;
      }
    }
  }

  // ----- a graph listed oldest first is well ordered -----

  ghost predicate AllIn(index: Index, revs: seq<Rev>) {
    forall f :: f in revs ==> f in index
  }

  lemma AllInJoined(index: Index, low: seq<Rev>, high: seq<Rev>)
    ensures AllIn(index, low + high) <==> AllIn(index, low) && AllIn(index, high)
  {
    assert forall f :: f in low + high <==> f in low || f in high;
  }

  /** The walk finishes what stands on top of the stack before it turns to what is below. */
  ghost predicate Splits(index: Index, current: Rev, low: seq<Rev>, high: seq<Rev>, seen: set<Rev>, reached: bool)
    requires AllIn(index, low) && AllIn(index, high) && AllIn(index, low + high)
  {
    var top := Walk(index, current, high, seen, reached);
    && top.Done?
    && Walk(index, current, low + high, seen, reached)
       == Resumed(top.revs, Walk(index, current, low, seen + Elements(top.revs), top.reached))
  }

  lemma {:induction false} WalkSplit(index: Index, current: Rev, low: seq<Rev>, high: seq<Rev>, seen: set<Rev>, reached: bool)
    requires AllIn(index, low) && AllIn(index, high) && AllIn(index, low + high)
    requires Walk(index, current, low + high, seen, reached).Done?
    ensures Splits(index, current, low, high, seen, reached)
    decreases index.Keys - seen, |high|
  {
    if high == [] {
      NothingAbove(index, current, low, seen, reached);
    } else {
      var rest, top := high[..|high| - 1], high[|high| - 1];
      assert high == rest + [top];
      if top in seen || top == current {
        SkipOver(index, current, low, rest, top, seen, reached);
        WalkSplit(index, current, low, rest, seen, top !in seen || reached);
        SplitSkip(index, current, low, rest, top, seen, reached);
      } else {
        VisitOver(index, current, low, rest, top, seen, reached);
        WalkSplit(index, current, low, rest + index[top].parents, seen + {top}, reached);
        SplitVisit(index, current, low, rest, top, seen, reached);
      }
    }
  }

  lemma SkipOver(index: Index, current: Rev, low: seq<Rev>, rest: seq<Rev>, top: Rev, seen: set<Rev>, reached: bool)
    requires AllIn(index, low) && AllIn(index, rest + [top]) && AllIn(index, low + (rest + [top])) && (top in seen || top == current)
    requires Walk(index, current, low + (rest + [top]), seen, reached).Done?
    ensures top in index && AllIn(index, rest) && AllIn(index, low + rest)
    ensures Walk(index, current, low + rest, seen, top !in seen || reached).Done?
  {
    Stacked(index, low, rest, [top]);
    WalkSkips(index, current, low + rest, top, seen, reached);
  }

  lemma VisitOver(index: Index, current: Rev, low: seq<Rev>, rest: seq<Rev>, top: Rev, seen: set<Rev>, reached: bool)
    requires AllIn(index, low) && AllIn(index, rest + [top]) && AllIn(index, low + (rest + [top])) && top !in seen && top != current
    requires Walk(index, current, low + (rest + [top]), seen, reached).Done?
    ensures top in index && AllIn(index, rest) && AllIn(index, index[top].parents)
    ensures AllIn(index, rest + index[top].parents) && AllIn(index, low + (rest + index[top].parents))
    ensures Walk(index, current, low + (rest + index[top].parents), seen + {top}, reached).Done?
  {
    Stacked(index, low, rest, [top]);
    WalkVisits(index, current, low + rest, top, seen, reached);
    Stacked(index, low, rest, index[top].parents);
  }

  lemma Stacked(index: Index, low: seq<Rev>, rest: seq<Rev>, tops: seq<Rev>)
    requires AllIn(index, low)
    ensures low + (rest + tops) == low + rest + tops
    ensures AllIn(index, rest + tops) <==> AllIn(index, rest) && AllIn(index, tops)
    ensures AllIn(index, low + rest + tops) <==> AllIn(index, rest) && AllIn(index, tops)
    ensures AllIn(index, low + rest) <==> AllIn(index, rest)
    ensures |tops| == 1 && AllIn(index, tops) ==> tops[0] in index
  {
    AllInJoined(index, low, rest);
    AllInJoined(index, rest, tops);
    AllInJoined(index, low + rest, tops);
  }

  lemma WalkSkips(index: Index, current: Rev, rest: seq<Rev>, top: Rev, seen: set<Rev>, reached: bool)
    requires AllIn(index, rest) && AllIn(index, rest + [top]) && (top in seen || top == current)
    ensures Walk(index, current, rest + [top], seen, reached) == Walk(index, current, rest, seen, top !in seen || reached)
  {
    assert (rest + [top])[..|rest|] == rest;
  }

  lemma SplitSkip(index: Index, current: Rev, low: seq<Rev>, rest: seq<Rev>, top: Rev, seen: set<Rev>, reached: bool)
    requires AllIn(index, low) && AllIn(index, rest) && AllIn(index, low + rest) && (top in seen || top == current) && top in index
    requires Splits(index, current, low, rest, seen, top !in seen || reached)
    ensures AllIn(index, rest + [top]) && AllIn(index, low + (rest + [top]))
    ensures Splits(index, current, low, rest + [top], seen, reached)
  {
    Stacked(index, low, rest, [top]);
    WalkSkips(index, current, rest, top, seen, reached);
    WalkSkips(index, current, low + rest, top, seen, reached);
  }

  lemma NothingAbove(index: Index, current: Rev, low: seq<Rev>, seen: set<Rev>, reached: bool)
    requires AllIn(index, low) && AllIn(index, low + []) && Walk(index, current, low + [], seen, reached).Done?
    ensures Splits(index, current, low, [], seen, reached)
  {
    var none: seq<Rev> := [];
    assert low + none == low && seen + Elements(none) == seen;
    var rest := Walk(index, current, low, seen, reached);
    assert none + rest.revs == rest.revs;
  }

  lemma SplitVisit(index: Index, current: Rev, low: seq<Rev>, rest: seq<Rev>, top: Rev, seen: set<Rev>, reached: bool)
    requires AllIn(index, low) && AllIn(index, rest) && top in index && AllIn(index, index[top].parents) && top !in seen && top != current
    requires AllIn(index, rest + index[top].parents) && AllIn(index, low + (rest + index[top].parents))
    requires Splits(index, current, low, rest + index[top].parents, seen + {top}, reached)
    ensures AllIn(index, rest + [top]) && AllIn(index, low + (rest + [top]))
    ensures Splits(index, current, low, rest + [top], seen, reached)
  {
    Stacked(index, low, rest, [top]);
    Stacked(index, low, rest, index[top].parents);
    Visit(index, current, rest, top, seen, reached);
    Visit(index, current, low + rest, top, seen, reached);
    var above := Walk(index, current, rest + index[top].parents, seen + {top}, reached);
    SeenWith(seen, top, above.revs);
    ResumedTwice([top], above.revs, Walk(index, current, low, seen + {top} + Elements(above.revs), above.reached));
  }

  lemma SeenWith(seen: set<Rev>, top: Rev, revs: seq<Rev>)
    ensures seen + {top} + Elements(revs) == seen + Elements([top] + revs)
  {
    assert Elements([top] + revs) == {top} + Elements(revs);
  }

  lemma ResumedTwice(first: seq<Rev>, second: seq<Rev>, tail: Walked)
    ensures Resumed(first, Resumed(second, tail)) == Resumed(first + second, tail)
  {
    if tail.Done? {
      assert first + (second + tail.revs) == first + second + tail.revs;
    }
  }

  /** What a walk visits was reached from its stack. */
  lemma {:induction false} VisitedIsReached(index: Index, current: Rev, frontier: seq<Rev>, seen: set<Rev>, reached: bool, z: Rev)
    requires forall f :: f in frontier ==> f in index
    requires Walk(index, current, frontier, seen, reached).Done? && z in Walk(index, current, frontier, seen, reached).revs
    ensures z !in seen && Covered(index, current, z, frontier)
    decreases index.Keys - seen, |frontier|
  {
    var rest, top := frontier[..|frontier| - 1], frontier[|frontier| - 1];
    if top in seen || top == current {
      VisitedIsReached(index, current, rest, seen, if top in seen then reached else true, z);
      var k :| 0 <= k < |rest| && Pending(index, current, rest[k], z);
      assert frontier[k] == rest[k];
    } else {
      FirstMissingSpec(index, index[top].parents);
      assert Path(index, current, top, [top]) && [top][0] == top;
      if z != top {
        var more := rest + index[top].parents;
        VisitedIsReached(index, current, more, seen + {top}, reached, z);
        var k :| 0 <= k < |more| && Pending(index, current, more[k], z);
        if k < |rest| {
          assert frontier[k] == more[k];
        } else {
          assert more[k] in index[top].parents;
          ReachesEnds(index, current, more[k], z);
          ReachesParent(index, current, top, more[k]);
          ReachesTogether(index, current, top, more[k], z);
        }
      }
    }
  }

  /** A walk leaves nothing unseen of its stack, nor of the parents of what it visits. */
  lemma {:induction false} WalkIsClosed(index: Index, current: Rev, frontier: seq<Rev>, seen: set<Rev>, reached: bool)
    requires forall f :: f in frontier ==> f in index
    requires Walk(index, current, frontier, seen, reached).Done?
    ensures var done := seen + Elements(Walk(index, current, frontier, seen, reached).revs);
            && (forall f :: f in frontier ==> f in done || f == current)
            && (forall rev, q :: rev in Walk(index, current, frontier, seen, reached).revs && rev in index && q in index[rev].parents ==> q in done || q == current)
    decreases index.Keys - seen, |frontier|
  {
    if frontier != [] {
      var rest, top := frontier[..|frontier| - 1], frontier[|frontier| - 1];
      assert frontier == rest + [top];
      if top in seen || top == current {
        WalkIsClosed(index, current, rest, seen, if top in seen then reached else true);
      } else {
        FirstMissingSpec(index, index[top].parents);
        WalkIsClosed(index, current, rest + index[top].parents, seen + {top}, reached);
        var tail := Walk(index, current, rest + index[top].parents, seen + {top}, reached);
        assert Elements([top] + tail.revs) == {top} + Elements(tail.revs);
        assert forall f :: f in rest ==> f in rest + index[top].parents;
        assert forall f :: f in index[top].parents ==> f in rest + index[top].parents;
        forall rev, q | rev in [top] + tail.revs && rev in index && q in index[rev].parents
          ensures q in seen + Elements([top] + tail.revs) || q == current
        {
          assert seen + {top} + Elements(tail.revs) == seen + Elements([top] + tail.revs);
          if rev == top {
            assert q in rest + index[top].parents;
          } else {
            assert rev in tail.revs;
          }
        }
        assert Walk(index, current, frontier, seen, reached).revs == [top] + tail.revs;
      }
    }
  }

  /** So it visits everything that a waiting revision reaches, if all of that is unseen. */
  lemma {:induction false} WalkVisitsPath(index: Index, current: Rev, frontier: seq<Rev>, seen: set<Rev>, reached: bool, p: seq<Rev>)
    requires forall f :: f in frontier ==> f in index
    requires Walk(index, current, frontier, seen, reached).Done?
    requires |p| > 0 && p[0] in frontier && Path(index, current, p[0], p) && forall i :: 0 <= i < |p| ==> p[i] !in seen
    ensures p[|p| - 1] in Walk(index, current, frontier, seen, reached).revs
    decreases |p|
  {
    WalkIsClosed(index, current, frontier, seen, reached);
    var last := p[|p| - 1];
    assert last !in seen && last != current;
    if |p| > 1 {
      var shorter := p[..|p| - 1];
      assert Path(index, current, p[0], shorter);
      WalkVisitsPath(index, current, frontier, seen, reached, shorter);
      assert p[|p| - 2 + 1] in index[p[|p| - 2]].parents;
    }
    assert last in seen + Elements(Walk(index, current, frontier, seen, reached).revs);
  }

  /** At the visit of a merge in a list that comes out ordered: its parents are in order. `visited` is the whole visiting
      order, `before` the part up to this visit. */
  lemma VisitedMergeIsOrdered(index: Index, current: Rev, head: Rev, visited: seq<Rev>, before: seq<Rev>, rest: seq<Rev>, rev: Rev, reached: bool)
    requires OldestLast(index, visited) && AllPending(index, current, head, visited)
    requires rev in index && rev != current && rev !in before && forall f :: f in rest + index[rev].parents ==> f in index
    requires var tail := Walk(index, current, rest + index[rev].parents, Elements(before) + {rev}, reached);
             tail.Done? && visited == before + [rev] + tail.revs
    ensures MergeOrdered(index, current, index[rev].parents)
  {
    var parents := index[rev].parents;
    forall i | 0 <= i < |parents| && !Covered(index, current, parents[i], parents[i + 1..])
      ensures Apart(index, current, parents[i], parents[i + 1..])
    {
      var above := parents[i + 1..];
      forall k, z | 0 <= k < |above| && Pending(index, current, parents[i], z) ensures !Pending(index, current, above[k], z) {
        if Pending(index, current, above[k], z) {
          SharedIsEarly(index, current, head, visited, before, rest, rev, reached, i, k, z);
          assert false;
        }
      }
    }
  }

  /** In an ordered list nothing that `rev` reaches was visited before it. */
  lemma NothingReachedBefore(index: Index, current: Rev, head: Rev, visited: seq<Rev>, before: seq<Rev>, rev: Rev, after: seq<Rev>, z: Rev)
    requires OldestLast(index, visited) && AllPending(index, current, head, visited) && visited == before + [rev] + after
    requires Pending(index, current, rev, z)
    ensures z !in before
  {
    if a :| 0 <= a < |before| && before[a] == z {
      assert visited[a] == z && visited[|before|] == rev;
      Descends(index, current, head, visited, |before|, a);
      assert false;
    }
  }

  /** What a later parent reaches is visited before an earlier parent that the later ones do not reach; so the earlier one
      cannot reach it. */
  lemma SharedIsEarly(index: Index, current: Rev, head: Rev, visited: seq<Rev>, before: seq<Rev>, rest: seq<Rev>, rev: Rev, reached: bool,
                      i: nat, k: nat, z: Rev)
    requires OldestLast(index, visited) && AllPending(index, current, head, visited)
    requires rev in index && rev != current && rev !in before && forall f :: f in rest + index[rev].parents ==> f in index
    requires var tail := Walk(index, current, rest + index[rev].parents, Elements(before) + {rev}, reached);
             tail.Done? && visited == before + [rev] + tail.revs
    requires i < |index[rev].parents| && k < |index[rev].parents[i + 1..]|
    requires Pending(index, current, index[rev].parents[i], z) && Pending(index, current, index[rev].parents[i + 1..][k], z)
    ensures Covered(index, current, index[rev].parents[i], index[rev].parents[i + 1..])
  {
    var parents := index[rev].parents;
    var early, high, low := parents[i], parents[i + 1..], rest + parents[..i + 1];
    var seen := Elements(before) + {rev};
    assert rest + parents == low + high;
    AllInJoined(index, low, high);
    WalkSplit(index, current, low, high, seen, reached);
    var top := Walk(index, current, high, seen, reached);
    var below := Walk(index, current, low, seen + Elements(top.revs), top.reached);
    assert visited == before + [rev] + (top.revs + below.revs);
    LaterParentVisits(index, current, head, visited, before, rev, high, reached, top.revs + below.revs, k, z);
    EarlyParent(index, current, head, visited, before, rev, top.revs, below.revs, early, z);
    VisitedIsReached(index, current, high, seen, reached, early);
  }

  lemma LaterParentVisits(index: Index, current: Rev, head: Rev, visited: seq<Rev>, before: seq<Rev>, rev: Rev, high: seq<Rev>, reached: bool,
                          after: seq<Rev>, k: nat, z: Rev)
    requires OldestLast(index, visited) && AllPending(index, current, head, visited) && visited == before + [rev] + after
    requires rev in index && rev != current && k < |high| && high[k] in index[rev].parents && Pending(index, current, high[k], z)
    requires forall f :: f in high ==> f in index
    requires Walk(index, current, high, Elements(before) + {rev}, reached).Done?
    ensures z in Walk(index, current, high, Elements(before) + {rev}, reached).revs
  {
    var p :| Path(index, current, high[k], p) && p[|p| - 1] == z;
    forall t | 0 <= t < |p| ensures p[t] !in Elements(before) + {rev} {
      assert Path(index, current, high[k], p[..t + 1]) && p[..t + 1][t] == p[t];
      ReachedIsNotVisited(index, current, head, visited, before, rev, after, high[k], p[t]);
    }
    WalkVisitsPath(index, current, high, Elements(before) + {rev}, reached, p);
  }

  /** When `rev` is visited, nothing its parents reach has been. */
  lemma ReachedIsNotVisited(index: Index, current: Rev, head: Rev, visited: seq<Rev>, before: seq<Rev>, rev: Rev, after: seq<Rev>,
                            parent: Rev, z: Rev)
    requires OldestLast(index, visited) && AllPending(index, current, head, visited) && visited == before + [rev] + after
    requires rev in index && rev != current && parent in index[rev].parents && Pending(index, current, parent, z)
    ensures z !in Elements(before) + {rev}
  {
    assert visited[|before|] == rev;
    OrderedIsAcyclic(index, current, head, visited);
    ReachesEnds(index, current, parent, z);
    ReachesParent(index, current, rev, parent);
    ReachesTogether(index, current, rev, parent, z);
    NothingReachedBefore(index, current, head, visited, before, rev, after, z);
  }

  /** The earlier parent reaches `z`, so it was visited no later, and after `rev`. */
  lemma EarlyParent(index: Index, current: Rev, head: Rev, visited: seq<Rev>, before: seq<Rev>, rev: Rev, top: seq<Rev>, below: seq<Rev>,
                    early: Rev, z: Rev)
    requires OldestLast(index, visited) && AllPending(index, current, head, visited) && visited == before + [rev] + (top + below)
    requires rev in index && rev != current && early in index[rev].parents && z in top && Pending(index, current, early, z)
    ensures early in top
  {
    var at := |before|;
    assert visited[at] == rev && rev in visited;
    ReachesEnds(index, current, early, z);
    ReachesParent(index, current, rev, early);
    ReachesTogether(index, current, head, rev, early);
    assert early in visited;
    var b :| 0 <= b < |visited| && visited[b] == early;
    var a :| 0 <= a < |top| && top[a] == z;
    assert visited[at + 1 + a] == z;
    Descends(index, current, head, visited, b, at + 1 + a);
    assert visited[b] in index[visited[at]].parents;
    assert early == top[b - at - 1];
  }

  /** The walk from here visits the rest of `visited`. */
  ghost predicate Remaining(index: Index, current: Rev, visited: seq<Rev>, before: seq<Rev>, frontier: seq<Rev>, reached: bool) {
    && AllIn(index, frontier)
    && var walked := Walk(index, current, frontier, Elements(before), reached);
       walked.Done? && visited == before + walked.revs
  }

  lemma SomeRemain(index: Index, current: Rev, visited: seq<Rev>, before: seq<Rev>, frontier: seq<Rev>, reached: bool, m: Rev)
    requires Remaining(index, current, visited, before, frontier, reached) && m in visited && m !in before
    ensures frontier != []
  {
  }

  lemma RemainingSkip(index: Index, current: Rev, visited: seq<Rev>, before: seq<Rev>, rest: seq<Rev>, top: Rev, reached: bool)
    requires Remaining(index, current, visited, before, rest + [top], reached) && (top in before || top == current)
    ensures Remaining(index, current, visited, before, rest, top !in before || reached)
  {
    AllInJoined(index, rest, [top]);
    WalkSkips(index, current, rest, top, Elements(before), reached);
  }

  lemma RemainingVisit(index: Index, current: Rev, visited: seq<Rev>, before: seq<Rev>, rest: seq<Rev>, top: Rev, reached: bool)
    requires Remaining(index, current, visited, before, rest + [top], reached) && top !in before && top != current
    ensures top in index && Remaining(index, current, visited, before + [top], rest + index[top].parents, reached)
    ensures Elements(before + [top]) == Elements(before) + {top}
  {
    assert top in rest + [top];
    WalkVisits(index, current, rest, top, Elements(before), reached);
    assert Elements(before + [top]) == Elements(before) + {top};
    var tail := Walk(index, current, rest + index[top].parents, Elements(before) + {top}, reached);
    assert before + ([top] + tail.revs) == before + [top] + tail.revs;
  }

  lemma {:induction false} MergesAreOrdered(index: Index, current: Rev, head: Rev, visited: seq<Rev>, before: seq<Rev>, frontier: seq<Rev>,
                                            reached: bool, m: Rev)
    requires OldestLast(index, visited) && AllPending(index, current, head, visited)
    requires Remaining(index, current, visited, before, frontier, reached) && m in visited && m !in before
    ensures m in index && MergeOrdered(index, current, index[m].parents)
    decreases index.Keys - Elements(before), |frontier|
  {
    SomeRemain(index, current, visited, before, frontier, reached, m);
    var rest, top := frontier[..|frontier| - 1], frontier[|frontier| - 1];
    assert frontier == rest + [top];
    if top in before || top == current {
      RemainingSkip(index, current, visited, before, rest, top, reached);
      MergesAreOrdered(index, current, head, visited, before, rest, top !in before || reached, m);
    } else {
      RemainingVisit(index, current, visited, before, rest, top, reached);
      if m == top {
        VisitedMergeIsOrdered(index, current, head, visited, before, rest, top, reached);
      } else {
        MergesAreOrdered(index, current, head, visited, before + [top], rest + index[top].parents, reached, m);
      }
    }
  }

  // ----- both directions -----

  lemma ReversedOrders(index: Index, visited: seq<Rev>)
    ensures OldestFirst(index, Reversed(visited)) <==> OldestLast(index, visited)
  {
    ReversedHas(visited);
    var n, list := |visited|, Reversed(visited);
    if OldestFirst(index, list) {
      forall a, b | 0 <= a < n && 0 <= b < n && visited[b] in index && visited[a] in index[visited[b]].parents ensures b < a {
        assert list[n - 1 - b] == visited[b] && list[n - 1 - a] == visited[a];
      }
    }
    if OldestLast(index, visited) {
      forall i, j | 0 <= i < n && 0 <= j < n && list[i] in index && list[j] in index[list[i]].parents ensures j < i {
        assert visited[n - 1 - i] == list[i] && visited[n - 1 - j] == list[j];
      }
    }
  }

  lemma FirstIsLast(index: Index, visited: seq<Rev>)
    requires NoDup(visited) && ChildrenFirst(index, Elements(visited), {}, visited)
    ensures OldestLast(index, visited)
  {
    forall a, b | 0 <= a < |visited| && 0 <= b < |visited| && visited[b] in index && visited[a] in index[visited[b]].parents ensures b < a {
      assert visited[b] in visited[..a];
    }
  }

  /** The list is oldest first if and only if no pending revision is its own ancestor and, inside each pending merge, every
      parent is reached from a later one or shares nothing with the later ones. */
  lemma ListedOldestFirstIff(index: Index, current: Rev, head: Rev)
    requires PendingList(index, current, head).Ok?
    ensures OldestFirst(index, PendingList(index, current, head).value) <==> WellOrdered(index, current, head)
  {
    if head == current {
      PendingListIsExact(index, current, head);
      assert forall rev :: !Pending(index, current, head, rev);
    } else {
      var visited := Walk(index, current, [head], {}, current == "").revs;
      ListIsVisited(index, current, head, visited);
      ReversedOrders(index, visited);
      if WellOrdered(index, current, head) {
        VisitsInOrder(index, current, head, visited);
      }
      if OldestLast(index, visited) {
        VisitedIsWellOrdered(index, current, head, visited);
      }
    }
  }

  lemma ListIsVisited(index: Index, current: Rev, head: Rev, visited: seq<Rev>)
    requires PendingList(index, current, head).Ok? && head != current
    requires visited == Walk(index, current, [head], {}, current == "").revs
    ensures PendingList(index, current, head).value == Reversed(visited) && AllPending(index, current, head, visited)
  {
    PendingListIsExact(index, current, head);
    ReversedMembers(visited);
    VisitedOnce(visited);
    forall rev ensures rev in visited <==> Pending(index, current, head, rev) {
      assert rev in Elements(visited) <==> rev in Elements(Reversed(visited));
    }
  }

  lemma VisitsInOrder(index: Index, current: Rev, head: Rev, visited: seq<Rev>)
    requires head in index && head != current && AllPending(index, current, head, visited) && WellOrdered(index, current, head)
    requires Walk(index, current, [head], {}, current == "").Done? && visited == Walk(index, current, [head], {}, current == "").revs
    ensures OldestLast(index, visited)
  {
    StackOfHead(index, current, head);
    OrderedWalk(index, current, head, [head], {}, current == "", Elements(visited));
    FirstIsLast(index, visited);
  }

  lemma StackOfHead(index: Index, current: Rev, head: Rev)
    requires head in index && head != current
    ensures WalkInv(index, current, head, [head], {}, current == "") && StackOk(index, current, [head], {})
  {
    assert Path(index, current, head, [head]) && [head][0] == head;
    assert |[head][1..]| == 0;
  }

  lemma VisitedIsWellOrdered(index: Index, current: Rev, head: Rev, visited: seq<Rev>)
    requires head in index && AllPending(index, current, head, visited) && OldestLast(index, visited)
    requires Walk(index, current, [head], {}, current == "").Done? && visited == Walk(index, current, [head], {}, current == "").revs
    ensures WellOrdered(index, current, head)
  {
    OrderedIsAcyclic(index, current, head, visited);
    forall rev | Pending(index, current, head, rev) && rev in index ensures MergeOrdered(index, current, index[rev].parents) {
      var none: seq<Rev> := [];
      assert Elements(none) == {} && none + visited == visited && rev in visited;
      MergesAreOrdered(index, current, head, visited, none, [head], current == "", rev);
    }
  }

  lemma VisitedOnce(visited: seq<Rev>)
    requires NoDup(Reversed(visited))
    ensures NoDup(visited)
  {
    ReversedHas(visited);
    var n, list := |visited|, Reversed(visited);
    forall i, j | 0 <= i < j < n ensures visited[i] != visited[j] {
      assert list[n - 1 - i] == visited[i] && list[n - 1 - j] == visited[j];
    }
  }
}
