/** scripts/migration_guard.py: which revisions a deploy would apply, and how one call expression is cut out of source text. */
module MigrationGuard {
  import opened Common

  type Rev = string

  datatype Entry = Entry(path: string, parents: seq<Rev>)

  type Index = map<Rev, Entry>

  datatype ChainError = UnknownHead | UnknownCurrent | MissingParent(child: Rev, parent: Rev) | Unrelated | Unparsed | Duplicate(rev: Rev)

  // ----- reading the versions directory -----

  /** One file of the versions directory; `parsed` is what the revision and down_revision patterns extract. */
  datatype File = File(name: string, parsed: Option<(Rev, seq<Rev>)>)

  predicate Skipped(file: File) {
    |file.name| >= 2 && file.name[..2] == "__"
  }

  function IndexOf(files: seq<File>): Result<Index, ChainError> {
    if files == [] then Ok(map[])
    else
      var file, before := files[|files| - 1], IndexOf(files[..|files| - 1]);
      if before.Err? || Skipped(file) then before
      else if file.parsed.None? then Err(Unparsed)
      else if file.parsed.value.0 in before.value then Err(Duplicate(file.parsed.value.0))
      else Ok(before.value[file.parsed.value.0 := Entry(file.name, file.parsed.value.1)])
  }

  method BuildIndex(files: seq<File>) returns (r: Result<Index, ChainError>)
    ensures r == IndexOf(files)
  {
    var index: Index := map[];
    for k := 0 to |files|
      invariant IndexOf(files[..k]) == Ok(index)
    {
      assert files[..k + 1][..k] == files[..k];
      if !Skipped(files[k]) {
        if files[k].parsed.None? {
          ErrorsStick(files, k + 1);
          return Err(Unparsed);
        }
        var (rev, parents) := files[k].parsed.value;
        if rev in index {
          ErrorsStick(files, k + 1);
          return Err(Duplicate(rev));
        }
        index := index[rev := Entry(files[k].name, parents)];
      }
    }
    assert files[..|files|] == files;
    return Ok(index);
  }

  lemma {:induction false} ErrorsStick(files: seq<File>, k: nat)
    requires k <= |files| && IndexOf(files[..k]).Err?
    ensures IndexOf(files) == IndexOf(files[..k])
  {
    if k < |files| {
      var n := |files| - 1;
      assert files[..n][..k] == files[..k];
      ErrorsStick(files[..n], k);
    } else {
      assert files[..k] == files;
    }
  }

  predicate FileDeclares(file: File, rev: Rev) {
    !Skipped(file) && file.parsed.Some? && file.parsed.value.0 == rev
  }

  /** The file `i` is read and declares `rev`. */
  predicate Declares(files: seq<File>, i: nat, rev: Rev) {
    i < |files| && FileDeclares(files[i], rev)
  }

  ghost predicate Declared(files: seq<File>, rev: Rev) {
    exists i: nat :: Declares(files, i, rev)
  }

  ghost predicate AllParsed(files: seq<File>) {
    forall i :: 0 <= i < |files| && !Skipped(files[i]) ==> files[i].parsed.Some?
  }

  /** No revision is declared twice. */
  ghost predicate DeclaredOnce(files: seq<File>) {
    forall i: nat, j: nat, rev :: i < j && Declares(files, i, rev) ==> !Declares(files, j, rev)
  }

  /** The index holds the path and the parents of every declared revision and nothing else. */
  ghost predicate Holds(index: Index, files: seq<File>) {
    && (forall rev :: rev in index <==> Declared(files, rev))
    && (forall i: nat, rev :: Declares(files, i, rev) ==> rev in index && index[rev] == Entry(files[i].name, files[i].parsed.value.1))
  }

  lemma DeclaresSnoc(front: seq<File>, last: File, i: nat, rev: Rev)
    ensures Declares(front + [last], i, rev) <==> Declares(front, i, rev) || (i == |front| && FileDeclares(last, rev))
  {
  }

  lemma DeclaredSnoc(front: seq<File>, last: File, rev: Rev)
    ensures Declared(front + [last], rev) <==> Declared(front, rev) || FileDeclares(last, rev)
  {
    DeclaresSnoc(front, last, |front|, rev);
    if i: nat :| Declares(front, i, rev) {
      DeclaresSnoc(front, last, i, rev);
    }
    if i: nat :| Declares(front + [last], i, rev) {
      DeclaresSnoc(front, last, i, rev);
    }
  }

  lemma AllParsedSnoc(front: seq<File>, last: File)
    ensures AllParsed(front + [last]) <==> AllParsed(front) && (Skipped(last) || last.parsed.Some?)
  {
    var files := front + [last];
    assert files[|front|] == last && forall i :: 0 <= i < |front| ==> files[i] == front[i];
  }

  lemma DeclaredOnceSnoc(front: seq<File>, last: File)
    ensures DeclaredOnce(front + [last]) <==> DeclaredOnce(front) && forall rev :: FileDeclares(last, rev) ==> !Declared(front, rev)
  {
    var files := front + [last];
    forall i: nat, rev ensures Declares(files, i, rev) <==> Declares(front, i, rev) || (i == |front| && FileDeclares(last, rev)) {
      DeclaresSnoc(front, last, i, rev);
    }
    if DeclaredOnce(files) {
      forall rev | FileDeclares(last, rev) ensures !Declared(front, rev) {
        assert Declares(files, |front|, rev);
      }
    }
  }

  lemma HoldsSnoc(index: Index, front: seq<File>, last: File)
    requires Holds(index, front) && !Skipped(last) && last.parsed.Some? && last.parsed.value.0 !in index
    ensures Holds(index[last.parsed.value.0 := Entry(last.name, last.parsed.value.1)], front + [last])
  {
    var rev := last.parsed.value.0;
    var longer, files := index[rev := Entry(last.name, last.parsed.value.1)], front + [last];
    forall r ensures r in longer <==> Declared(files, r) {
      DeclaredSnoc(front, last, r);
    }
    forall i: nat, r | Declares(files, i, r) ensures r in longer && longer[r] == Entry(files[i].name, files[i].parsed.value.1) {
      DeclaresSnoc(front, last, i, r);
      assert i < |front| ==> files[i] == front[i] && Declared(front, r);
    }
  }

  lemma HoldsSkipped(index: Index, front: seq<File>, last: File)
    requires Holds(index, front) && Skipped(last)
    ensures Holds(index, front + [last])
  {
    var files := front + [last];
    forall r ensures r in index <==> Declared(files, r) {
      DeclaredSnoc(front, last, r);
    }
    forall i: nat, r | Declares(files, i, r) ensures r in index && index[r] == Entry(files[i].name, files[i].parsed.value.1) {
      DeclaresSnoc(front, last, i, r);
      assert files[i] == front[i];
    }
  }

  lemma IndexSnoc(front: seq<File>, last: File)
    ensures IndexOf(front + [last]) ==
            if IndexOf(front).Err? || Skipped(last) then IndexOf(front)
            else if last.parsed.None? then Err(Unparsed)
            else if last.parsed.value.0 in IndexOf(front).value then Err(Duplicate(last.parsed.value.0))
            else Ok(IndexOf(front).value[last.parsed.value.0 := Entry(last.name, last.parsed.value.1)])
  {
    assert (front + [last])[..|front|] == front;
  }

  lemma NoFiles()
    ensures Holds(map[], [])
  {
    forall rev ensures !Declared([], rev) {
    }
  }

  /** The index exists exactly when every file read parses and no revision is declared twice, and then it holds the path
      and the parents of every declared revision and nothing else. */
  lemma {:induction false} IndexIsExact(files: seq<File>)
    ensures IndexOf(files).Ok? <==> AllParsed(files) && DeclaredOnce(files)
    ensures IndexOf(files).Ok? ==> Holds(IndexOf(files).value, files)
  {
    if files == [] {
      NoFiles();
    } else {
      var front, last := files[..|files| - 1], files[|files| - 1];
      IndexIsExact(front);
      assert files == front + [last];
      IndexSnoc(front, last);
      AllParsedSnoc(front, last);
      DeclaredOnceSnoc(front, last);
      if IndexOf(front).Ok? {
        var index := IndexOf(front).value;
        if Skipped(last) {
          HoldsSkipped(index, front, last);
        } else if last.parsed.Some? {
          var rev := last.parsed.value.0;
          assert FileDeclares(last, rev) && forall r :: FileDeclares(last, r) ==> r == rev;
          if rev !in index {
            HoldsSnoc(index, front, last);
          }
        }
      }
    }
  }

  // ----- the walk -----

  /** `p` leads from `head` to its last element along parent links and never visits `current`. */
  ghost predicate Path(index: Index, current: Rev, head: Rev, p: seq<Rev>) {
    && |p| > 0 && p[0] == head
    && (forall i :: 0 <= i < |p| ==> p[i] != current && p[i] in index)
    && (forall i :: 0 <= i < |p| - 1 ==> p[i] in index && p[i + 1] in index[p[i]].parents)
  }

  /** Reachable from `head` by a path that avoids `current`. */
  ghost predicate Pending(index: Index, current: Rev, head: Rev, rev: Rev) {
    exists p :: Path(index, current, head, p) && p[|p| - 1] == rev
  }

  datatype Walked = Done(revs: seq<Rev>, reached: bool) | Missing(child: Rev, parent: Rev)

  function FirstMissing(index: Index, parents: seq<Rev>): Option<Rev> {
    if parents == [] then None else if parents[0] !in index then Some(parents[0]) else FirstMissing(index, parents[1..])
  }

  lemma {:induction false} FirstMissingSpec(index: Index, parents: seq<Rev>)
    ensures FirstMissing(index, parents).None? <==> forall q :: q in parents ==> q in index
    ensures FirstMissing(index, parents).Some? ==> FirstMissing(index, parents).value in parents && FirstMissing(index, parents).value !in index
  {
    if parents != [] {
      FirstMissingSpec(index, parents[1..]);
      assert parents == [parents[0]] + parents[1..];
    }
  }

  /** The worklist loop: revisions in the order they are visited, and whether `current` was met. */
  function Walk(index: Index, current: Rev, frontier: seq<Rev>, seen: set<Rev>, reached: bool): Walked
    requires forall f :: f in frontier ==> f in index
    decreases index.Keys - seen, |frontier|
  {
    if frontier == [] then Done([], reached)
    else
      var rest, rev := frontier[..|frontier| - 1], frontier[|frontier| - 1];
      if rev in seen then Walk(index, current, rest, seen, reached)
      else if rev == current then Walk(index, current, rest, seen, true)
      else
        var missing := FirstMissing(index, index[rev].parents);
        if missing.Some? then Missing(rev, missing.value)
        else
          FirstMissingSpec(index, index[rev].parents);
          var tail := Walk(index, current, rest + index[rev].parents, seen + {rev}, reached);
          if tail.Done? then Done([rev] + tail.revs, tail.reached) else tail
  }

  function Reversed<T>(s: seq<T>): seq<T> {
    if s == [] then [] else Reversed(s[1..]) + [s[0]]
  }

  function WithPaths(index: Index, revs: seq<Rev>): seq<(Rev, string)>
    requires forall rev :: rev in revs ==> rev in index
  {
    seq(|revs|, i requires 0 <= i < |revs| => (revs[i], index[revs[i]].path))
  }

  /** pending_revisions as a value: the error it raises or the revisions it lists. */
  function PendingList(index: Index, current: Rev, head: Rev): Result<seq<Rev>, ChainError> {
    if head !in index then Err(UnknownHead)
    else if current != "" && current !in index then Err(UnknownCurrent)
    else if current == head then Ok([])
    else
      match Walk(index, current, [head], {}, current == "")
      case Missing(child, parent) => Err(MissingParent(child, parent))
      case Done(revs, reached) => if reached then Ok(Reversed(revs)) else Err(Unrelated)
  }

  method PushParents(index: Index, parents: seq<Rev>, frontier: seq<Rev>) returns (missing: Option<Rev>, pushed: seq<Rev>)
    ensures missing == FirstMissing(index, parents)
    ensures missing.None? ==> pushed == frontier + parents
  {
    pushed := frontier;
    for i := 0 to |parents|
      invariant pushed == frontier + parents[..i]
      invariant FirstMissing(index, parents) == FirstMissing(index, parents[i..])
    {
      assert parents[i..][1..] == parents[i + 1..];
      if parents[i] !in index {
        return Some(parents[i]), pushed;
      }
      pushed := pushed + [parents[i]];
    }
    assert parents[..|parents|] == parents;
    return None, pushed;
  }

  /** The worklist loop of pending_revisions. */
  method WalkLoop(index: Index, current: Rev, head: Rev) returns (walked: Walked)
    requires head in index
    ensures walked == Walk(index, current, [head], {}, current == "")
  {
    var collected: seq<Rev> := [];
    var seen: set<Rev> := {};
    var reached := current == "";
    var frontier := [head];
    while frontier != []
      invariant forall f :: f in frontier ==> f in index
      invariant Walk(index, current, [head], {}, current == "") == Resumed(collected, Walk(index, current, frontier, seen, reached))
      decreases index.Keys - seen, |frontier|
    {
      var rev := frontier[|frontier| - 1];
      var rest := frontier[..|frontier| - 1];
      if rev in seen {
        frontier := rest;
        continue;
      }
      if rev == current {
        reached, frontier := true, rest;
        continue;
      }
      FirstMissingSpec(index, index[rev].parents);
      var missing, pushed := PushParents(index, index[rev].parents, rest);
      if missing.Some? {
        return Missing(rev, missing.value);
      }
      ResumedStep(collected, rev, Walk(index, current, pushed, seen + {rev}, reached));
      seen, collected, frontier := seen + {rev}, collected + [rev], pushed;
    }
    assert collected + [] == collected;
    return Done(collected, reached);
  }

  lemma ResumedStep(before: seq<Rev>, rev: Rev, tail: Walked)
    ensures Resumed(before, if tail.Done? then Done([rev] + tail.revs, tail.reached) else tail) == Resumed(before + [rev], tail)
  {
    if tail.Done? {
      assert before + ([rev] + tail.revs) == before + [rev] + tail.revs;
    }
  }

  lemma {:induction false} WalkedAreIndexed(index: Index, current: Rev, frontier: seq<Rev>, seen: set<Rev>, reached: bool)
    requires forall f :: f in frontier ==> f in index
    ensures Walk(index, current, frontier, seen, reached).Done? ==>
              forall rev :: rev in Walk(index, current, frontier, seen, reached).revs ==> rev in index
    decreases index.Keys - seen, |frontier|
  {
    if frontier != [] {
      var rest, rev := frontier[..|frontier| - 1], frontier[|frontier| - 1];
      if rev in seen {
        WalkedAreIndexed(index, current, rest, seen, reached);
      } else if rev == current {
        WalkedAreIndexed(index, current, rest, seen, true);
      } else {
        FirstMissingSpec(index, index[rev].parents);
        if FirstMissing(index, index[rev].parents).None? {
          WalkedAreIndexed(index, current, rest + index[rev].parents, seen + {rev}, reached);
        }
      }
    }
  }

  method PendingRevisions(index: Index, current: Rev, head: Rev) returns (r: Result<seq<(Rev, string)>, ChainError>)
    ensures match PendingList(index, current, head)
            case Err(error) => r == Err(error)
            case Ok(revs) => (forall rev :: rev in revs ==> rev in index) && r == Ok(WithPaths(index, revs))
  {
    if head !in index {
      return Err(UnknownHead);
    }
    if current != "" && current !in index {
      return Err(UnknownCurrent);
    }
    if current == head {
      assert WithPaths(index, []) == [];
      return Ok([]);
    }
    var walked := WalkLoop(index, current, head);
    match walked
    case Missing(child, parent) =>
      return Err(MissingParent(child, parent));
    case Done(revs, reached) =>
      if !reached {
        return Err(Unrelated);
      }
      WalkedAreIndexed(index, current, [head], {}, current == "");
      ReversedHas(revs);
      return Ok(WithPaths(index, Reversed(revs)));
  }

  function Resumed(before: seq<Rev>, tail: Walked): Walked {
    if tail.Done? then Done(before + tail.revs, tail.reached) else tail
  }

  lemma {:induction false} ReversedHas<T>(s: seq<T>)
    ensures |Reversed(s)| == |s| && forall i :: 0 <= i < |s| ==> Reversed(s)[i] == s[|s| - 1 - i]
  {
    if s != [] {
      ReversedHas(s[1..]);
    }
  }

  // ----- what the walk lists -----

  lemma PendingStep(index: Index, current: Rev, head: Rev, rev: Rev, parent: Rev)
    requires Pending(index, current, head, rev) && rev in index && parent in index[rev].parents && parent in index && parent != current
    ensures Pending(index, current, head, parent)
  {
    var p :| Path(index, current, head, p) && p[|p| - 1] == rev;
    assert Path(index, current, head, p + [parent]);
    assert (p + [parent])[|p|] == parent;
  }

  /** A set that holds `head` and every parent of its members, `current` apart, holds every pending revision. */
  lemma {:induction false} ClosedHoldsPath(index: Index, current: Rev, head: Rev, seen: set<Rev>, p: seq<Rev>)
    requires head in seen && Path(index, current, head, p)
    requires forall s, q :: s in seen && s in index && q in index[s].parents ==> q == current || q in seen
    ensures p[|p| - 1] in seen
  {
    if |p| > 1 {
      var shorter := p[..|p| - 1];
      assert Path(index, current, head, shorter);
      ClosedHoldsPath(index, current, head, seen, shorter);
      assert p[|p| - 1] in index[p[|p| - 2]].parents;
    }
  }

  /** Some member of `revs` has `current` as a parent, or there is nothing to meet. */
  ghost predicate Meets(index: Index, current: Rev, revs: set<Rev>) {
    current == "" || exists s :: s in revs && s in index && current in index[s].parents
  }

  ghost predicate WalkInv(index: Index, current: Rev, head: Rev, frontier: seq<Rev>, seen: set<Rev>, reached: bool) {
    && (forall s :: s in seen ==> s in index && s != current && Pending(index, current, head, s))
    && (forall f :: f in frontier ==> f in index && (f == current || Pending(index, current, head, f)))
    && (forall s, q :: s in seen && s in index && q in index[s].parents ==> q in index && (q == current || q in seen || q in frontier))
    && (head in seen || head in frontier)
    && (reached || current in frontier <==> Meets(index, current, seen))
  }

  /** When the walk ends, the visited revisions are exactly the pending ones. */
  ghost predicate Complete(index: Index, current: Rev, head: Rev, seen: set<Rev>, reached: bool) {
    && (forall rev :: rev in seen <==> Pending(index, current, head, rev))
    && (forall s, q :: s in seen && s in index && q in index[s].parents ==> q in index)
    && (reached <==> Meets(index, current, seen))
  }

  ghost predicate WalkAnswer(index: Index, current: Rev, head: Rev, seen: set<Rev>, walked: Walked) {
    match walked
    case Missing(child, parent) =>
      Pending(index, current, head, child) && child in index && parent in index[child].parents && parent !in index
    case Done(revs, reached) =>
      NoDup(revs) && Elements(revs) !! seen && Complete(index, current, head, seen + Elements(revs), reached)
  }

  lemma WalkEnds(index: Index, current: Rev, head: Rev, seen: set<Rev>, reached: bool)
    requires WalkInv(index, current, head, [], seen, reached)
    ensures Complete(index, current, head, seen, reached)
  {
    forall rev | Pending(index, current, head, rev) ensures rev in seen {
      var p :| Path(index, current, head, p) && p[|p| - 1] == rev;
      ClosedHoldsPath(index, current, head, seen, p);
    }
  }

  lemma VisitKeepsInv(index: Index, current: Rev, head: Rev, rest: seq<Rev>, rev: Rev, seen: set<Rev>, reached: bool)
    requires WalkInv(index, current, head, rest + [rev], seen, reached) && rev !in seen && rev != current
    requires forall q :: q in index[rev].parents ==> q in index
    ensures WalkInv(index, current, head, rest + index[rev].parents, seen + {rev}, reached)
  {
    var before, after := rest + [rev], rest + index[rev].parents;
    assert rev in before && forall f :: f in before <==> f in rest || f == rev;
    assert forall f :: f in after <==> f in rest || f in index[rev].parents;
    forall q | q in index[rev].parents && q != current ensures Pending(index, current, head, q) {
      PendingStep(index, current, head, rev, q);
    }
    MeetsOneMore(index, current, seen, rev);
  }

  lemma MeetsOneMore(index: Index, current: Rev, seen: set<Rev>, rev: Rev)
    requires rev in index
    ensures Meets(index, current, seen + {rev}) <==> Meets(index, current, seen) || current in index[rev].parents
  {
    assert rev in seen + {rev};
  }

  lemma SkipKeepsInv(index: Index, current: Rev, head: Rev, rest: seq<Rev>, rev: Rev, seen: set<Rev>, reached: bool)
    requires WalkInv(index, current, head, rest + [rev], seen, reached) && (rev in seen || rev == current)
    requires head != current
    ensures WalkInv(index, current, head, rest, seen, if rev in seen then reached else true)
  {
    assert forall f :: f in rest + [rev] <==> f in rest || f == rev;
  }

  lemma VisitExtendsAnswer(index: Index, current: Rev, head: Rev, rev: Rev, seen: set<Rev>, tail: Walked)
    requires WalkAnswer(index, current, head, seen + {rev}, tail) && rev !in seen
    ensures WalkAnswer(index, current, head, seen, if tail.Done? then Done([rev] + tail.revs, tail.reached) else tail)
  {
    if tail.Done? {
      assert rev !in Elements(tail.revs);
      assert seen + Elements([rev] + tail.revs) == seen + {rev} + Elements(tail.revs);
    }
  }

  lemma {:induction false} WalkIsExact(index: Index, current: Rev, head: Rev, frontier: seq<Rev>, seen: set<Rev>, reached: bool)
    requires head != current
    requires WalkInv(index, current, head, frontier, seen, reached)
    ensures WalkAnswer(index, current, head, seen, Walk(index, current, frontier, seen, reached))
    decreases index.Keys - seen, |frontier|
  {
    if frontier == [] {
      WalkEnds(index, current, head, seen, reached);
      assert seen + Elements([]) == seen;
    } else {
      var rest, rev := frontier[..|frontier| - 1], frontier[|frontier| - 1];
      assert frontier == rest + [rev];
      if rev in seen || rev == current {
        SkipKeepsInv(index, current, head, rest, rev, seen, reached);
        WalkIsExact(index, current, head, rest, seen, if rev in seen then reached else true);
      } else {
        FirstMissingSpec(index, index[rev].parents);
        if FirstMissing(index, index[rev].parents).None? {
          VisitKeepsInv(index, current, head, rest, rev, seen, reached);
          WalkIsExact(index, current, head, rest + index[rev].parents, seen + {rev}, reached);
          VisitExtendsAnswer(index, current, head, rev, seen, Walk(index, current, rest + index[rev].parents, seen + {rev}, reached));
        } else {
          assert rev in frontier;
        }
      }
    }
  }

  /** Whether the graph above `head` can be resolved: no dangling parent, and `current`, if given, is met. */
  ghost predicate Resolvable(index: Index, current: Rev, head: Rev) {
    && (forall rev, q :: Pending(index, current, head, rev) && rev in index && q in index[rev].parents ==> q in index)
    && (current == "" || exists rev :: Pending(index, current, head, rev) && rev in index && current in index[rev].parents)
  }

  /** On every parent graph, cycles and merges included: the call succeeds exactly when head and current are known and the
      graph resolves; then it lists, without duplicates, exactly the revisions reachable from head by a path avoiding
      current. */
  lemma PendingListIsExact(index: Index, current: Rev, head: Rev)
    ensures PendingList(index, current, head).Ok? <==>
              head in index && (current == "" || current in index) && (current == head || Resolvable(index, current, head))
    ensures PendingList(index, current, head).Ok? ==>
              && NoDup(PendingList(index, current, head).value)
              && forall rev :: rev in PendingList(index, current, head).value <==> Pending(index, current, head, rev)
  {
    if head in index && (current == "" || current in index) {
      if current == head {
        forall rev ensures !Pending(index, current, head, rev) {
        }
      } else {
        WalkFromHead(index, current, head, Walk(index, current, [head], {}, current == ""));
      }
    }
  }

  /** What the walk from head tells: it meets a dangling parent, or it visits the pending revisions. */
  lemma WalkFromHead(index: Index, current: Rev, head: Rev, walked: Walked)
    requires head in index && head != current && walked == Walk(index, current, [head], {}, current == "")
    ensures walked.Done? && walked.reached <==> Resolvable(index, current, head)
    ensures walked.Done? ==>
              NoDup(Reversed(walked.revs)) && forall rev :: rev in Reversed(walked.revs) <==> Pending(index, current, head, rev)
  {
    assert Path(index, current, head, [head]) && [head][0] == head;
    WalkIsExact(index, current, head, [head], {}, current == "");
    if walked.Done? {
      assert {} + Elements(walked.revs) == Elements(walked.revs);
      SameElements(walked.revs);
      CompleteResolves(index, current, head, Elements(walked.revs), walked.reached);
    }
  }

  lemma CompleteResolves(index: Index, current: Rev, head: Rev, seen: set<Rev>, reached: bool)
    requires Complete(index, current, head, seen, reached)
    ensures reached <==> Resolvable(index, current, head)
  {
    if Resolvable(index, current, head) && current != "" {
      var rev :| Pending(index, current, head, rev) && rev in index && current in index[rev].parents;
      assert rev in seen;
    }
  }

  lemma SameElements(revs: seq<Rev>)
    requires NoDup(revs)
    ensures NoDup(Reversed(revs)) && forall rev :: rev in Reversed(revs) <==> rev in revs
  {
    ReversedHas(revs);
    forall rev | rev in revs ensures rev in Reversed(revs) {
      var i :| 0 <= i < |revs| && revs[i] == rev;
      assert Reversed(revs)[|revs| - 1 - i] == rev;
    }
  }

  /** The error names what is wrong: an unknown head or current revision, a pending revision with a parent that is not there,
      or a current revision that no pending one descends from. */
  lemma ErrorsNameTheCause(index: Index, current: Rev, head: Rev)
    ensures var outcome := PendingList(index, current, head);
            && (outcome == Err(UnknownHead) <==> head !in index)
            && (outcome == Err(UnknownCurrent) <==> head in index && current != "" && current !in index)
            && (outcome.Err? && outcome.error.MissingParent? ==>
                  var child, parent := outcome.error.child, outcome.error.parent;
                  Pending(index, current, head, child) && child in index && parent in index[child].parents && parent !in index)
            && (outcome == Err(Unrelated) ==>
                  && head in index && current in index && current != head && current != ""
                  && forall rev :: Pending(index, current, head, rev) && rev in index ==> current !in index[rev].parents)
            && (outcome.Err? ==> !outcome.error.Unparsed? && !outcome.error.Duplicate?)
  {
    if head in index && head != current {
      assert Path(index, current, head, [head]) && [head][0] == head;
      WalkIsExact(index, current, head, [head], {}, current == "");
    }
  }

  /** Each listed revision comes with the path of the file that declares it. */
  lemma PathsAreDeclared(files: seq<File>, index: Index, revs: seq<Rev>, k: nat, i: nat)
    requires IndexOf(files) == Ok(index) && (forall rev :: rev in revs ==> rev in index)
    requires k < |revs| && Declares(files, i, revs[k])
    ensures |WithPaths(index, revs)| == |revs| && WithPaths(index, revs)[k] == (revs[k], files[i].name)
  {
    IndexIsExact(files);
  }

  /** Files whose name begins with two underscores are not read. */
  lemma SkippedIff(file: File)
    ensures Skipped(file) <==> exists rest :: file.name == "__" + rest
  {
    if Skipped(file) {
      assert file.name == "__" + file.name[2..];
    }
  }

  /** `anc` is `rev` or one of its ancestors. */
  ghost predicate Ancestor(index: Index, rev: Rev, anc: Rev) {
    exists p :: Lineage(index, rev, p) && p[|p| - 1] == anc
  }

  ghost predicate Lineage(index: Index, rev: Rev, p: seq<Rev>) {
    && |p| > 0 && p[0] == rev
    && (forall i :: 0 <= i < |p| ==> p[i] in index)
    && (forall i :: 0 <= i < |p| - 1 ==> p[i] in index && p[i + 1] in index[p[i]].parents)
  }

  lemma LineageSuffix(index: Index, rev: Rev, p: seq<Rev>, i: nat)
    requires Lineage(index, rev, p) && i < |p|
    ensures Ancestor(index, p[i], p[|p| - 1])
  {
    assert Lineage(index, p[i], p[i..]) && p[i..][|p| - i - 1] == p[|p| - 1];
  }

  /** So it lists every ancestor of head that is not an ancestor of current, and only ancestors of head other than current. */
  lemma ListsEveryNewAncestor(index: Index, current: Rev, head: Rev, rev: Rev)
    requires PendingList(index, current, head).Ok?
    ensures Ancestor(index, head, rev) && !Ancestor(index, current, rev) ==> rev in PendingList(index, current, head).value
    ensures rev in PendingList(index, current, head).value ==> Ancestor(index, head, rev) && rev != current
  {
    PendingListIsExact(index, current, head);
    if Ancestor(index, head, rev) && !Ancestor(index, current, rev) {
      var p :| Lineage(index, head, p) && p[|p| - 1] == rev;
      forall i | 0 <= i < |p| ensures p[i] != current {
        if p[i] == current {
          LineageSuffix(index, head, p, i);
        }
      }
      assert Path(index, current, head, p);
    }
    if rev in PendingList(index, current, head).value {
      var p :| Path(index, current, head, p) && p[|p| - 1] == rev;
      assert Lineage(index, head, p);
    }
  }

  // ----- chains -----

  /** What the walk stands on when it has come down to chain[h]; nothing below the base. */
  function Tip(chain: seq<Rev>, h: int): seq<Rev>
    requires -1 <= h < |chain|
  {
    if h == -1 then [] else [chain[h]]
  }

  ghost predicate Link(index: Index, chain: seq<Rev>, i: nat) {
    i < |chain| && chain[i] in index && chain[i] != "" && index[chain[i]].parents == Tip(chain, i - 1)
  }

  /** chain[0] is a base revision and each later one has the one before as its only parent. */
  ghost predicate Chain(index: Index, chain: seq<Rev>) {
    NoDup(chain) && forall i :: 0 <= i < |chain| ==> Link(index, chain, i)
  }

  lemma LinkAt(index: Index, chain: seq<Rev>, h: nat)
    requires Chain(index, chain) && h < |chain|
    ensures chain[h] in index && chain[h] != "" && index[chain[h]].parents == Tip(chain, h - 1)
    ensures forall f :: f in Tip(chain, h - 1) ==> f in index
  {
    assert Link(index, chain, h);
    assert h > 0 ==> Link(index, chain, h - 1);
  }

  predicate NotSeen(chain: seq<Rev>, h: int, seen: set<Rev>)
    requires h < |chain|
  {
    forall i :: 0 <= i <= h ==> chain[i] !in seen
  }

  lemma NotSeenBelow(chain: seq<Rev>, h: nat, seen: set<Rev>)
    requires NoDup(chain) && h < |chain| && NotSeen(chain, h, seen)
    ensures NotSeen(chain, h - 1, seen + {chain[h]}) && chain[h] !in seen
  {
  }

  /** The revisions above chain[k] up to chain[h]. */
  function Segment(chain: seq<Rev>, k: int, h: int): seq<Rev>
    requires -1 <= k <= h < |chain|
  {
    if h == k then [] else Segment(chain, k, h - 1) + [chain[h]]
  }

  lemma {:induction false} SegmentIsSlice(chain: seq<Rev>, k: int, h: int)
    requires -1 <= k <= h < |chain|
    ensures Segment(chain, k, h) == chain[k + 1..h + 1]
  {
    if h > k {
      SegmentIsSlice(chain, k, h - 1);
      assert chain[k + 1..h] + [chain[h]] == chain[k + 1..h + 1];
    }
  }

  /** From chain[h] down, the walk visits chain[h], chain[h - 1], ... and stops above chain[k], or at the base. */
  lemma {:induction false} WalkDownChain(index: Index, chain: seq<Rev>, current: Rev, h: int, k: int, seen: set<Rev>, reached: bool)
    requires Chain(index, chain) && -1 <= k <= h < |chain| && forall f :: f in Tip(chain, h) ==> f in index
    requires if k == -1 then current == "" && reached else current == chain[k]
    requires NotSeen(chain, h, seen)
    ensures Walk(index, current, Tip(chain, h), seen, reached) == Done(Reversed(Segment(chain, k, h)), true)
    decreases h
  {
    if h == k {
      ChainEnds(index, chain, current, h, seen, reached);
    } else {
      LinkAt(index, chain, h);
      NotSeenBelow(chain, h, seen);
      assert k >= 0 ==> chain[k] != chain[h];
      WalkDownChain(index, chain, current, h - 1, k, seen + {chain[h]}, reached);
      ChainStep(index, chain, current, h, seen, reached, Segment(chain, k, h - 1));
    }
  }

  /** One visit, when the rest of the walk lists `below`. */
  lemma ChainStep(index: Index, chain: seq<Rev>, current: Rev, h: nat, seen: set<Rev>, reached: bool, below: seq<Rev>)
    requires h < |chain| && chain[h] in index && chain[h] !in seen && chain[h] != current
    requires index[chain[h]].parents == Tip(chain, h - 1) && forall f :: f in Tip(chain, h - 1) ==> f in index
    requires Walk(index, current, Tip(chain, h - 1), seen + {chain[h]}, reached) == Done(Reversed(below), true)
    ensures Walk(index, current, Tip(chain, h), seen, reached) == Done(Reversed(below + [chain[h]]), true)
  {
    VisitAlone(index, current, chain[h], seen, reached);
    ReversedSnoc(below, chain[h]);
  }

  lemma ChainEnds(index: Index, chain: seq<Rev>, current: Rev, h: int, seen: set<Rev>, reached: bool)
    requires -1 <= h < |chain| && forall f :: f in Tip(chain, h) ==> f in index
    requires if h == -1 then current == "" && reached else current == chain[h] && chain[h] !in seen
    ensures Walk(index, current, Tip(chain, h), seen, reached) == Done(Reversed([]), true)
  {
    var none: seq<Rev> := [];
    assert Walk(index, current, none, seen, true) == Done([], true);
    if h >= 0 {
      assert [chain[h]][..0] == none;
    }
  }

  lemma {:induction false} ReversedSnoc<T>(s: seq<T>, x: T)
    ensures Reversed(s + [x]) == [x] + Reversed(s)
    ensures Reversed(Reversed(s)) == s
  {
    ReversedHas(s);
    ReversedHas(Reversed(s));
    ReversedHas(s + [x]);
  }

  /** On a chain the list is exactly the segment after current, oldest first; with no current it is everything up to head. */
  lemma ChainIsListedOldestFirst(index: Index, chain: seq<Rev>, k: int, h: int)
    requires Chain(index, chain) && -1 <= k <= h < |chain| && 0 <= h
    ensures PendingList(index, if k == -1 then "" else chain[k], chain[h]) == Ok(chain[k + 1..h + 1])
  {
    var current := if k == -1 then "" else chain[k];
    LinkAt(index, chain, h);
    if k >= 0 {
      LinkAt(index, chain, k);
    }
    if k == h {
      assert chain[k + 1..h + 1] == [];
    } else {
      assert k >= 0 ==> chain[k] != chain[h];
      WalkDownChain(index, chain, current, h, k, {}, k == -1);
      SegmentIsSlice(chain, k, h);
      ReversedSnoc(chain[k + 1..h + 1], "");
    }
  }

  // ----- merges -----

  /** Every child of `rev` among `revs` has been seen. */
  ghost predicate ChildrenSeen(index: Index, revs: set<Rev>, rev: Rev, seen: set<Rev>) {
    forall c :: c in revs && c in index && rev in index[c].parents ==> c in seen
  }

  /** In visiting order, children come before their parents. */
  ghost predicate ChildrenFirst(index: Index, revs: set<Rev>, seen: set<Rev>, order: seq<Rev>) {
    forall i, c :: 0 <= i < |order| && c in revs && c in index && order[i] in index[c].parents ==> c in seen || c in order[..i]
  }

  lemma ChildrenFirstCons(index: Index, revs: set<Rev>, seen: set<Rev>, rev: Rev, order: seq<Rev>)
    requires ChildrenSeen(index, revs, rev, seen) && ChildrenFirst(index, revs, seen + {rev}, order)
    ensures ChildrenFirst(index, revs, seen, [rev] + order)
  {
    var all := [rev] + order;
    forall i, c | 0 <= i < |all| && c in revs && c in index && all[i] in index[c].parents ensures c in seen || c in all[..i] {
      if i > 0 {
        assert order[i - 1] == all[i];
        assert all[..i] == [rev] + order[..i - 1];
      }
    }
  }

  lemma ReversedMembers(s: seq<Rev>)
    ensures Elements(s) == Elements(Reversed(s))
  {
    ReversedHas(s);
    forall rev | rev in s ensures rev in Reversed(s) {
      var k :| 0 <= k < |s| && s[k] == rev;
      assert Reversed(s)[|s| - 1 - k] == rev;
    }
  }

  /** One visit of the walk. */
  lemma Visit(index: Index, current: Rev, rest: seq<Rev>, rev: Rev, seen: set<Rev>, reached: bool)
    requires forall f :: f in rest + [rev] ==> f in index
    requires rev in index && rev !in seen && rev != current && forall q :: q in index[rev].parents ==> q in index
    ensures Walk(index, current, rest + [rev], seen, reached)
         == Resumed([rev], Walk(index, current, rest + index[rev].parents, seen + {rev}, reached))
  {
    FirstMissingSpec(index, index[rev].parents);
    assert (rest + [rev])[..|rest|] == rest;
  }

  /** A visit with nothing else on the stack. */
  lemma VisitAlone(index: Index, current: Rev, rev: Rev, seen: set<Rev>, reached: bool)
    requires rev in index && rev !in seen && rev != current && forall q :: q in index[rev].parents ==> q in index
    ensures Walk(index, current, [rev], seen, reached)
         == Resumed([rev], Walk(index, current, index[rev].parents, seen + {rev}, reached))
  {
    var none: seq<Rev> := [];
    assert none + [rev] == [rev] && none + index[rev].parents == index[rev].parents;
    Visit(index, current, none, rev, seen, reached);
  }

  ghost predicate Diamond(index: Index, a: Rev, b: Rev, c: Rev, m: Rev) {
    && a != b && a != c && a != m && b != c && b != m && c != m && a != "" && b != "" && c != "" && m != ""
    && index.Keys == {a, b, c, m}
    && index[a].parents == [] && index[b].parents == [a] && index[c].parents == [a] && index[m].parents == [b, c]
  }

  lemma DiamondLower(index: Index, a: Rev, b: Rev, c: Rev, m: Rev, seen: set<Rev>)
    requires Diamond(index, a, b, c, m) && seen == {m, c}
    ensures Walk(index, "", [b] + [a], seen, true) == Done([a, b], true)
  {
    Visit(index, "", [b], a, seen, true);
    assert [b] + [] == [b];
    VisitAlone(index, "", b, seen + {a}, true);
    SeenAlone(index, "", a, seen + {a} + {b});
  }

  lemma SeenAlone(index: Index, current: Rev, rev: Rev, seen: set<Rev>)
    requires rev in seen && rev in index
    ensures Walk(index, current, [rev], seen, true) == Done([], true)
  {
    var none: seq<Rev> := [];
    assert [rev][..0] == none;
    assert Walk(index, current, none, seen, true) == Done([], true);
  }

  /** Where branches part above current the order can fail. In the diamond a <- b, a <- c, (b, c) <- m, revision b is listed before
      its own parent a. */
  lemma DiamondIsNotOldestFirst(index: Index, a: Rev, b: Rev, c: Rev, m: Rev)
    requires Diamond(index, a, b, c, m)
    ensures PendingList(index, "", m) == Ok([b, a, c, m])
  {
    VisitAlone(index, "", m, {}, true);
    assert [b, c] == [b] + [c];
    Visit(index, "", [b], c, {} + {m}, true);
    DiamondLower(index, a, b, c, m, {} + {m} + {c});
    var walked := Walk(index, "", [m], {}, true);
    assert walked == Done([m, c, a, b], true);
    ReversedHas(walked.revs);
    assert Reversed(walked.revs) == [b, a, c, m];
  }
}
