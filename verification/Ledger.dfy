/** The append-only credit ledger of one account (models/credit.py) and the sums read off it.
    A sum is a left-to-right total of one weight per row, so every sum grows by the weight of the appended row. */
module Ledger {
  import opened Common

  datatype Work = LessonGenerate | LessonRegen | SlideRegen | VisionAnalyze | QuizGenerate | QuizGrade | AiReview | RetentionExtend

  datatype Operation = Grant | Charge(work: Work) | Reserve | Release | Topup | Purchase | Expire

  /** ref_id by namespace. A Launch ref is minted fresh for one run; a Direct ref (a slide id) may be reused. */
  datatype Ref = Launch(id: nat) | Direct(id: nat) | Payment(id: nat)

  datatype Row = Row(op: Operation, delta: int, ref: Option<Ref>)

  function Total(rows: seq<Row>, weight: Row -> int): int {
    if rows == [] then 0 else Total(rows[..|rows| - 1], weight) + weight(rows[|rows| - 1])
  }

  /** What a row does to the balance: everything except RESERVE and RELEASE is a balance movement. */
  function BalanceMove(row: Row): int {
    if row.op.Reserve? || row.op.Release? then 0 else row.delta
  }

  /** What a row does to the hold its ref names: RESERVE opens it, RELEASE and a charge close it. */
  function HoldMove(row: Row): int {
    if row.op.Reserve? || row.op.Release? then -row.delta
    else if row.op.Charge? then row.delta
    else 0
  }

  function OnRef(ref: Ref): Row -> int {
    (row: Row) => if row.ref == Some(ref) then HoldMove(row) else 0
  }

  function OffRefs(refs: set<Ref>): Row -> int {
    (row: Row) => if row.ref.Some? && row.ref.value !in refs then HoldMove(row) else 0
  }

  function CountOf(ref: Ref, reserves: bool): Row -> int {
    (row: Row) => if row.ref == Some(ref) && row.op.Reserve? == reserves then 1 else 0
  }

  function BalanceSum(rows: seq<Row>): int {
    Total(rows, BalanceMove)
  }

  /** Credits still held under `ref`: reserved, less what was charged or released. */
  function Outstanding(rows: seq<Row>, ref: Ref): int {
    Total(rows, OnRef(ref))
  }

  /** Credits held under any ref. */
  function HeldSum(rows: seq<Row>): int {
    Total(rows, OffRefs({}))
  }

  function Reserves(rows: seq<Row>, ref: Ref): int {
    Total(rows, CountOf(ref, true))
  }

  /** Rows other than RESERVE on `ref`: the finalizers of a launch. */
  function Finalizers(rows: seq<Row>, ref: Ref): int {
    Total(rows, CountOf(ref, false))
  }

  /** The newest RESERVE row on `ref`. */
  function LastReserve(rows: seq<Row>, ref: Ref): Option<Row> {
    if rows == [] then None
    else
      var row := rows[|rows| - 1];
      if row.ref == Some(ref) && row.op.Reserve? then Some(row) else LastReserve(rows[..|rows| - 1], ref)
  }

  predicate Unused(rows: seq<Row>, ref: Ref) {
    forall i :: 0 <= i < |rows| ==> rows[i].ref != Some(ref)
  }

  lemma TotalAppend(rows: seq<Row>, row: Row, weight: Row -> int)
    ensures Total(rows + [row], weight) == Total(rows, weight) + weight(row)
  {
    assert (rows + [row])[..|rows|] == rows;
  }

  /** Appending one row adds exactly its weight to each sum of its own ref, and nothing to those of another. */
  lemma AppendAt(rows: seq<Row>, row: Row, ref: Ref)
    ensures Outstanding(rows + [row], ref) == Outstanding(rows, ref) + (if row.ref == Some(ref) then HoldMove(row) else 0)
    ensures Reserves(rows + [row], ref) == Reserves(rows, ref) + (if row.ref == Some(ref) && row.op.Reserve? then 1 else 0)
    ensures Finalizers(rows + [row], ref) == Finalizers(rows, ref) + (if row.ref == Some(ref) && !row.op.Reserve? then 1 else 0)
    ensures LastReserve(rows + [row], ref) == if row.ref == Some(ref) && row.op.Reserve? then Some(row) else LastReserve(rows, ref)
  {
    TotalAppend(rows, row, OnRef(ref));
    TotalAppend(rows, row, CountOf(ref, true));
    TotalAppend(rows, row, CountOf(ref, false));
    assert (rows + [row])[..|rows|] == rows;
  }

  lemma TotalZero(rows: seq<Row>, weight: Row -> int)
    requires forall i :: 0 <= i < |rows| ==> weight(rows[i]) == 0
    ensures Total(rows, weight) == 0
  {
    if rows != [] {
      TotalZero(rows[..|rows| - 1], weight);
    }
  }

  lemma UnusedSums(rows: seq<Row>, ref: Ref)
    requires Unused(rows, ref)
    ensures Outstanding(rows, ref) == 0 && Reserves(rows, ref) == 0 && Finalizers(rows, ref) == 0
  {
    TotalZero(rows, OnRef(ref));
    TotalZero(rows, CountOf(ref, true));
    TotalZero(rows, CountOf(ref, false));
  }

  /** Splitting one ref off the refs still counted. */
  lemma SplitOff(rows: seq<Row>, refs: set<Ref>, ref: Ref)
    requires ref !in refs
    ensures Total(rows, OffRefs(refs)) == Outstanding(rows, ref) + Total(rows, OffRefs(refs + {ref}))
  {
    if rows != [] {
      var rest, row := rows[..|rows| - 1], rows[|rows| - 1];
      SplitOff(rest, refs, ref);
      assert OffRefs(refs)(row) == OnRef(ref)(row) + OffRefs(refs + {ref})(row);
    }
  }

  function RefsOf(rows: seq<Row>): set<Ref> {
    set i | 0 <= i < |rows| && rows[i].ref.Some? :: rows[i].ref.value
  }

  lemma NonNegativeOff(rows: seq<Row>, refs: set<Ref>)
    requires forall ref :: Outstanding(rows, ref) >= 0
    ensures Total(rows, OffRefs(refs)) >= 0
    decreases RefsOf(rows) - refs
  {
    if RefsOf(rows) <= refs {
      forall i | 0 <= i < |rows| ensures OffRefs(refs)(rows[i]) == 0 {
        assert rows[i].ref.Some? ==> rows[i].ref.value in RefsOf(rows);
      }
      TotalZero(rows, OffRefs(refs));
    } else {
      var ref :| ref in RefsOf(rows) && ref !in refs;
      SplitOff(rows, refs, ref);
      NonNegativeOff(rows, refs + {ref});
    }
  }

  /** When no ref is overdrawn, one ref's hold is part of the total hold. */
  lemma HoldWithinTotal(rows: seq<Row>, ref: Ref)
    requires forall r :: Outstanding(rows, r) >= 0
    ensures 0 <= Outstanding(rows, ref) <= HeldSum(rows)
  {
    SplitOff(rows, {}, ref);
    assert {} + {ref} == {ref};
    NonNegativeOff(rows, {ref});
  }

  lemma CountsNonNegative(rows: seq<Row>, ref: Ref)
    ensures Reserves(rows, ref) >= 0 && Finalizers(rows, ref) >= 0
    ensures Reserves(rows, ref) > 0 ==> LastReserve(rows, ref).Some?
  {
    if rows != [] {
      CountsNonNegative(rows[..|rows| - 1], ref);
    }
  }
}
