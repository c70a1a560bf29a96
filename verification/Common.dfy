/** Result types shared by the models. */
module Common {
  datatype Option<+T> = None | Some(value: T)

  datatype Result<+T, +E> = Ok(value: T) | Err(error: E)

  function Max(x: int, y: int): int {
    if x < y then y else x
  }

  function Min(x: int, y: int): int {
    if x < y then x else y
  }

  /** A column when a session commits: it writes what differs from the value it read. */
  function Written<T(==)>(read: T, mine: T, stored: T): T {
    if mine == read then stored else mine
  }

  predicate NoDup<T(==)>(s: seq<T>) {
    forall i, j :: 0 <= i < j < |s| ==> s[i] != s[j]
  }

  function Elements<T(==)>(s: seq<T>): set<T> {
    set x | x in s
  }

  lemma TakeOut<T>(s: seq<T>, k: nat)
    requires k < |s|
    ensures multiset(s[..k] + s[k + 1..]) == multiset(s) - multiset{s[k]}
  {
    assert s == s[..k] + [s[k]] + s[k + 1..];
  }

  lemma {:induction false} OnceEach<T>(s: seq<T>, x: T)
    requires NoDup(s)
    ensures multiset(s)[x] == if x in s then 1 else 0
  {
    if s != [] {
      OnceEach(s[..|s| - 1], x);
      assert s == s[..|s| - 1] + [s[|s| - 1]];
    }
  }

  /** Two listings of the same things, each once, differ in order only. */
  lemma SameMembersOnce<T>(a: seq<T>, b: seq<T>)
    requires NoDup(a) && NoDup(b) && forall x :: x in a <==> x in b
    ensures multiset(a) == multiset(b)
  {
    forall x ensures multiset(a)[x] == multiset(b)[x] {
      OnceEach(a, x);
      OnceEach(b, x);
    }
  }

  // ----- Python's str.split and str.partition -----

  function SplitOn<T(==)>(s: seq<T>, sep: T): (parts: seq<seq<T>>)
    ensures |parts| >= 1
  {
    if s == [] then [[]]
    else if s[|s| - 1] == sep then SplitOn(s[..|s| - 1], sep) + [[]]
    else
      var parts := SplitOn(s[..|s| - 1], sep);
      parts[|parts| - 1 := parts[|parts| - 1] + [s[|s| - 1]]]
  }

  function Joined<T>(parts: seq<seq<T>>, sep: T): seq<T>
    requires |parts| >= 1
  {
    if |parts| == 1 then parts[0] else Joined(parts[..|parts| - 1], sep) + [sep] + parts[|parts| - 1]
  }

  lemma JoinedSnoc<T>(parts: seq<seq<T>>, sep: T, last: seq<T>)
    requires |parts| >= 1
    ensures Joined(parts + [last], sep) == Joined(parts, sep) + [sep] + last
  {
    assert (parts + [last])[..|parts|] == parts;
  }

  /** Lengthening the last part lengthens the whole. */
  lemma JoinedLonger<T>(parts: seq<seq<T>>, sep: T, c: T)
    requires |parts| >= 1
    ensures var k := |parts| - 1; Joined(parts[k := parts[k] + [c]], sep) == Joined(parts, sep) + [c]
  {
    var k := |parts| - 1;
    var longer := parts[k := parts[k] + [c]];
    if k > 0 {
      assert longer[..k] == parts[..k];
      assert Joined(longer, sep) == Joined(parts[..k], sep) + [sep] + (parts[k] + [c]);
    }
  }

  lemma {:induction false} SplitJoins<T>(s: seq<T>, sep: T)
    ensures Joined(SplitOn(s, sep), sep) == s
  {
    if s != [] {
      var front, c := s[..|s| - 1], s[|s| - 1];
      var parts := SplitOn(front, sep);
      SplitJoins(front, sep);
      SnocApart([], s);
      if c == sep {
        JoinedSnoc(parts, sep, []);
      } else {
        JoinedLonger(parts, sep, c);
      }
    }
  }

  /** No part holds the separator. */
  lemma {:induction false} SplitFree<T>(s: seq<T>, sep: T, i: nat)
    requires i < |SplitOn(s, sep)|
    ensures sep !in SplitOn(s, sep)[i]
  {
    if s != [] {
      var front, parts := s[..|s| - 1], SplitOn(s[..|s| - 1], sep);
      if i < |parts| {
        SplitFree(front, sep, i);
      }
    }
  }

  lemma {:induction false} SplitPlain<T>(s: seq<T>, sep: T)
    requires sep !in s
    ensures SplitOn(s, sep) == [s]
  {
    if s != [] {
      SplitPlain(s[..|s| - 1], sep);
      assert s == s[..|s| - 1] + [s[|s| - 1]];
    }
  }

  lemma {:induction false} SplitSnoc<T>(head: seq<T>, sep: T, tail: seq<T>)
    requires sep !in tail
    ensures SplitOn(head + [sep] + tail, sep) == SplitOn(head, sep) + [tail]
  {
    var parts := SplitOn(head, sep);
    if tail == [] {
      assert (head + [sep])[..|head|] == head;
      assert head + [sep] + tail == head + [sep];
    } else {
      var front, c := tail[..|tail| - 1], tail[|tail| - 1];
      var shorter := head + [sep] + front;
      SplitSnoc(head, sep, front);
      SplitPlainChar(shorter, sep, c);
      SnocApart(head + [sep], tail);
      assert (parts + [front])[|parts| := front + [c]] == parts + [tail];
    }
  }

  lemma SnocApart<T>(head: seq<T>, tail: seq<T>)
    requires tail != []
    ensures head + tail == head + tail[..|tail| - 1] + [tail[|tail| - 1]]
    ensures tail[..|tail| - 1] + [tail[|tail| - 1]] == tail
  {
  }

  lemma SplitPlainChar<T>(s: seq<T>, sep: T, c: T)
    requires c != sep
    ensures var parts := SplitOn(s, sep); var k := |parts| - 1; SplitOn(s + [c], sep) == parts[k := parts[k] + [c]]
  {
    assert (s + [c])[..|s|] == s;
  }

  /** What precedes the first `sep`, and what follows it if there is one. */
  function Cut<T(==)>(s: seq<T>, sep: T): (seq<T>, Option<seq<T>>) {
    if s == [] then ([], None)
    else if s[0] == sep then ([], Some(s[1..]))
    else ([s[0]] + Cut(s[1..], sep).0, Cut(s[1..], sep).1)
  }

  lemma {:induction false} CutAt<T>(head: seq<T>, sep: T, tail: seq<T>)
    requires sep !in head
    ensures Cut(head + [sep] + tail, sep) == (head, Some(tail))
  {
    var s := head + [sep] + tail;
    if head == [] {
      assert s[1..] == tail;
    } else {
      CutAt(head[1..], sep, tail);
      assert s[1..] == head[1..] + [sep] + tail;
      assert s[0] in head && [head[0]] + head[1..] == head;
    }
  }

  lemma {:induction false} CutNowhere<T>(s: seq<T>, sep: T)
    requires sep !in s
    ensures Cut(s, sep) == (s, None)
  {
    if s != [] {
      CutNowhere(s[1..], sep);
      assert s[0] in s && [s[0]] + s[1..] == s;
    }
  }
}
