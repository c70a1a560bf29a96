/** str.split() and " ".join() of Python: the words of a text are its longest pieces without a space character. */
module TextWords {
  import opened Common

  /** A longest piece without a space character: nothing or a space on either side. */
  predicate IsWord(space: char -> bool, s: string, from: nat, to: nat) {
    && from < to <= |s|
    && (forall k :: from <= k < to ==> !space(s[k]))
    && (from == 0 || space(s[from - 1]))
    && (to == |s| || space(s[to]))
  }

  datatype Span = Span(from: nat, to: nat)

  /** All words of the text, from left to right. */
  ghost predicate AllSpans(space: char -> bool, s: string, spans: seq<Span>) {
    && (forall k :: 0 <= k < |spans| ==> IsWord(space, s, spans[k].from, spans[k].to))
    && (forall k, m :: 0 <= k < m < |spans| ==> spans[k].to < spans[m].from)
    && (forall from: nat, to: nat :: IsWord(space, s, from, to) ==> Span(from, to) in spans)
  }

  ghost predicate Spell(s: string, spans: seq<Span>, words: seq<string>) {
    && |words| == |spans|
    && forall k :: 0 <= k < |spans| ==> spans[k].from <= spans[k].to <= |s| && words[k] == s[spans[k].from..spans[k].to]
  }

  function Words(space: char -> bool, s: string): seq<string> {
    if s == "" then []
    else
      var front, last := s[..|s| - 1], s[|s| - 1];
      WordAdded(space, front, last, Words(space, front))
  }

  ghost function Spans(space: char -> bool, s: string): seq<Span> {
    if s == "" then []
    else
      var front, last := s[..|s| - 1], s[|s| - 1];
      SpanAdded(space, front, last, Spans(space, front))
  }

  /** A word of the front is one of the whole unless it goes on. */
  lemma WordOfFront(space: char -> bool, s: string, from: nat, to: nat)
    requires s != "" && to < |s|
    ensures IsWord(space, s, from, to) <==> IsWord(space, s[..|s| - 1], from, to) && (to < |s| - 1 || space(s[|s| - 1]))
  {
  }

  /** A word at the end is a new one or lengthens one at the end of the front. */
  lemma WordAtEnd(space: char -> bool, s: string, from: nat)
    requires s != "" && from < |s|
    ensures var n := |s| - 1;
            IsWord(space, s, from, |s|) <==>
            !space(s[n]) && if from == n then n == 0 || space(s[n - 1]) else IsWord(space, s[..n], from, n)
  {
  }

  /** The last word ends where the text does, if the text does not end in a space. */
  lemma EndOfSpans(space: char -> bool, s: string)
    ensures s != "" && !space(s[|s| - 1]) ==> Spans(space, s) != [] && Spans(space, s)[|Spans(space, s)| - 1].to == |s|
  {
  }

  /** Words before the end stay; one at the end is new, or was one at the end of the front. */
  lemma WordOfLonger(space: char -> bool, front: string, last: char, from: nat, to: nat)
    ensures IsWord(space, front + [last], from, to) <==>
            if to <= |front| then IsWord(space, front, from, to) && (to < |front| || space(last))
            else
              && to == |front| + 1 && !space(last)
              && if from == |front| then front == "" || space(front[|front| - 1]) else IsWord(space, front, from, |front|)
  {
    var s := front + [last];
    assert s[..|front|] == front;
    if to <= |front| {
      WordOfFront(space, s, from, to);
    } else if to == |front| + 1 && from <= |front| {
      WordAtEnd(space, s, from);
    }
  }

  lemma SpacedOut(space: char -> bool, front: string, last: char, spans: seq<Span>)
    requires space(last) && AllSpans(space, front, spans)
    ensures AllSpans(space, front + [last], spans)
  {
    forall from: nat, to: nat ensures IsWord(space, front + [last], from, to) <==> IsWord(space, front, from, to) {
      WordOfLonger(space, front, last, from, to);
    }
  }

  lemma NewWord(space: char -> bool, front: string, last: char, spans: seq<Span>)
    requires !space(last) && (front == "" || space(front[|front| - 1])) && AllSpans(space, front, spans)
    ensures AllSpans(space, front + [last], spans + [Span(|front|, |front| + 1)])
  {
    var n := |front|;
    forall from: nat, to: nat
      ensures IsWord(space, front + [last], from, to) <==> IsWord(space, front, from, to) || (from == n && to == n + 1)
    {
      WordOfLonger(space, front, last, from, to);
    }
    SpansSnoc(space, front + [last], spans, Span(n, n + 1));
  }

  /** All words but the last, and the last. */
  lemma SpansSnoc(space: char -> bool, s: string, spans: seq<Span>, last: Span)
    requires IsWord(space, s, last.from, last.to)
    requires forall k :: 0 <= k < |spans| ==> IsWord(space, s, spans[k].from, spans[k].to) && spans[k].to < last.from
    requires forall k, m :: 0 <= k < m < |spans| ==> spans[k].to < spans[m].from
    requires forall from: nat, to: nat :: IsWord(space, s, from, to) ==> Span(from, to) in spans || Span(from, to) == last
    ensures AllSpans(space, s, spans + [last])
  {
    forall from: nat, to: nat | IsWord(space, s, from, to) ensures Span(from, to) in spans + [last] {
    }
  }

  lemma LongerWord(space: char -> bool, front: string, last: char, spans: seq<Span>, from: nat)
    requires !space(last) && front != "" && !space(front[|front| - 1]) && AllSpans(space, front, spans + [Span(from, |front|)])
    ensures AllSpans(space, front + [last], spans + [Span(from, |front| + 1)])
  {
    var before, n := spans + [Span(from, |front|)], |front|;
    assert before[|spans|] == Span(from, n);
    forall i: nat, to: nat
      ensures IsWord(space, front + [last], i, to) <==>
              (to < n && IsWord(space, front, i, to)) || (to == n + 1 && i < n && IsWord(space, front, i, n))
    {
      WordOfLonger(space, front, last, i, to);
    }
    forall k | 0 <= k < |spans| ensures IsWord(space, front + [last], spans[k].from, spans[k].to) && spans[k].to < from {
      assert before[k] == spans[k] && IsWord(space, front, before[k].from, before[k].to);
    }
    forall k, m | 0 <= k < m < |spans| ensures spans[k].to < spans[m].from {
      assert before[k] == spans[k] && before[m] == spans[m];
    }
    forall i: nat, to: nat | IsWord(space, front + [last], i, to) ensures Span(i, to) in spans || Span(i, to) == Span(from, n + 1) {
      assert Span(i, if to < n then to else n) in before;
      LastIsLast(spans, Span(from, n), Span(i, if to < n then to else n));
    }
    SpansSnoc(space, front + [last], spans, Span(from, n + 1));
  }

  lemma LastIsLast(spans: seq<Span>, last: Span, one: Span)
    requires one in spans + [last]
    ensures one in spans || one == last
  {
  }

  lemma {:induction false} SpansAreAll(space: char -> bool, s: string)
    ensures AllSpans(space, s, Spans(space, s))
  {
    if s != "" {
      var front, last := s[..|s| - 1], s[|s| - 1];
      assert s == front + [last];
      SpansAreAll(space, front);
      EndOfSpans(space, front);
      OneMore(space, front, last);
      SpansOneMore(space, front, last, Spans(space, front), Spans(space, s));
    }
  }

  /** The spans, with a span more or a longer last one. */
  lemma SpansOneMore(space: char -> bool, front: string, last: char, spans: seq<Span>, longer: seq<Span>)
    requires AllSpans(space, front, spans) && longer == SpanAdded(space, front, last, spans)
    requires front != "" && !space(front[|front| - 1]) ==> spans != [] && spans[|spans| - 1].to == |front|
    ensures AllSpans(space, front + [last], longer)
  {
    if space(last) {
      SpacedOut(space, front, last, spans);
    } else if front != "" && !space(front[|front| - 1]) {
      var m := |spans| - 1;
      assert spans == spans[..m] + [Span(spans[m].from, |front|)];
      LongerWord(space, front, last, spans[..m], spans[m].from);
    } else {
      NewWord(space, front, last, spans);
    }
  }

  ghost function SpanAdded(space: char -> bool, front: string, last: char, spans: seq<Span>): seq<Span> {
    var n := |front|;
    if space(last) then spans
    else if front != "" && !space(front[n - 1]) && spans != [] then spans[..|spans| - 1] + [Span(spans[|spans| - 1].from, n + 1)]
    else spans + [Span(n, n + 1)]
  }

  function WordAdded(space: char -> bool, front: string, last: char, words: seq<string>): seq<string> {
    if space(last) then words
    else if front != "" && !space(front[|front| - 1]) && words != [] then words[..|words| - 1] + [words[|words| - 1] + [last]]
    else words + [[last]]
  }

  lemma OneMore(space: char -> bool, front: string, last: char)
    ensures Spans(space, front + [last]) == SpanAdded(space, front, last, Spans(space, front))
    ensures Words(space, front + [last]) == WordAdded(space, front, last, Words(space, front))
  {
    assert (front + [last])[..|front|] == front;
  }

  lemma SpellSnoc(s: string, spans: seq<Span>, words: seq<string>, span: Span, word: string)
    requires Spell(s, spans, words) && span.from <= span.to <= |s| && word == s[span.from..span.to]
    ensures Spell(s, spans + [span], words + [word])
  {
  }

  lemma SpellLonger(s: string, last: char, spans: seq<Span>, words: seq<string>)
    requires Spell(s, spans, words)
    ensures Spell(s + [last], spans, words)
  {
    forall k | 0 <= k < |spans| ensures words[k] == (s + [last])[spans[k].from..spans[k].to] {
      assert (s + [last])[spans[k].from..spans[k].to] == s[spans[k].from..spans[k].to];
    }
  }

  lemma SpellLongerWord(s: string, last: char, spans: seq<Span>, words: seq<string>)
    requires Spell(s, spans, words) && spans != [] && spans[|spans| - 1].to == |s|
    ensures var m := |spans| - 1;
            Spell(s + [last], spans[..m] + [Span(spans[m].from, |s| + 1)], words[..m] + [words[m] + [last]])
  {
    var m := |spans| - 1;
    SpellLonger(s, last, spans[..m], words[..m]);
    assert s[spans[m].from..|s|] + [last] == (s + [last])[spans[m].from..|s| + 1];
    SpellSnoc(s + [last], spans[..m], words[..m], Span(spans[m].from, |s| + 1), words[m] + [last]);
  }

  lemma {:induction false} WordsAreSpelled(space: char -> bool, s: string)
    ensures Spell(s, Spans(space, s), Words(space, s))
  {
    if s != "" {
      var front, last := s[..|s| - 1], s[|s| - 1];
      assert s == front + [last];
      WordsAreSpelled(space, front);
      EndOfSpans(space, front);
      OneMore(space, front, last);
      SpellOneMore(space, front, last, Spans(space, front), Words(space, front));
    }
  }

  lemma SpellOneMore(space: char -> bool, front: string, last: char, spans: seq<Span>, words: seq<string>)
    requires Spell(front, spans, words)
    requires front != "" && !space(front[|front| - 1]) ==> spans != [] && spans[|spans| - 1].to == |front|
    ensures Spell(front + [last], SpanAdded(space, front, last, spans), WordAdded(space, front, last, words))
  {
    var n := |front|;
    if !space(last) && front != "" && !space(front[n - 1]) {
      SpellLongerWord(front, last, spans, words);
    } else {
      SpellLonger(front, last, spans, words);
      if !space(last) {
        SpellSnoc(front + [last], spans, words, Span(n, n + 1), [last]);
      }
    }
  }

  /** The words of a text are its longest pieces without a space, all of them and in order. */
  lemma WordsAreMaximal(space: char -> bool, s: string)
    ensures exists spans :: AllSpans(space, s, spans) && Spell(s, spans, Words(space, s))
    ensures forall k :: 0 <= k < |Words(space, s)| ==> Words(space, s)[k] != "" && forall c :: c in Words(space, s)[k] ==> !space(c)
  {
    var spans, words := Spans(space, s), Words(space, s);
    SpansAreAll(space, s);
    WordsAreSpelled(space, s);
    forall k | 0 <= k < |words| ensures words[k] != "" && forall c :: c in words[k] ==> !space(c) {
      assert IsWord(space, s, spans[k].from, spans[k].to);
    }
  }

  /** " ".join(words). */
  function Spaced(words: seq<string>): string {
    if words == [] then "" else Joined(words, ' ')
  }

  /** No word is empty, and there is one where a text does not end in a space. */
  lemma EndOfWords(space: char -> bool, s: string)
    ensures forall k :: 0 <= k < |Words(space, s)| ==> Words(space, s)[k] != ""
    ensures (s != "" && !space(s[|s| - 1]) ==> Words(space, s) != []) && (s == "" ==> Words(space, s) == [])
  {
    WordsAreMaximal(space, s);
    WordsAreSpelled(space, s);
    EndOfSpans(space, s);
  }

  lemma SpacedOneMore(space: char -> bool, front: string, last: char, words: seq<string>)
    requires (front != "" && !space(front[|front| - 1]) ==> words != []) && (front == "" ==> words == [])
    requires forall k :: 0 <= k < |words| ==> words[k] != ""
    ensures Spaced(WordAdded(space, front, last, words))
         == if space(last) then Spaced(words)
            else if Spaced(words) != "" && front != "" && space(front[|front| - 1]) then Spaced(words) + " " + [last]
            else Spaced(words) + [last]
  {
    if words != [] {
      JoinedIsLong(words, ' ');
      var m := |words| - 1;
      JoinedLonger(words, ' ', last);
      assert words[m := words[m] + [last]] == words[..m] + [words[m] + [last]];
      JoinedSnoc(words, ' ', [last]);
    }
  }

  lemma {:induction false} SplitOfJoined(words: seq<string>, sep: char)
    requires words != [] && forall w :: w in words ==> sep !in w
    ensures SplitOn(Joined(words, sep), sep) == words
  {
    var front, last := words[..|words| - 1], words[|words| - 1];
    assert words == front + [last] && last in words;
    if front == [] {
      SplitPlain(last, sep);
    } else {
      SplitOfJoined(front, sep);
      SplitSnoc(Joined(front, sep), sep, last);
    }
  }

  lemma {:induction false} JoinedIsLong(words: seq<string>, sep: char)
    requires words != [] && forall w :: w in words ==> w != ""
    ensures Joined(words, sep) != ""
  {
    assert words[|words| - 1] in words;
  }

  /** Where the blank is a space, texts joined from words are equal only if the words are. */
  lemma SpacedAlikeIff(space: char -> bool, a: string, b: string)
    requires space(' ')
    ensures Spaced(Words(space, a)) == Spaced(Words(space, b)) <==> Words(space, a) == Words(space, b)
  {
    var left, right := Words(space, a), Words(space, b);
    WordsAreMaximal(space, a);
    WordsAreMaximal(space, b);
    if left != [] {
      SplitOfJoined(left, ' ');
      JoinedIsLong(left, ' ');
    }
    if right != [] {
      SplitOfJoined(right, ' ');
      JoinedIsLong(right, ' ');
    }
  }

  /** A text without a space character is its own only word. */
  lemma {:induction false} WholeWord(space: char -> bool, s: string)
    requires s != "" && forall c :: c in s ==> !space(c)
    ensures Words(space, s) == [s]
  {
    var front, last := s[..|s| - 1], s[|s| - 1];
    assert s == front + [last];
    NotSpaces(space, front, last);
    OneMore(space, front, last);
    if front != "" {
      WholeWord(space, front);
    }
  }

  lemma NotSpaces(space: char -> bool, front: string, last: char)
    requires forall c :: c in front + [last] ==> !space(c)
    ensures !space(last) && (forall c :: c in front ==> !space(c)) && (front != "" ==> !space(front[|front| - 1]))
  {
    assert (front + [last])[|front|] == last;
    assert forall c :: c in front ==> c in front + [last];
  }
}
