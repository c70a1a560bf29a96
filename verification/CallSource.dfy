/** scripts/migration_guard.py, `_call_source`: cutting one balanced call expression out of source text. */
module CallSource {
  import opened Common

  /** Where the call that is being scanned at offset `k` ends; the end of the text if it is never closed. */
  function CallEnd(source: string, k: nat, depth: int, quote: Option<char>): (end: nat)
    requires k <= |source|
    ensures k <= end <= |source|
    decreases |source| - k
  {
    if k == |source| then k
    else if quote.Some? then
      CallEnd(source, k + 1, depth, if source[k] == quote.value && k > 0 && source[k - 1] != '\\' then None else quote)
    else if source[k] == '\'' || source[k] == '"' then CallEnd(source, k + 1, depth, Some(source[k]))
    else if source[k] == '(' then CallEnd(source, k + 1, depth + 1, None)
    else if source[k] == ')' then
      if depth == 1 then k + 1 else CallEnd(source, k + 1, depth - 1, None)
    else CallEnd(source, k + 1, depth, None)
  }

  method CallSourceAt(source: string, open: nat) returns (call: string)
    requires open <= |source|
    ensures call == source[open..CallEnd(source, open, 0, None)]
  {
    var depth := 0;
    var quote: Option<char> := None;
    for offset := open to |source|
      invariant CallEnd(source, open, 0, None) == CallEnd(source, offset, depth, quote)
      invariant quote.Some? ==> offset > open
    {
      var c := source[offset];
      if quote.Some? {
        if c == quote.value && source[offset - 1] != '\\' {
          quote := None;
        }
        continue;
      }
      if c == '\'' || c == '"' {
        quote := Some(c);
      } else if c == '(' {
        depth := depth + 1;
      } else if c == ')' {
        depth := depth - 1;
        if depth == 0 {
          return source[open..offset + 1];
        }
      }
    }
    return source[open..];
  }

  /** Argument text: plain characters, string literals and nested parentheses. */
  datatype Piece = Plain(c: char) | Quoted(q: char, body: string) | Nested(pieces: seq<Piece>)

  function Text(piece: Piece): string {
    match piece
    case Plain(c) => [c]
    case Quoted(q, body) => [q] + body + [q]
    case Nested(pieces) => ['('] + TextOf(pieces) + [')']
  }

  function TextOf(pieces: seq<Piece>): string {
    if pieces == [] then "" else Text(pieces[0]) + TextOf(pieces[1..])
  }

  /** A literal whose body neither closes it early nor ends in a backslash. */
  predicate LiteralBody(q: char, body: string) {
    && (forall i :: 0 <= i < |body| && body[i] == q ==> i > 0 && body[i - 1] == '\\')
    && (body != "" ==> body[|body| - 1] != '\\')
  }

  predicate WellFormed(piece: Piece) {
    match piece
    case Plain(c) => c != '(' && c != ')' && c != '\'' && c != '"'
    case Quoted(q, body) => (q == '\'' || q == '"') && LiteralBody(q, body)
    case Nested(pieces) => forall p :: p in pieces ==> WellFormed(p)
  }

  /** `text` occurs in `source` at `k`. */
  predicate At(source: string, k: nat, text: string) {
    k + |text| <= |source| && forall i :: 0 <= i < |text| ==> source[k + i] == text[i]
  }

  lemma AtSlice(source: string, k: nat, text: string)
    requires At(source, k, text)
    ensures source[k..k + |text|] == text
  {
  }

  lemma AtMiddle(before: string, text: string, after: string)
    ensures At(before + text + after, |before|, text)
  {
    forall i | 0 <= i < |text| ensures (before + text + after)[|before| + i] == text[i] {
      assert (before + text)[|before| + i] == text[i];
    }
  }

  lemma AtSplit(source: string, k: nat, a: string, b: string)
    requires At(source, k, a + b)
    ensures At(source, k, a) && At(source, k + |a|, b)
  {
    forall i | 0 <= i < |a| ensures source[k + i] == a[i] {
      assert (a + b)[i] == a[i];
    }
    forall i | 0 <= i < |b| ensures source[k + |a| + i] == b[i] {
      assert (a + b)[|a| + i] == b[i];
    }
  }

  /** The two parentheses and what stands between them. */
  lemma NestedAt(source: string, k: nat, inner: string)
    requires At(source, k, ['('] + inner + [')'])
    ensures At(source, k + 1, inner) && k + 1 + |inner| < |source|
    ensures source[k] == '(' && source[k + 1 + |inner|] == ')'
  {
    AtSplit(source, k, ['('] + inner, [')']);
    AtSplit(source, k, ['('], inner);
    AtStarts(source, k, ['(']);
    AtStarts(source, k + 1 + |inner|, [')']);
  }

  /** Inside a literal the scan runs to its closing quote. */
  lemma {:induction false} ScanLiteral(source: string, k: nat, q: char, body: string, i: nat, depth: int)
    requires i <= |body| && LiteralBody(q, body) && (q == '\'' || q == '"')
    requires At(source, k, [q] + body + [q])
    ensures CallEnd(source, k + 1 + i, depth, Some(q)) == CallEnd(source, k + |body| + 2, depth, None)
    decreases |body| - i
  {
    var text := [q] + body + [q];
    assert source[k + 1 + i] == text[1 + i] && source[k + i] == text[i];
    if i < |body| {
      assert text[1 + i] == body[i] && (i > 0 ==> text[i] == body[i - 1]);
      ScanLiteral(source, k, q, body, i + 1, depth);
    } else {
      assert text[i] == if body == "" then q else body[i - 1];
    }
  }

  lemma AtStarts(source: string, k: nat, text: string)
    requires At(source, k, text) && text != ""
    ensures source[k] == text[0]
  {
    assert source[k + 0] == text[0];
  }

  lemma ScanQuoted(source: string, k: nat, q: char, body: string, depth: int)
    requires LiteralBody(q, body) && (q == '\'' || q == '"') && At(source, k, [q] + body + [q])
    ensures CallEnd(source, k, depth, None) == CallEnd(source, k + |body| + 2, depth, None)
  {
    AtStarts(source, k, [q] + body + [q]);
    ScanLiteral(source, k, q, body, 0, depth);
  }

  /** Below the outermost level the scan passes over one well-formed piece and returns at the depth it came with. */
  lemma {:induction false} ScanPiece(source: string, k: nat, piece: Piece, depth: int)
    requires At(source, k, Text(piece)) && depth >= 1 && WellFormed(piece)
    ensures CallEnd(source, k, depth, None) == CallEnd(source, k + |Text(piece)|, depth, None)
    decreases piece, 0
  {
    match piece
    case Plain(c) => AtStarts(source, k, [c]);
    case Quoted(q, body) => ScanQuoted(source, k, q, body, depth);
    case Nested(inner) =>
      NestedAt(source, k, TextOf(inner));
      ScanPieces(source, k + 1, inner, depth + 1);
  }

  lemma {:induction false} ScanPieces(source: string, k: nat, pieces: seq<Piece>, depth: int)
    requires At(source, k, TextOf(pieces)) && depth >= 1
    requires forall p :: p in pieces ==> WellFormed(p)
    ensures CallEnd(source, k, depth, None) == CallEnd(source, k + |TextOf(pieces)|, depth, None)
    decreases pieces, 1
  {
    if pieces != [] {
      var first, rest := pieces[0], pieces[1..];
      assert TextOf(pieces) == Text(first) + TextOf(rest);
      assert first in pieces && forall p :: p in rest ==> p in pieces;
      AtSplit(source, k, Text(first), TextOf(rest));
      ScanPiece(source, k, first, depth);
      ScanPieces(source, k + |Text(first)|, rest, depth);
    }
  }

  lemma CallEndsAtItsParenthesis(source: string, k: nat, arguments: seq<Piece>)
    requires At(source, k, Text(Nested(arguments)))
    requires forall p :: p in arguments ==> WellFormed(p)
    ensures CallEnd(source, k, 0, None) == k + |Text(Nested(arguments))|
  {
    NestedAt(source, k, TextOf(arguments));
    ScanPieces(source, k + 1, arguments, 1);
  }

  /** Cutting a call out of any text gives back exactly its parenthesised arguments, whatever stands around it: nested
      calls and parentheses inside string literals do not mislead it. */
  lemma CallIsCutExactly(before: string, arguments: seq<Piece>, after: string)
    requires forall p :: p in arguments ==> WellFormed(p)
    ensures var source := before + Text(Nested(arguments)) + after;
            source[|before|..CallEnd(source, |before|, 0, None)] == Text(Nested(arguments))
  {
    var call := Text(Nested(arguments));
    var source := before + call + after;
    AtMiddle(before, call, after);
    AtSlice(source, |before|, call);
    CallEndsAtItsParenthesis(source, |before|, arguments);
  }

  // ----- string literals as Python reads them -----

  /** The body of a one-line Python literal: every quote in it, and every backslash, belongs to an escape. */
  predicate PythonBody(q: char, body: string) {
    || body == ""
    || (body[0] == '\\' && |body| >= 2 && PythonBody(q, body[2..]))
    || (body[0] != '\\' && body[0] != q && PythonBody(q, body[1..]))
  }

  /** A body that begins with an escape is one if what follows the escaped character is; so is a body of an escape alone. */
  lemma EscapeFirst(q: char, c: char, rest: string)
    ensures PythonBody(q, ['\\', c] + rest) <==> PythonBody(q, rest)
    ensures PythonBody(q, ['\\', c])
  {
    assert (['\\', c] + rest)[2..] == rest && ['\\', c] + [] == ['\\', c];
    assert ['\\', c][2..] == "";
  }

  predicate EndsInBackslash(body: string) {
    body != "" && body[|body| - 1] == '\\'
  }

  predicate QuotesEscaped(q: char, body: string) {
    forall i :: 0 <= i < |body| && body[i] == q ==> i > 0 && body[i - 1] == '\\'
  }

  lemma {:induction false} PythonEscapesQuotes(q: char, body: string)
    requires PythonBody(q, body) && q != '\\'
    ensures QuotesEscaped(q, body)
  {
    if body != "" {
      var n := if body[0] == '\\' then 2 else 1;
      PythonEscapesQuotes(q, body[n..]);
      forall i | 0 <= i < |body| && body[i] == q ensures i > 0 && body[i - 1] == '\\' {
        if i >= n {
          assert body[n..][i - n] == body[i];
        }
      }
    }
  }

  /** Of Python's literals the scan reads right exactly those that do not end in an escaped backslash. */
  lemma PythonLiteralIsReadIff(q: char, body: string)
    requires PythonBody(q, body) && q != '\\'
    ensures LiteralBody(q, body) <==> !EndsInBackslash(body)
  {
    PythonEscapesQuotes(q, body);
  }

  lemma {:induction false} ScanBody(source: string, k: nat, q: char, body: string, i: nat, depth: int)
    requires i <= |body| && QuotesEscaped(q, body) && At(source, k, [q] + body + [q])
    ensures CallEnd(source, k + 1 + i, depth, Some(q)) == CallEnd(source, k + 1 + |body|, depth, Some(q))
    decreases |body| - i
  {
    if i < |body| {
      var text := [q] + body + [q];
      assert source[k + 1 + i] == text[1 + i] == body[i] && source[k + i] == text[i];
      assert i > 0 ==> text[i] == body[i - 1];
      ScanBody(source, k, q, body, i + 1, depth);
    }
  }

  /** Behind the closing quote of a literal the scan is back outside, unless the body ends in a backslash: then it is still
      inside and goes on looking for a quote. */
  lemma LiteralIsLeftIff(source: string, k: nat, q: char, body: string, depth: int)
    requires PythonBody(q, body) && (q == '\'' || q == '"') && At(source, k, [q] + body + [q])
    ensures CallEnd(source, k + 1, depth, Some(q))
         == CallEnd(source, k + |body| + 2, depth, if EndsInBackslash(body) then Some(q) else None)
  {
    var text := [q] + body + [q];
    PythonEscapesQuotes(q, body);
    ScanBody(source, k, q, body, 0, depth);
    assert source[k + 1 + |body|] == text[1 + |body|] == q && source[k + |body|] == text[|body|];
    assert text[|body|] == if body == "" then q else body[|body| - 1];
  }

  lemma {:induction false} NeverClosed(source: string, k: nat, q: char, depth: int)
    requires k <= |source| && forall i :: k <= i < |source| ==> source[i] != q
    ensures CallEnd(source, k, depth, Some(q)) == |source|
    decreases |source| - k
  {
    if k < |source| {
      NeverClosed(source, k + 1, q, depth);
    }
  }

  /** A call of one literal, with no such quote in the text after it, is cut right exactly when the literal does not end in a
      backslash or the text ends with the call. Otherwise the cut takes everything to the end of the text. */
  lemma OneLiteralCutIff(q: char, body: string, after: string)
    requires PythonBody(q, body) && (q == '\'' || q == '"') && q !in after
    ensures var call := Text(Nested([Quoted(q, body)]));
            && (CallEnd(call + after, 0, 0, None) == |call| <==> !EndsInBackslash(body) || after == "")
            && (EndsInBackslash(body) ==> CallEnd(call + after, 0, 0, None) == |call + after|)
  {
    var literal := Quoted(q, body);
    var call := Text(Nested([literal]));
    assert TextOf([literal]) == Text(literal) + TextOf([]) == Text(literal);
    if EndsInBackslash(body) {
      CutRunsOn(q, body, after);
    } else {
      PythonLiteralIsReadIff(q, body);
      AtMiddle("", call, after);
      assert "" + call + after == call + after;
      CallEndsHere(call + after, call, literal);
    }
  }

  /** The quote that follows the backslash is skipped, and no other follows. */
  lemma CutRunsOn(q: char, body: string, after: string)
    requires PythonBody(q, body) && (q == '\'' || q == '"') && q !in after && EndsInBackslash(body)
    ensures var source := ['('] + ([q] + body + [q]) + [')'] + after; CallEnd(source, 0, 0, None) == |source|
  {
    var literal := [q] + body + [q];
    var source := ['('] + literal + [')'] + after;
    AtMiddle(['('], literal, [')'] + after);
    assert source == ['('] + literal + ([')'] + after);
    AtStarts(source, 1, literal);
    LiteralIsLeftIff(source, 1, q, body, 1);
    NoMoreQuotes(q, literal, after);
    NeverClosed(source, |body| + 3, q, 1);
  }

  lemma NoMoreQuotes(q: char, literal: string, after: string)
    requires (q == '\'' || q == '"') && q !in after
    ensures var source := ['('] + literal + [')'] + after; forall i :: |literal| + 1 <= i < |source| ==> source[i] != q
  {
    var source, n := ['('] + literal + [')'] + after, |literal| + 1;
    forall i | n <= i < |source| ensures source[i] != q {
      if i > n {
        assert source[i] == after[i - n - 1] && after[i - n - 1] in after;
      }
    }
  }

  lemma CallEndsHere(source: string, call: string, literal: Piece)
    requires call == Text(Nested([literal])) && WellFormed(literal) && At(source, 0, call)
    ensures CallEnd(source, 0, 0, None) == |call|
  {
    CallEndsAtItsParenthesis(source, 0, [literal]);
  }
}
