/** routers/files.py: the Range header and the streaming loop of the development file route. */
module FileServer {
  import opened Common

  const CHUNK_SIZE := 1024 * 1024

  type Bytes = seq<bv8>

  /** str.strip and int(). */
  datatype Python = Python(strip: string -> string, parse: string -> Option<int>)

  datatype Refusal = InvalidRange | NotSatisfiable

  /** `header` is None when there is no Range header, so the whole file is served. */
  function ByteRange(py: Python, header: Option<string>, size: nat): Result<(int, int), Refusal> {
    if header.None? || header.value == "" then Ok((0, size - 1))
    else
      var (unit, ranges) := Cut<char>(header.value, '=');
      if ranges.None? || py.strip(unit) != "bytes" then Err(InvalidRange)
      else
        var (rawStart, rawEnd) := Cut<char>(ranges.value, '-');
        var start := if rawStart == "" then Some(0) else py.parse(rawStart);
        var end := if rawEnd.None? || rawEnd.value == "" then Some(size - 1) else py.parse(rawEnd.value);
        if start.None? || end.None? then Err(InvalidRange)
        else if start.value < 0 || end.value >= size || start.value > end.value then Err(NotSatisfiable)
        else Ok((start.value, end.value))
  }

  function Flat(chunks: seq<Bytes>): Bytes {
    if chunks == [] then [] else Flat(chunks[..|chunks| - 1]) + chunks[|chunks| - 1]
  }

  lemma FlatSnoc(chunks: seq<Bytes>, chunk: Bytes)
    ensures Flat(chunks + [chunk]) == Flat(chunks) + chunk
  {
    assert (chunks + [chunk])[..|chunks|] == chunks;
  }

  /** One more chunk read: the streamed bytes are again a piece of the file. */
  lemma Streamed(content: Bytes, from: nat, position: nat, chunks: seq<Bytes>, chunk: Bytes)
    requires from <= position && position + |chunk| <= |content|
    requires Flat(chunks) == content[from..position] && chunk == content[position..position + |chunk|]
    ensures Flat(chunks + [chunk]) == content[from..position + |chunk|]
  {
    FlatSnoc(chunks, chunk);
  }

  /** f.read(n): at the end of the file nothing, otherwise at least one and at most n bytes, as few as the disk likes. */
  method Read(content: Bytes, position: nat, n: nat, short: nat -> nat) returns (chunk: Bytes)
    requires position <= |content| && n > 0
    ensures |chunk| <= n && position + |chunk| <= |content| && chunk == content[position..position + |chunk|]
    ensures chunk == [] <==> position == |content|
  {
    var most := Min(n, |content| - position);
    var k := Max(1, Min(most, short(position)));
    return if most == 0 then [] else content[position..position + k];
  }

  /** No chunk is empty or over the chunk size. */
  predicate Chunked(chunks: seq<Bytes>) {
    forall i :: 0 <= i < |chunks| ==> 0 < |chunks[i]| <= CHUNK_SIZE
  }

  /** _stream_file over a file that may have shrunk since its size was taken: exactly the requested bytes that are there, in
      order, in chunks that are neither empty nor over the chunk size. */
  method StreamFile(content: Bytes, start: nat, end: int, short: nat -> nat) returns (chunks: seq<Bytes>)
    requires start <= end + 1
    ensures Flat(chunks) == content[Min(start, |content|)..Min(end + 1, |content|)]
    ensures forall i :: 0 <= i < |chunks| ==> 0 < |chunks[i]| <= 1024 * 1024
  {
    chunks := [];
    ghost var upTo: nat := Min(end + 1, |content|);
    var from: nat := Min(start, |content|);
    var position: nat := from;
    var remaining := end - start + 1;
    while remaining > 0
      invariant from <= position <= upTo && remaining >= 0 && (remaining == 0 || position == |content| ==> position == upTo)
      invariant start <= |content| ==> position + remaining == end + 1
      invariant Flat(chunks) == content[from..position]
      invariant Chunked(chunks)
      decreases remaining
    {
      var chunk := Read(content, position, Min(CHUNK_SIZE, remaining), short);
      if chunk == [] {
        break;
      }
      Streamed(content, from, position, chunks, chunk);
      remaining := remaining - |chunk|;
      position := position + |chunk|;
      chunks := chunks + [chunk];
    }
  }

  /** What an accepted request returns is the announced number of bytes, Content-Length: both ends count. */
  method Serve(py: Python, header: Option<string>, content: Bytes, short: nat -> nat) returns (body: Result<Bytes, Refusal>)
    ensures body.Ok? <==> ByteRange(py, header, |content|).Ok?
    ensures body.Err? ==> ByteRange(py, header, |content|) == Err(body.error)
    ensures body.Ok? ==> var (start, end) := ByteRange(py, header, |content|).value;
                         0 <= start <= end + 1 <= |content| && body.value == content[start..end + 1] && |body.value| == end - start + 1
  {
    var range := ByteRange(py, header, |content|);
    if range.Err? {
      return Err(range.error);
    }
    var chunks := StreamFile(content, range.value.0, range.value.1, short);
    return Ok(Flat(chunks));
  }

  /** "bytes=-n", the last n bytes in section 2.1 of RFC 7233, is read as bytes 0 to n: it serves the first n + 1 bytes, and is
      refused when n is the whole length or more. */
  lemma SuffixRangeIsPrefix(py: Python, raw: string, n: nat, size: nat)
    requires raw != "" && py.parse(raw) == Some(n) && py.strip("bytes") == "bytes"
    ensures ByteRange(py, Some("bytes" + ['='] + ['-'] + raw), size) == if n < size then Ok((0, n)) else Err(NotSatisfiable)
  {
    CutAt<char>("bytes", '=', ['-'] + raw);
    assert "bytes" + ['='] + ['-'] + raw == "bytes" + ['='] + (['-'] + raw);
    CutAt<char>("", '-', raw);
    assert "" + ['-'] + raw == ['-'] + raw;
  }

  /** "bytes=a-b" is served as asked exactly when it lies inside the file. */
  lemma PlainRange(py: Python, rawStart: string, rawEnd: string, a: int, b: int, size: nat)
    requires rawStart != "" && rawEnd != "" && '-' !in rawStart
    requires py.parse(rawStart) == Some(a) && py.parse(rawEnd) == Some(b) && py.strip("bytes") == "bytes"
    ensures ByteRange(py, Some("bytes" + ['='] + (rawStart + ['-'] + rawEnd)), size)
            == if 0 <= a <= b < size then Ok((a, b)) else Err(NotSatisfiable)
  {
    CutAt<char>("bytes", '=', rawStart + ['-'] + rawEnd);
    CutAt<char>(rawStart, '-', rawEnd);
  }

  /** Without a header, or with an empty one, the whole file is served. */
  lemma NoHeader(py: Python, header: Option<string>, size: nat)
    requires header == None || header == Some("")
    ensures ByteRange(py, header, size) == Ok((0, size - 1))
  {
  }

  /** "bytes=a-" is served to the end of the file exactly when it begins inside it. */
  lemma OpenRange(py: Python, rawStart: string, a: int, size: nat)
    requires rawStart != "" && '-' !in rawStart && py.parse(rawStart) == Some(a) && py.strip("bytes") == "bytes"
    ensures ByteRange(py, Some("bytes" + ['='] + (rawStart + ['-'] + "")), size) == if 0 <= a < size then Ok((a, size - 1)) else Err(NotSatisfiable)
  {
    CutAt<char>("bytes", '=', rawStart + ['-'] + "");
    CutAt<char>(rawStart, '-', "");
  }

  /** A header without a unit, of another unit, or with a bound that is no number is refused as such. */
  lemma BrokenRange(py: Python, unit: string, rawStart: string, rawEnd: string, size: nat)
    requires '=' !in unit && '-' !in rawStart
    ensures unit != "" ==> ByteRange(py, Some(unit), size) == Err(InvalidRange)
    ensures py.strip(unit) != "bytes" || (rawStart != "" && py.parse(rawStart).None?) || (rawEnd != "" && py.parse(rawEnd).None?) ==>
              ByteRange(py, Some(unit + ['='] + (rawStart + ['-'] + rawEnd)), size) == Err(InvalidRange)
  {
    CutNowhere<char>(unit, '=');
    CutAt<char>(unit, '=', rawStart + ['-'] + rawEnd);
    CutAt<char>(rawStart, '-', rawEnd);
  }
}
