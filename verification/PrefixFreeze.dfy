/** Three ways to keep the longest newline-terminated prefix of the first `n` bytes of a growing file. */
module PrefixFreeze {
  import opened Results
  import opened Ordering

  type Bytes = seq<uint8>

  const NEWLINE: uint8 := 10
  const CHUNK_BYTES := 1_048_576
  const BUFFER_BYTES := 16_777_216

  // ----- the prefix rule -----

  /** The position of the last newline before `end`, or -1. */
  function LastBefore(data: Bytes, end: nat): (i: int)
    requires end <= |data|
    ensures -1 <= i < end
    ensures i >= 0 ==> data[i] == NEWLINE
    ensures forall k :: i < k < end ==> data[k] != NEWLINE
  {
    if end == 0 then -1
    else if data[end - 1] == NEWLINE then end - 1
    else LastBefore(data, end - 1)
  }

  /** The position of the last newline, or -1. */
  function LastNewline(data: Bytes): (i: int)
    ensures -1 <= i < |data|
    ensures i >= 0 ==> data[i] == NEWLINE
    ensures forall k :: i < k < |data| ==> data[k] != NEWLINE
  {
    LastBefore(data, |data|)
  }

  function Kept(data: Bytes): Bytes {
    data[..LastNewline(data) + 1]
  }

  function NewlinesBefore(data: Bytes, end: nat): nat
    requires end <= |data|
  {
    if end == 0 then 0 else NewlinesBefore(data, end - 1) + (if data[end - 1] == NEWLINE then 1 else 0)
  }

  function Newlines(data: Bytes): nat {
    NewlinesBefore(data, |data|)
  }

  predicate Terminated(data: Bytes) {
    |data| == 0 || data[|data| - 1] == NEWLINE
  }

  predicate NoNewline(data: Bytes) {
    forall i :: 0 <= i < |data| ==> data[i] != NEWLINE
  }

  /** The kept bytes are the longest prefix that is empty or ends with a newline. */
  lemma KeptIsLongest(data: Bytes, prefix: Bytes)
    requires prefix <= data && Terminated(prefix)
    ensures Terminated(Kept(data)) && Kept(data) <= data
    ensures |prefix| <= |Kept(data)|
  {
    if |prefix| > 0 {
      assert data[|prefix| - 1] == prefix[|prefix| - 1];
    }
  }

  /** A terminated part followed by a part without newlines: the first part is what is kept. */
  lemma KeptOf(head: Bytes, tail: Bytes)
    requires Terminated(head) && NoNewline(tail)
    ensures Kept(head + tail) == head
  {
    var data := head + tail;
    assert forall i :: |head| <= i < |data| ==> data[i] == tail[i - |head|];
    if |head| > 0 {
      assert data[|head| - 1] == head[|head| - 1];
    }
    assert data[..|head|] == head;
  }

  lemma {:induction false} NewlinesOfPrefix(left: Bytes, right: Bytes, end: nat)
    requires end <= |left|
    ensures NewlinesBefore(left + right, end) == NewlinesBefore(left, end)
  {
    if end > 0 {
      NewlinesOfPrefix(left, right, end - 1);
    }
  }

  lemma {:induction false} NewlinesBeyond(left: Bytes, right: Bytes, end: nat)
    requires end <= |right|
    ensures NewlinesBefore(left + right, |left| + end) == Newlines(left) + NewlinesBefore(right, end)
  {
    if end == 0 {
      NewlinesOfPrefix(left, right, |left|);
    } else {
      NewlinesBeyond(left, right, end - 1);
    }
  }

  lemma NewlinesConcat(left: Bytes, right: Bytes)
    ensures Newlines(left + right) == Newlines(left) + Newlines(right)
  {
    NewlinesBeyond(left, right, |right|);
  }

  // ----- one shot -----

  datatype Frozen = Frozen(bytes: Bytes, excluded: nat)

  /** Reads everything at once and cuts after the last newline. */
  method FreezeSource(source: Bytes, n: nat, maximumBytes: nat) returns (r: Option<Frozen>)
    ensures r.None? <==> n == 0 || n > maximumBytes || |source| < n || |Kept(source[..n])| == 0
    ensures r.Some? ==> r.value.bytes == Kept(source[..n]) && |r.value.bytes| + r.value.excluded == n
  {
    if n == 0 || n > maximumBytes || |source| < n {
      return None;
    }
    var payload := source[..n];
    var newline := LastNewline(payload);
    if newline < 0 {
      return None;
    }
    return Some(Frozen(payload[..newline + 1], n - (newline + 1)));
  }

  // ----- streaming by chunks -----

  datatype StreamError = ByteBound | Truncated | BufferExceeded | RowBound | NoRecords

  datatype Streamed = Streamed(bytes: Bytes, rows: nat)

  /** Splits after the last newline. */
  function SplitComplete(data: Bytes): (Bytes, Bytes) {
    (Kept(data), Rest(data))
  }

  lemma SplitsWhole(data: Bytes)
    ensures Kept(data) + Rest(data) == data && NoNewline(Rest(data))
  {
  }

  /** The bytes after the last newline. */
  function Rest(data: Bytes): Bytes {
    data[LastNewline(data) + 1..]
  }

  /** What the stream has written, still carries and has counted once it has read `data`. */
  ghost predicate Carried(data: Bytes, output: Bytes, trailing: Bytes, rows: nat) {
    output == Kept(data) && trailing == Rest(data) && rows == Newlines(data)
  }

  /** One chunk keeps the stream's state right whether or not it completes a line. */
  lemma CarryOn(before: Bytes, chunk: Bytes, output: Bytes, trailing: Bytes, rows: nat)
    requires Carried(before, output, trailing, rows)
    ensures var parts := SplitComplete(trailing + chunk);
      && Carried(before + chunk, output + parts.0, parts.1, rows + Newlines(parts.0))
      && (parts.0 == [] ==> Carried(before + chunk, output, trailing + chunk, rows))
  {
    var parts := SplitComplete(trailing + chunk);
    var grown := output + parts.0;
    SplitsWhole(trailing + chunk);
    SplitsWhole(before);
    assert before == output + trailing;
    assert grown + parts.1 == output + (trailing + chunk) == before + chunk;
    if parts.0 == [] {
      assert grown == output;
    }
    KeptOf(grown, parts.1);
    assert (grown + parts.1)[|grown|..] == parts.1;
    KeptNewlines(before);
    KeptNewlines(before + chunk);
    NewlinesConcat(output, parts.0);
  }

  /** The same for the next `size` bytes of the file. */
  lemma ReadChunk(source: Bytes, start: nat, end: nat, output: Bytes, trailing: Bytes, rows: nat)
    requires start <= end <= |source| && Carried(source[..start], output, trailing, rows)
    ensures var data := trailing + source[start..end];
      var parts := SplitComplete(data);
      && Carried(source[..end], output + parts.0, parts.1, rows + Newlines(parts.0))
      && (parts.0 == [] ==> Carried(source[..end], output, data, rows))
  {
    CarryOn(source[..start], source[start..end], output, trailing, rows);
    NextPrefix(source, start, end - start);
  }

  lemma NextPrefix(source: Bytes, done: nat, size: nat)
    requires done + size <= |source|
    ensures source[..done] + source[done..done + size] == source[..done + size]
  {
  }

  /** The rows written so far are never more than the newlines of the frozen bytes. */
  lemma RowsSoFar(source: Bytes, done: nat, n: nat)
    requires done <= n <= |source|
    ensures Newlines(source[..done]) <= Newlines(source[..n])
  {
    NewlinesConcat(source[..done], source[done..n]);
    assert source[..done] + source[done..n] == source[..n];
  }

  /** Without a newline nothing is kept, and the other way round. */
  lemma NoRowsNoBytes(data: Bytes)
    ensures Newlines(data) == 0 <==> Kept(data) == []
  {
    KeptNewlines(data);
    if Kept(data) != [] {
      assert Newlines(Kept(data)) > 0;
    }
  }

  /** A stretch of the source longer than the buffer and without a newline. */
  ghost predicate LongRecord(source: Bytes) {
    exists i, j :: 0 <= i <= j <= |source| && j - i > BUFFER_BYTES && NoNewline(source[i..j])
  }

  lemma CarriedTooLong(source: Bytes, done: nat)
    requires done <= |source| && |Rest(source[..done])| > BUFFER_BYTES
    ensures LongRecord(source)
  {
    var i := LastNewline(source[..done]) + 1;
    assert source[i..done] == source[..done][i..];
    assert NoNewline(source[i..done]);
  }

  /** The length of the next read: at most a chunk, at least one byte unless the file has ended. */
  function NextRead(chunks: seq<nat>, remaining: nat, available: nat): (size: nat)
    requires remaining > 0
    ensures size <= remaining && size <= available && size <= CHUNK_BYTES
    ensures size == 0 <==> available == 0
  {
    var want := if |chunks| > 0 && chunks[0] > 0 then chunks[0] else CHUNK_BYTES;
    Least(Least(want, CHUNK_BYTES), Least(remaining, available))
  }

  /**
   * Reads the first `n` bytes in whatever pieces the file yields (`chunks` are the lengths it returns),
   * carrying the unterminated rest from piece to piece. Whatever the pieces, a stream that is not
   * rejected keeps exactly the longest terminated prefix and counts its newlines.
   */
  method StreamPrefix(source: Bytes, n: nat, chunks: seq<nat>, maximumBytes: nat, maximumRows: nat)
    returns (r: Result<Streamed, StreamError>)
    ensures r.Ok? ==>
      && n <= |source| && 0 < Newlines(source[..n]) <= maximumRows
      && r.value == Streamed(Kept(source[..n]), Newlines(source[..n]))
    ensures r == Err(ByteBound) <==> n == 0 || n > maximumBytes
    ensures r == Err(Truncated) ==> |source| < n
    ensures r == Err(BufferExceeded) ==> LongRecord(source)
    ensures r == Err(RowBound) && n <= |source| ==> Newlines(source[..n]) > maximumRows
    ensures r == Err(NoRecords) ==> n <= |source| && Kept(source[..n]) == []
  {
    if n == 0 || n > maximumBytes {
      return Err(ByteBound);
    }
    var remaining, rows, output: Bytes, trailing: Bytes, rest := n, 0, [], [], chunks;
    var start := 0;
    while remaining > 0
      invariant 0 <= remaining <= n && 0 <= rows <= maximumRows
      invariant start == n - remaining <= |source|
      invariant Carried(source[..start], output, trailing, rows)
      decreases remaining
    {
      var size := NextRead(rest, remaining, |source| - start);
      if size == 0 {
        return Err(Truncated);
      }
      rest := if |rest| > 0 then rest[1..] else [];
      var end := start + size;
      var chunk := source[start..end];
      ReadChunk(source, start, end, output, trailing, rows);
      start, remaining := end, remaining - size;
      var data := trailing + chunk;
      var parts := SplitComplete(data);
      if remaining > 0 && parts.0 == [] {
        trailing := data;
        if |trailing| > BUFFER_BYTES {
          CarriedTooLong(source, end);
          return Err(BufferExceeded);
        }
      } else {
        output, trailing, rows := output + parts.0, parts.1, rows + Newlines(parts.0);
        if rows > maximumRows {
          if n <= |source| {
            RowsSoFar(source, end, n);
          }
          return Err(RowBound);
        }
      }
    }
    NoRowsNoBytes(source[..n]);
    if rows == 0 {
      return Err(NoRecords);
    }
    return Ok(Streamed(output, rows));
  }

  function Least(x: nat, y: nat): nat {
    if x <= y then x else y
  }

  // ----- line by line -----

  datatype Evidence = Evidence(kept: Bytes, trailing: nat, lines: nat)

  /** The next line including its newline, or whatever is left; what `readline` with a limit returns. */
  function Line(data: Bytes): (line: Bytes)
    ensures line <= data && (|data| > 0 ==> |line| > 0)
    ensures line == data || Terminated(line)
    ensures |line| > 0 ==> NoNewline(line[..|line| - 1])
  {
    if |data| == 0 then []
    else if data[0] == NEWLINE then [data[0]]
    else
      var rest := Line(data[1..]);
      assert |rest| > 0 ==> ([data[0]] + rest)[..|rest|] == [data[0]] + rest[..|rest| - 1];
      [data[0]] + rest
  }

  lemma LineNewlines(line: Bytes)
    requires |line| > 0 && NoNewline(line[..|line| - 1])
    ensures Newlines(line) == if line[|line| - 1] == NEWLINE then 1 else 0
  {
    var m := |line| - 1;
    PlainHasNone(line[..m]);
    assert line == line[..m] + [line[m]];
    NewlinesConcat(line[..m], [line[m]]);
    assert NewlinesBefore([line[m]], 1) == NewlinesBefore([line[m]], 0) + (if line[m] == NEWLINE then 1 else 0);
  }

  lemma PlainHasNone(data: Bytes)
    requires NoNewline(data)
    ensures Newlines(data) == 0
  {
    PlainBefore(data, |data|);
  }

  lemma {:induction false} PlainBefore(data: Bytes, end: nat)
    requires NoNewline(data) && end <= |data|
    ensures NewlinesBefore(data, end) == 0
  {
    if end > 0 {
      PlainBefore(data, end - 1);
    }
  }

  /** The first `consumed` bytes are complete lines, `lines` of them. */
  ghost predicate LinesRead(seen: Bytes, consumed: nat, lines: nat) {
    consumed <= |seen| && Terminated(seen[..consumed]) && lines == Newlines(seen[..consumed])
  }

  /** A line from where the reader stands either completes one more line or is the unterminated rest. */
  lemma ReadOn(seen: Bytes, consumed: nat, lines: nat)
    requires consumed < |seen| && LinesRead(seen, consumed, lines)
    ensures var line := Line(seen[consumed..]);
      && |line| > 0
      && if line[|line| - 1] == NEWLINE then LinesRead(seen, consumed + |line|, lines + 1)
         else consumed + |line| == |seen| && NoNewline(seen[consumed..])
  {
    var line := Line(seen[consumed..]);
    LineRead(seen[..consumed], seen[consumed..]);
    assert line == seen[consumed..consumed + |line|];
    NextPrefix(seen, consumed, |line|);
  }

  /** A terminated line grows a terminated prefix by itself and by one newline. */
  lemma LineGrows(head: Bytes, line: Bytes)
    requires |line| > 0 && line[|line| - 1] == NEWLINE && NoNewline(line[..|line| - 1])
    ensures Terminated(head + line) && Newlines(head + line) == Newlines(head) + 1
  {
    LineNewlines(line);
    NewlinesConcat(head, line);
    assert (head + line)[|head + line| - 1] == line[|line| - 1];
  }

  lemma PlainLine(line: Bytes)
    requires |line| > 0 && line[|line| - 1] != NEWLINE && NoNewline(line[..|line| - 1])
    ensures NoNewline(line)
  {
    assert forall i :: 0 <= i < |line| - 1 ==> line[i] == line[..|line| - 1][i];
  }

  /** What is read next is a complete line, or the unterminated rest. */
  lemma LineRead(head: Bytes, left: Bytes)
    requires |left| > 0 && Terminated(head)
    ensures var line := Line(left);
      && |line| > 0
      && (line[|line| - 1] == NEWLINE ==>
            Terminated(head + line) && Newlines(head + line) == Newlines(head) + 1)
      && (line[|line| - 1] != NEWLINE ==> line == left && NoNewline(left))
  {
    var line := Line(left);
    if line[|line| - 1] == NEWLINE {
      LineGrows(head, line);
    } else {
      PlainLine(line);
    }
  }

  /** A complete line of the data, with its newline. */
  ghost predicate IsLine(data: Bytes, i: nat, j: nat) {
    && i < j <= |data| && (i == 0 || data[i - 1] == NEWLINE) && data[j - 1] == NEWLINE
    && forall k :: i <= k < j - 1 ==> data[k] != NEWLINE
  }

  /** Every complete line that ends by `end` is accepted. */
  ghost predicate AcceptedUpto(data: Bytes, end: nat, accepts: Bytes -> bool) {
    forall i: nat, j: nat :: j <= end && IsLine(data, i, j) ==> accepts(data[i..j])
  }

  ghost predicate SomeRefused(data: Bytes, accepts: Bytes -> bool) {
    exists i: nat, j: nat :: IsLine(data, i, j) && !accepts(data[i..j])
  }

  /** The line read at `start` is the only one that ends after `start` and by its own end. */
  lemma OnlyLine(data: Bytes, start: nat, end: nat)
    requires start < end <= |data| && Terminated(data[..start])
    requires data[end - 1] == NEWLINE && NoNewline(data[start..end - 1])
    ensures IsLine(data, start, end)
    ensures forall i: nat, j: nat :: start < j <= end && IsLine(data, i, j) ==> i == start && j == end
  {
    assert forall k :: start <= k < end - 1 ==> data[k] == data[start..end - 1][k - start];
    assert start > 0 ==> data[..start][start - 1] == data[start - 1];
  }

  lemma AcceptNext(data: Bytes, start: nat, end: nat, accepts: Bytes -> bool)
    requires start < end <= |data| && Terminated(data[..start])
    requires data[end - 1] == NEWLINE && NoNewline(data[start..end - 1])
    requires AcceptedUpto(data, start, accepts)
    ensures accepts(data[start..end]) ==> AcceptedUpto(data, end, accepts)
    ensures !accepts(data[start..end]) ==> SomeRefused(data, accepts)
  {
    OnlyLine(data, start, end);
    if accepts(data[start..end]) {
      forall i: nat, j: nat | j <= end && IsLine(data, i, j)
        ensures accepts(data[i..j])
      {
        assert j > start ==> i == start && j == end;
      }
    }
  }

  lemma NoneRefused(data: Bytes, kept: nat, accepts: Bytes -> bool)
    requires kept <= |data| && NoNewline(data[kept..]) && AcceptedUpto(data, kept, accepts)
    ensures !SomeRefused(data, accepts)
  {
    assert forall k :: kept <= k < |data| ==> data[k] == data[kept..][k - kept];
    forall i: nat, j: nat | IsLine(data, i, j)
      ensures accepts(data[i..j])
    {
      assert j - 1 < kept;
    }
  }

  /** What reading one complete line at `start` means for the lines accepted so far. */
  lemma LineAccepted(data: Bytes, start: nat, accepts: Bytes -> bool)
    requires start < |data| && Terminated(data[..start]) && AcceptedUpto(data, start, accepts)
    requires var line := Line(data[start..]); line[|line| - 1] == NEWLINE
    ensures var line := Line(data[start..]);
      && (accepts(line) ==> AcceptedUpto(data, start + |line|, accepts))
      && (!accepts(line) ==> SomeRefused(data, accepts))
  {
    var line := Line(data[start..]);
    var end := start + |line|;
    assert line == data[start..][..|line|] == data[start..end];
    assert data[start..end - 1] == line[..|line| - 1];
    AcceptNext(data, start, end, accepts);
  }

  /**
   * Reads lines until `n` bytes are consumed or the file ends; a complete line the caller's parser
   * refuses (blank or not JSON) rejects the source. What is kept and what is left always add up to `n`.
   */
  method ReadRecords(source: Bytes, n: nat, accepts: Bytes -> bool) returns (r: Option<Evidence>)
    ensures r.None? <==> SomeRefused(if |source| < n then source else source[..n], accepts)
    ensures r.Some? ==>
      var seen := if |source| < n then source else source[..n];
      && r.value.kept == Kept(seen)
      && r.value.lines == Newlines(seen)
      && |r.value.kept| + r.value.trailing == n
  {
    var seen := if |source| < n then source else source[..n];
    var consumed, kept, trailing, lines := 0, 0, 0, 0;
    while consumed < n
      invariant kept == consumed <= |seen| <= n && trailing == 0 <= lines
      invariant LinesRead(seen, consumed, lines) && AcceptedUpto(seen, consumed, accepts)
      decreases n - consumed
    {
      var line := Line(seen[consumed..]);
      if |line| == 0 {
        break;
      }
      ReadOn(seen, consumed, lines);
      if line[|line| - 1] == NEWLINE {
        LineAccepted(seen, consumed, accepts);
      }
      consumed := consumed + |line|;
      if line[|line| - 1] != NEWLINE {
        trailing := |line|;
        break;
      }
      lines := lines + 1;
      kept := kept + |line|;
      if !accepts(line) {
        return None;
      }
    }
    ReadEnd(seen, kept, lines);
    NoneRefused(seen, kept, accepts);
    return Some(Evidence(seen[..kept], trailing + (n - consumed), lines));
  }

  lemma ReadEnd(seen: Bytes, kept: nat, lines: nat)
    requires LinesRead(seen, kept, lines) && NoNewline(seen[kept..])
    ensures seen[..kept] == Kept(seen) && lines == Newlines(seen)
  {
    assert seen == seen[..kept] + seen[kept..];
    KeptOf(seen[..kept], seen[kept..]);
    KeptNewlines(seen);
  }

  /** Cutting off the unterminated rest loses no newline. */
  lemma KeptNewlines(data: Bytes)
    ensures Newlines(Kept(data)) == Newlines(data)
  {
    SplitsWhole(data);
    NewlinesConcat(Kept(data), Rest(data));
    PlainHasNone(Rest(data));
  }

  /** Whenever none rejects the source, all three keep the same bytes; stream and reader count the same rows. */
  method FreezersAgree(source: Bytes, n: nat, chunks: seq<nat>, maximumBytes: nat, maximumRows: nat,
                       accepts: Bytes -> bool)
    returns (shot: Option<Frozen>, streamed: Result<Streamed, StreamError>, read: Option<Evidence>)
    ensures shot.Some? && streamed.Ok? && read.Some? ==>
      && n <= |source|
      && shot.value.bytes == streamed.value.bytes == read.value.kept == Kept(source[..n])
      && shot.value.excluded == read.value.trailing == n - |Kept(source[..n])|
      && streamed.value.rows == read.value.lines == Newlines(source[..n])
  {
    shot := FreezeSource(source, n, maximumBytes);
    streamed := StreamPrefix(source, n, chunks, maximumBytes, maximumRows);
    read := ReadRecords(source, n, accepts);
    if n <= |source| {
      KeptNewlines(source[..n]);
    }
  }
}
