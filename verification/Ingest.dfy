/**
 The incremental reader of attention records (harness_watcher_implementation/attention.py).

 Append-only source files are read a chunk at a time; the unfinished last line is carried
 in the cursor.  Canonical records are appended to a durable timeline before the cursor
 advances, so a crash in between replays lines that are already recorded.
 */
module Ingest {
  import opened Common

  newtype Byte = b: int | 0 <= b < 256

  type Bytes = seq<Byte>

  const LF: Byte := 10

  type Path = string

  /******* Lines *******/

  // A complete line without its terminator, and the byte span of line and terminator.
  datatype Line = Line(start: nat, end: nat, bytes: Bytes)

  ghost function FirstBreak(data: Bytes): (k: nat)
    requires LF in data
    ensures k < |data| && data[k] == LF && LF !in data[..k]
  {
    if data[0] == LF then 0
    else
      assert data == [data[0]] + data[1..];
      var k := FirstBreak(data[1..]) + 1;
      assert data[..k] == [data[0]] + data[1..][..k - 1];
      k
  }

  // The complete lines of a stretch of bytes that begins at the given offset.
  ghost function Spans(data: Bytes, base: nat): seq<Line>
    decreases |data|
  {
    if LF !in data then []
    else
      var k := FirstBreak(data);
      [Line(base, base + k + 1, data[..k])] + Spans(data[k + 1..], base + k + 1)
  }

  ghost predicate EndsLine(data: Bytes) {
    data == [] || data[|data| - 1] == LF
  }

  lemma FirstBreakIsUnique(data: Bytes, k: nat)
    requires k < |data| && data[k] == LF && LF !in data[..k]
    ensures FirstBreak(data) == k
  {
  }

  lemma NoSpans(data: Bytes, base: nat)
    requires LF !in data
    ensures Spans(data, base) == []
  {
  }

  lemma SpansStep(data: Bytes, base: nat, k: nat)
    requires k < |data| && data[k] == LF && LF !in data[..k]
    ensures Spans(data, base) == [Line(base, base + k + 1, data[..k])] + Spans(data[k + 1..], base + k + 1)
  {
    FirstBreakIsUnique(data, k);
  }

  // Reading in two pieces, cut behind a line break, finds the same lines.
  lemma {:induction false} SpansSplit(a: Bytes, b: Bytes, base: nat)
    requires EndsLine(a)
    ensures Spans(a + b, base) == Spans(a, base) + Spans(b, base + |a|)
    decreases |a|
  {
    hide Spans, FirstBreak;
    if a == [] {
      assert a + b == b;
      NoSpans(a, base);
    } else {
      assert a[|a| - 1] in a;
      var k := FirstBreak(a);
      assert (a + b)[..k] == a[..k] && (a + b)[k] == LF && (a + b)[k + 1..] == a[k + 1..] + b;
      SpansStep(a, base, k);
      SpansStep(a + b, base, k);
      SpansSplit(a[k + 1..], b, base + k + 1);
      var head, p, q := [Line(base, base + k + 1, a[..k])], Spans(a[k + 1..], base + k + 1), Spans(b, base + |a|);
      assert base + k + 1 + |a[k + 1..]| == base + |a|;
      assert head + (p + q) == (head + p) + q;
    }
  }

  // Every line starts at the beginning or behind a break.
  lemma {:induction false} LineStarts(data: Bytes, base: nat)
    ensures forall l | l in Spans(data, base) ::
              l.start == base || (base < l.start <= base + |data| && data[l.start - base - 1] == LF)
    decreases |data|
  {
    hide Spans, FirstBreak;
    if LF !in data {
      NoSpans(data, base);
    } else {
      var k := FirstBreak(data);
      SpansStep(data, base, k);
      LineStarts(data[k + 1..], base + k + 1);
      forall l | l in Spans(data[k + 1..], base + k + 1)
        ensures base < l.start <= base + |data| && data[l.start - base - 1] == LF
      {
        if l.start > base + k + 1 {
          assert data[l.start - base - 1] == data[k + 1..][l.start - base - k - 2];
        }
      }
    }
  }

  // A line is the bytes of its span without the break that ends it.
  ghost predicate Exact(l: Line, data: Bytes, base: nat) {
    && base <= l.start < l.end <= base + |data|
    && data[l.start - base..l.end - base] == l.bytes + [LF]
    && LF !in l.bytes
  }

  lemma ExactInSuffix(l: Line, data: Bytes, base: nat, n: nat)
    requires n <= |data| && Exact(l, data[n..], base + n)
    ensures Exact(l, data, base)
  {
    assert data[l.start - base..l.end - base] == data[n..][l.start - base - n..l.end - base - n];
  }

  lemma {:induction false} SpansAreExact(data: Bytes, base: nat)
    ensures forall l | l in Spans(data, base) :: Exact(l, data, base)
    decreases |data|
  {
    hide Exact, Spans, FirstBreak;
    if LF !in data {
      NoSpans(data, base);
    } else {
      var k := FirstBreak(data);
      SpansStep(data, base, k);
      SpansAreExact(data[k + 1..], base + k + 1);
      FirstIsExact(data, base, k);
      forall l | l in Spans(data[k + 1..], base + k + 1)
        ensures Exact(l, data, base)
      {
        ExactInSuffix(l, data, base, k + 1);
      }
    }
  }

  // Line follows line, and behind the last one no line ends: together with their bytes this
  // leaves no other list of lines.
  lemma {:induction false} SpansAreAll(data: Bytes, base: nat)
    ensures var lines := Spans(data, base);
            && (lines == [] ==> LF !in data)
            && (lines != [] ==> lines[0].start == base)
            && (forall i | 0 < i < |lines| :: lines[i].start == lines[i - 1].end)
            && (lines != [] ==> var end := lines[|lines| - 1].end; base <= end <= base + |data| && LF !in data[end - base..])
    decreases |data|
  {
    hide Spans, FirstBreak;
    if LF !in data {
      NoSpans(data, base);
    } else {
      var k := FirstBreak(data);
      var rest := Spans(data[k + 1..], base + k + 1);
      SpansStep(data, base, k);
      SpansAreAll(data[k + 1..], base + k + 1);
      if rest != [] {
        assert data[k + 1..][rest[|rest| - 1].end - base - k - 1..] == data[rest[|rest| - 1].end - base..];
      }
    }
  }

  lemma FirstIsExact(data: Bytes, base: nat, k: nat)
    requires k < |data| && data[k] == LF && LF !in data[..k]
    ensures Exact(Line(base, base + k + 1, data[..k]), data, base)
  {
    assert data[..k + 1] == data[..k] + [data[k]];
    assert data[0..k + 1] == data[..k + 1];
  }

  // Where the line that begins at pos ends.
  method FindBreak(data: Bytes, pos: nat) returns (k: nat)
    requires pos < |data| && EndsLine(data)
    ensures pos <= k < |data| && data[k] == LF && LF !in data[pos..k]
  {
    k := pos;
    while data[k] != LF
      invariant pos <= k < |data| && LF !in data[pos..k]
      decreases |data| - k
    {
      assert data[pos..k + 1] == data[pos..k] + [data[k]];
      k := k + 1;
    }
  }

  // The line scanner of the source; on data without CR a line ends at each LF.
  method LineSpans(data: Bytes, base: nat) returns (lines: seq<Line>)
    requires EndsLine(data)
    ensures lines == Spans(data, base)
  {
    hide Spans, FirstBreak;
    lines := [];
    var pos := 0;
    assert data[0..] == data;
    while pos < |data|
      invariant 0 <= pos <= |data|
      invariant Spans(data, base) == lines + Spans(data[pos..], base + pos)
    {
      var k := FindBreak(data, pos);
      var line := Line(base + pos, base + k + 1, data[pos..k]);
      assert data[pos..][..k - pos] == data[pos..k] && data[pos..][k - pos + 1..] == data[k + 1..];
      SpansStep(data[pos..], base + pos, k - pos);
      assert lines + ([line] + Spans(data[k + 1..], base + k + 1)) == (lines + [line]) + Spans(data[k + 1..], base + k + 1);
      lines := lines + [line];
      pos := k + 1;
    }
    NoSpans(data[pos..], base + pos);
  }

  /******* One chunk of one source *******/

  // generation counts replacements; partial is the carried unfinished line.
  datatype SourceState = SourceState(fileId: string, offset: nat, generation: nat, partial: Bytes, partialStart: nat)

  datatype File = File(fileId: string, content: Bytes)

  ghost predicate Carried(st: SourceState, seen: Bytes) {
    && |seen| == st.offset && st.partialStart + |st.partial| == st.offset
    && seen[st.partialStart..] == st.partial && LF !in st.partial
  }

  ghost predicate OnLineStart(st: SourceState, seen: Bytes) {
    st.partialStart <= |seen| && EndsLine(seen[..st.partialStart])
  }

  // The end of the last complete line of a stretch.
  function LastBreak(data: Bytes): (n: nat)
    ensures n <= |data| && EndsLine(data[..n]) && LF !in data[n..]
    ensures n == 0 <==> LF !in data
  {
    if data == [] then 0
    else if data[|data| - 1] == LF then |data|
    else
      var init := data[..|data| - 1];
      var n := LastBreak(init);
      assert data[n..] == init[n..] + [data[|data| - 1]];
      assert data[..n] == init[..n];
      assert data == init + [data[|data| - 1]];
      n
  }

  // No run of more than limit bytes without a line break.
  ghost predicate LinesBounded(content: Bytes, limit: nat) {
    forall i, j | 0 <= i <= j <= |content| && LF !in content[i..j] :: j - i <= limit
  }

  // lines are the complete lines found; overlong tells that a remainder was dropped.
  datatype Chunk = Chunk(lines: seq<Line>, next: SourceState, overlong: bool)

  predicate SameStream(state: Option<SourceState>, file: File) {
    state.Some? && state.value.fileId == file.fileId && state.value.offset <= |file.content|
  }

  // Where this poll takes up reading, as a state with nothing read yet if the file was replaced.
  function Resumed(state: Option<SourceState>, file: File): SourceState {
    if SameStream(state, file) then state.value
    else SourceState(file.fileId, 0, (if state.Some? then state.value.generation else 0) + 1, [], 0)
  }

  function ReadTo(offset: nat, chunk: nat, size: nat): nat {
    if offset + chunk <= size then offset + chunk else size
  }

  // The next state stands a chunk behind the start, or at the end of the file if that is nearer.
  ghost predicate ChunkOn(start: nat, chunk: nat, size: nat, offset: nat) {
    start <= offset <= size && offset <= start + chunk && (offset < start + chunk ==> offset == size)
  }

  // A chunk read from where the state stands, or from the start of a new generation if the file
  // is another one or has become shorter.
  ghost predicate ReadsOn(state: Option<SourceState>, file: File, chunk: nat, next: SourceState) {
    && next.fileId == file.fileId
    && match state
       case None => next.generation == 1 && ChunkOn(0, chunk, |file.content|, next.offset)
       case Some(st) =>
         if st.fileId != file.fileId || |file.content| < st.offset
         then next.generation == st.generation + 1 && ChunkOn(0, chunk, |file.content|, next.offset)
         else next.generation == st.generation && ChunkOn(st.offset, chunk, |file.content|, next.offset)
  }

  lemma ResumedReadsOn(state: Option<SourceState>, file: File, chunk: nat, next: SourceState)
    requires next.fileId == file.fileId && next.generation == Resumed(state, file).generation
    requires next.offset == ReadTo(Resumed(state, file).offset, chunk, |file.content|)
    ensures ReadsOn(state, file, chunk, next)
  {
  }

  // The carried partial line and the bytes read behind it.
  function Combined(from: SourceState, content: Bytes, end: nat): Bytes
    requires from.offset <= end <= |content|
  {
    from.partial + content[from.offset..end]
  }

  // More than the limit follows the last complete line.
  ghost predicate Unended(data: Bytes, limit: nat) {
    |data| > limit && LF !in data[|data| - limit - 1..]
  }

  lemma UnendedExactly(data: Bytes, limit: nat)
    ensures Unended(data, limit) <==> |data| - LastBreak(data) > limit
  {
    hide LastBreak;
    var n, k := LastBreak(data), |data| - limit - 1;
    if k >= 0 {
      if n <= k {
        assert data[k..] == data[n..][k - n..];
      } else {
        assert data[..n][n - 1] == data[k..][n - 1 - k];
      }
    }
  }

  // The file still has the carried bytes where they were read, at the start of a line.
  ghost predicate Continues(st: SourceState, content: Bytes) {
    && st.partialStart <= st.offset <= |content|
    && content[st.partialStart..st.offset] == st.partial
    && (st.partialStart == 0 || content[st.partialStart - 1] == LF)
  }

  lemma WholeLines(data: Bytes, base: nat)
    ensures Spans(data, base) == Spans(data[..LastBreak(data)], base)
  {
    hide Spans;
    var n := LastBreak(data);
    assert data == data[..n] + data[n..];
    SpansSplit(data[..n], data[n..], base);
    NoSpans(data[n..], base + n);
  }

  // The complete lines of a prefix come first.
  lemma SpansPrefix(a: Bytes, b: Bytes, base: nat)
    requires a <= b
    ensures Spans(a, base) <= Spans(b, base)
  {
    hide Spans;
    var n := LastBreak(a);
    WholeLines(a, base);
    assert b == a[..n] + b[n..];
    SpansSplit(a[..n], b[n..], base);
  }

  lemma ContinuesFinds(from: SourceState, content: Bytes, end: nat)
    requires Continues(from, content) && from.offset <= end <= |content|
    ensures forall l | l in Spans(Combined(from, content, end), from.partialStart) :: l in Spans(content, 0)
  {
    assert Combined(from, content, end) == content[from.partialStart..end];
    InnerLines(content, from.partialStart, end);
  }

  lemma InnerLines(content: Bytes, start: nat, end: nat)
    requires start <= end <= |content| && EndsLine(content[..start])
    ensures forall l | l in Spans(content[start..end], start) :: l in Spans(content, 0)
  {
    hide Spans;
    var head, tail := content[..start], content[start..];
    assert content == head + tail;
    SpansSplit(head, tail, 0);
    assert content[start..end] == tail[..end - start];
    SpansPrefix(tail[..end - start], tail, start);
    var found, all := Spans(tail[..end - start], start), Spans(tail, start);
    forall l | l in found
      ensures l in Spans(head, 0) + all
    {
      var i :| 0 <= i < |found| && found[i] == l;
      assert all[i] == l;
    }
  }

  // What a poll delivers are lines of the file exactly if the file continues what is carried.
  // Otherwise it was rewritten, and the first line delivered is none of its lines.
  lemma MisreadExactly(from: SourceState, content: Bytes, end: nat)
    requires from.partialStart + |from.partial| == from.offset <= end <= |content| && LF !in from.partial
    requires Spans(Combined(from, content, end), from.partialStart) != []
    ensures var lines := Spans(Combined(from, content, end), from.partialStart);
            && ((forall l | l in lines :: l in Spans(content, 0)) <==> Continues(from, content))
            && (lines[0] in Spans(content, 0) <==> Continues(from, content))
  {
    hide Spans, FirstBreak;
    var start, combined := from.partialStart, Combined(from, content, end);
    var lines := Spans(combined, start);
    if LF !in combined {
      NoSpans(combined, start);
    }
    var k := FirstBreak(combined);
    SpansStep(combined, start, k);
    if lines[0] in Spans(content, 0) {
      SpansAreExact(content, 0);
      LineStarts(content, 0);
      assert content[start..start + k + 1] == combined[..k] + [LF];
      CarriedStands(from, content, end, k);
    }
    if Continues(from, content) {
      ContinuesFinds(from, content, end);
    }
  }

  lemma CarriedStands(from: SourceState, content: Bytes, end: nat, k: nat)
    requires from.partialStart + |from.partial| == from.offset <= end <= |content| && LF !in from.partial
    requires k < |Combined(from, content, end)| && Combined(from, content, end)[k] == LF
    requires from.partialStart + k + 1 <= |content|
    requires content[from.partialStart..from.partialStart + k + 1] == Combined(from, content, end)[..k] + [LF]
    ensures content[from.partialStart..from.offset] == from.partial
  {
    var combined, start, n := Combined(from, content, end), from.partialStart, |from.partial|;
    assert combined[..n] == from.partial;
    assert forall i | 0 <= i < n :: combined[i] == from.partial[i] && from.partial[i] in from.partial;
    assert combined[..k][..n] == combined[..n];
    assert content[start..start + n] == content[start..start + k + 1][..n];
  }

  // The chunk read from a resumed state that has seen some bytes: now has been seen.
  ghost predicate Advanced(from: SourceState, seen: Bytes, r: Chunk, now: Bytes) {
    && Carried(r.next, now) && seen <= now
    && r.next.fileId == from.fileId && r.next.generation == from.generation
    && from.partialStart <= r.next.partialStart
    && (!r.overlong ==> r.lines == Spans(now[from.partialStart..r.next.partialStart], from.partialStart))
    && (!r.overlong && OnLineStart(from, seen) ==> OnLineStart(r.next, now))
  }

  // The lines of a chunk, and what is carried behind them or dropped.
  ghost predicate Divided(from: SourceState, r: Chunk, now: Bytes, limit: nat) {
    && from.partialStart <= |now|
    && r.lines == Spans(now[from.partialStart..], from.partialStart)
    && (r.overlong <==> Unended(now[from.partialStart..], limit))
    && r.next.partialStart == if r.overlong then |now| else from.partialStart + LastBreak(now[from.partialStart..])
  }

  lemma RestIsCarried(now: Bytes, carryStart: nat, complete: nat, from: SourceState, seen: Bytes, lines: seq<Line>)
    requires carryStart == from.partialStart && carryStart + complete <= |now| && seen <= now && carryStart <= |seen|
    requires complete == LastBreak(now[carryStart..])
    requires lines == Spans(now[carryStart..][..complete], carryStart)
    ensures var next := SourceState(from.fileId, |now|, from.generation, now[carryStart..][complete..], carryStart + complete);
            Advanced(from, seen, Chunk(lines, next, false), now)
  {
    hide Spans, LastBreak;
    assert now[carryStart..][..complete] == now[carryStart..carryStart + complete];
    assert now[carryStart..][complete..] == now[carryStart + complete..];
    assert now[..carryStart] == seen[..carryStart];
    if complete > 0 {
      assert now[..carryStart + complete][carryStart + complete - 1] == now[carryStart..][..complete][complete - 1];
    } else {
      assert now[..carryStart + complete] == now[..carryStart];
    }
  }

  lemma DroppedIsCarried(now: Bytes, from: SourceState, seen: Bytes, lines: seq<Line>)
    requires from.partialStart <= |now| && seen <= now
    ensures var next := SourceState(from.fileId, |now|, from.generation, [], |now|);
            Advanced(from, seen, Chunk(lines, next, true), now)
  {
  }

  // Two files that a read from this offset on cannot tell apart.
  ghost predicate Looks(file: File, stream: File, offset: nat) {
    && stream.fileId == file.fileId && |stream.content| == |file.content|
    && offset <= |file.content| && stream.content[offset..] == file.content[offset..]
  }

  // The stream that a source is to its reader: the bytes seen, and the file's behind them.
  ghost function Streamed(state: Option<SourceState>, seen: Bytes, file: File): File {
    if SameStream(state, file) && |seen| <= |file.content| then File(file.fileId, seen + file.content[|seen|..]) else file
  }

  lemma StreamedIsFile(state: Option<SourceState>, seen: Bytes, file: File)
    requires SameStream(state, file) ==> |seen| == state.value.offset
    ensures Streamed(state, seen, file) == file <==> !SameStream(state, file) || seen <= file.content
  {
    if SameStream(state, file) {
      var stream := seen + file.content[|seen|..];
      assert stream[..|seen|] == seen;
      if seen <= file.content {
        assert file.content == seen + file.content[|seen|..];
      }
    }
  }

  lemma StreamLooks(state: Option<SourceState>, seen: Bytes, file: File)
    requires SameStream(state, file) ==> |seen| == state.value.offset
    ensures Looks(file, Streamed(state, seen, file), Resumed(state, file).offset)
    ensures SameStream(state, file) ==> seen <= Streamed(state, seen, file).content
  {
    if SameStream(state, file) {
      var stream := seen + file.content[|seen|..];
      assert stream[|seen|..] == file.content[|seen|..] && stream[..|seen|] == seen;
    }
  }

  // Reads one chunk behind the carried partial line.  A remainder over sixteen chunks is dropped.
  method ReadChunk(file: File, state: Option<SourceState>, chunk: nat, ghost seen: Bytes, ghost stream: File)
    returns (r: Chunk, ghost now: Bytes)
    requires SameStream(state, file) ==> Carried(state.value, seen) && seen <= stream.content
    requires Looks(file, stream, Resumed(state, file).offset)
    ensures now == stream.content[..ReadTo(Resumed(state, file).offset, chunk, |stream.content|)] <= stream.content
    ensures Advanced(Resumed(state, file), if SameStream(state, file) then seen else [], r, now)
    ensures ReadsOn(state, file, chunk, r.next)
    ensures Divided(Resumed(state, file), r, now, 16 * chunk)
    ensures LinesBounded(stream.content, 16 * chunk) ==> !r.overlong
    // what is delivered are lines of the stream, and of the file exactly if it continues what is carried
    ensures forall l | l in r.lines :: LineOf(l, stream.content, OnLineStart(Resumed(state, file), if SameStream(state, file) then seen else []))
    ensures r.lines != [] ==>
              ((forall l | l in r.lines :: l in Spans(file.content, 0)) <==> Continues(Resumed(state, file), file.content))
    ensures Looks(file, stream, r.next.offset)
  {
    hide Spans, LastBreak, LinesBounded, Advanced, OnLineStart, ReadTo, Carried, Resumed, SameStream, Exact, EndsLine, Combined, Looks,
         Continues, Unended, ReadsOn;
    var from := Resumed(state, file);
    ghost var before := if SameStream(state, file) then seen else [];
    ResumedIsCarried(state, file, seen, stream);
    var end := ReadTo(from.offset, chunk, |file.content|);
    ReadToIsAhead(from.offset, chunk, |file.content|);
    now := stream.content[..end];
    var combined := Combined(from, file.content, end);
    CombinedLooks(from, file, stream, end);
    CombinedIsTail(stream.content, before, from, end);
    var complete := LastBreak(combined);
    UnendedExactly(combined, 16 * chunk);
    ChunkFacts(stream.content, 16 * chunk, from, before, end);
    LinesDelivered(from, before, file.content, stream.content, end);
    var lines := LineSpans(combined[..complete], from.partialStart);
    var remainder := combined[complete..];
    if |remainder| > chunk * 16 {
      r := Chunk(lines, SourceState(file.fileId, end, from.generation, [], end), true);
    } else {
      r := Chunk(lines, SourceState(file.fileId, end, from.generation, remainder, from.partialStart + complete), false);
    }
    ResumedReadsOn(state, file, chunk, r.next);
  }

  // A complete line of the content between line breaks; on intact content, one of its lines.
  ghost predicate LineOf(l: Line, content: Bytes, intact: bool) {
    Exact(l, content, 0) && (intact ==> l in Spans(content, 0))
  }

  lemma LinesDelivered(from: SourceState, seen: Bytes, content: Bytes, stream: Bytes, end: nat)
    requires Carried(from, seen) && seen <= stream && |seen| <= end <= |content| == |stream|
    requires Combined(from, content, end) == Combined(from, stream, end)
    ensures var combined := Combined(from, content, end);
            var lines := Spans(combined, from.partialStart);
            && Spans(combined[..LastBreak(combined)], from.partialStart) == lines
            && (OnLineStart(from, seen) ==> forall l | l in lines :: l in Spans(stream, 0))
            && (lines != [] ==> ((forall l | l in lines :: l in Spans(content, 0)) <==> Continues(from, content)))
  {
    hide Spans, LastBreak;
    var combined := Combined(from, content, end);
    WholeLines(combined, from.partialStart);
    if OnLineStart(from, seen) {
      assert seen == stream[..|seen|] && seen[..from.partialStart] == stream[..from.partialStart];
      ContinuesFinds(from, stream, end);
    }
    if Spans(combined, from.partialStart) != [] {
      MisreadExactly(from, content, end);
    }
  }

  lemma CombinedLooks(from: SourceState, file: File, stream: File, end: nat)
    requires Looks(file, stream, from.offset) && from.offset <= end <= |file.content|
    ensures Combined(from, file.content, end) == Combined(from, stream.content, end)
    ensures Looks(file, stream, end)
  {
    var o := from.offset;
    assert file.content[o..end] == file.content[o..][..end - o] == stream.content[o..][..end - o] == stream.content[o..end];
    assert file.content[end..] == file.content[o..][end - o..] == stream.content[o..][end - o..] == stream.content[end..];
  }

  // Both ways in which a chunk may end, with its remainder kept or dropped.
  lemma ChunkFacts(content: Bytes, limit: nat, from: SourceState, seen: Bytes, end: nat)
    requires from.partialStart <= |seen| <= end <= |content| && seen <= content[..end]
    ensures var now := content[..end];
            var combined := now[from.partialStart..];
            var n := LastBreak(combined);
            var lines := Spans(combined[..n], from.partialStart);
            && Advanced(from, seen, Chunk(lines, SourceState(from.fileId, end, from.generation, combined[n..], from.partialStart + n), false), now)
            && Advanced(from, seen, Chunk(lines, SourceState(from.fileId, end, from.generation, [], end), true), now)
            && (forall l | l in lines :: Exact(l, content, 0))
            && (|combined[n..]| > limit ==> !LinesBounded(content, limit))
  {
    hide Spans, LinesBounded, Advanced, Exact, OnLineStart;
    var now := content[..end];
    var combined := now[from.partialStart..];
    var n := LastBreak(combined);
    var lines := Spans(combined[..n], from.partialStart);
    RestIsCarried(now, from.partialStart, n, from, seen, lines);
    DroppedIsCarried(now, from, seen, lines);
    ChunkLinesAreExact(content, from.partialStart, n, end);
    SliceTail(content, from.partialStart, n, end);
    if |combined[n..]| > limit {
      LongRemainder(content, limit, from.partialStart + n, end);
    }
  }

  lemma ChunkLinesAreExact(content: Bytes, start: nat, complete: nat, end: nat)
    requires start + complete <= end <= |content|
    ensures forall l | l in Spans(content[..end][start..][..complete], start) :: Exact(l, content, 0)
  {
    hide Spans;
    var data := content[..end][start..][..complete];
    assert data == content[start..start + complete];
    SpansAreExact(data, start);
    forall l | l in Spans(data, start)
      ensures Exact(l, content, 0)
    {
      SliceOfSlice(content, start, complete, l.start - start, l.end - start);
    }
  }

  lemma ResumedIsCarried(state: Option<SourceState>, file: File, seen: Bytes, stream: File)
    requires SameStream(state, file) ==> Carried(state.value, seen) && seen <= stream.content
    requires Looks(file, stream, Resumed(state, file).offset)
    ensures var from, before := Resumed(state, file), if SameStream(state, file) then seen else [];
            && Carried(from, before) && before <= stream.content && from.offset == |before| && from.fileId == file.fileId
            && from.offset <= |file.content| == |stream.content|
  {
  }

  lemma ReadToIsAhead(offset: nat, chunk: nat, size: nat)
    requires offset <= size
    ensures offset <= ReadTo(offset, chunk, size) <= size
  {
  }

  // Carried bytes and new ones are the file's from the carried start on.
  lemma CombinedIsTail(content: Bytes, before: Bytes, from: SourceState, end: nat)
    requires before <= content && Carried(from, before) && |before| <= end <= |content|
    ensures from.partialStart <= |before| && from.offset == |before| && before <= content[..end]
    ensures Combined(from, content, end) == content[..end][from.partialStart..]
  {
    assert before == content[..|before|];
  }

  lemma SliceTail(content: Bytes, start: nat, complete: nat, end: nat)
    requires start + complete <= end <= |content|
    ensures content[..end][start..][complete..] == content[start + complete..end]
  {
  }

  lemma LongRemainder(content: Bytes, limit: nat, i: nat, j: nat)
    requires i <= j <= |content| && LF !in content[i..j] && j - i > limit
    ensures !LinesBounded(content, limit)
  {
  }

  // The first lines of a stream, up to the carried partial line, are those delivered.
  ghost predicate Delivered(st: SourceState, seen: Bytes, lines: seq<Line>) {
    Carried(st, seen) && OnLineStart(st, seen) && lines == Spans(seen[..st.partialStart], 0)
  }

  lemma NothingDelivered(file: File)
    ensures Delivered(Resumed(None, file), [], [])
  {
  }

  lemma ChunkDelivers(from: SourceState, seen: Bytes, lines: seq<Line>, r: Chunk, now: Bytes)
    requires Delivered(from, seen, lines) && Advanced(from, seen, r, now) && !r.overlong
    ensures Delivered(r.next, now, lines + r.lines) && |now| == r.next.offset
  {
    LinesJoin(now, from.partialStart, r.next.partialStart, seen);
  }

  // Successive versions of one append-only file whose lines fit sixteen chunks.
  ghost predicate AppendOnly(versions: seq<File>, chunk: nat) {
    && (forall i | 0 <= i < |versions| :: versions[i].fileId == versions[0].fileId)
    && (forall i, j | 0 <= i <= j < |versions| :: versions[i].content <= versions[j].content)
    && (forall i | 0 <= i < |versions| :: LinesBounded(versions[i].content, 16 * chunk))
  }

  lemma NextVersion(versions: seq<File>, chunk: nat, i: nat, seen: Bytes)
    requires AppendOnly(versions, chunk) && i < |versions|
    requires seen <= versions[if i == 0 then 0 else i - 1].content
    ensures seen <= versions[i].content && versions[0].content <= versions[i].content
    ensures versions[i].fileId == versions[0].fileId && LinesBounded(versions[i].content, 16 * chunk)
  {
    if i > 0 {
      assert versions[i - 1].content <= versions[i].content;
    }
  }

  lemma ReadProgress(first: Bytes, content: Bytes, before: nat, chunk: nat, i: nat, seen: Bytes)
    requires first <= content && seen == content[..ReadTo(before, chunk, |content|)] && before <= |content|
    requires before >= i * chunk || before >= |first|
    ensures |seen| >= (i + 1) * chunk || |seen| >= |first|
    ensures |seen| >= |first| ==> first <= seen
  {
    if ReadTo(before, chunk, |content|) == before + chunk {
      assert (i + 1) * chunk == i * chunk + chunk;
    }
  }

  // Chunk independence: however the file grows between polls, and whatever the chunk size,
  // the polls deliver exactly the complete lines of the bytes read so far, in order.
  method ReadThrough(versions: seq<File>, chunk: nat) returns (lines: seq<Line>, st: Option<SourceState>, ghost seen: Bytes)
    requires AppendOnly(versions, chunk)
    ensures versions == [] ==> lines == []
    ensures versions != [] ==>
              && st.Some? && seen <= versions[|versions| - 1].content
              && |seen| == st.value.offset == st.value.partialStart + |st.value.partial|
              && seen[st.value.partialStart..] == st.value.partial && LF !in st.value.partial
              && lines == Spans(seen, 0)
              && forall l | l in lines :: Exact(l, seen, 0)
    ensures versions != [] && |versions| * chunk >= |versions[0].content| ==> versions[0].content <= seen
  {
    hide Spans, Advanced, LinesBounded, Exact, Delivered, Carried, OnLineStart, AppendOnly, ReadTo;
    lines, st, seen := [], None, [];
    if versions == [] {
      return;
    }
    NothingDelivered(versions[0]);
    st := Some(Resumed(None, versions[0]));
    for i := 0 to |versions|
      invariant st.Some? && st.value.fileId == versions[0].fileId && st.value.offset == |seen|
      invariant Delivered(st.value, seen, lines)
      invariant seen <= versions[if i == 0 then 0 else i - 1].content
      invariant |seen| >= i * chunk || |seen| >= |versions[0].content|
      invariant |seen| >= |versions[0].content| ==> versions[0].content <= seen
    {
      ghost var before, from := seen, st.value;
      NextVersion(versions, chunk, i, seen);
      DeliveredFacts(from, before, lines);
      var r;
      r, seen := ReadChunk(versions[i], st, chunk, seen, versions[i]);
      AdvancedFacts(from, before, r, seen);
      ChunkDelivers(from, before, lines, r, seen);
      ReadProgress(versions[0].content, versions[i].content, |before|, chunk, i, seen);
      lines, st := lines + r.lines, Some(r.next);
    }
    DeliveredFacts(st.value, seen, lines);
    SpansAreExact(seen, 0);
  }

  lemma DeliveredFacts(st: SourceState, seen: Bytes, lines: seq<Line>)
    requires Delivered(st, seen, lines)
    ensures Carried(st, seen) && lines == Spans(seen, 0)
    ensures |seen| == st.offset == st.partialStart + |st.partial|
    ensures seen[st.partialStart..] == st.partial && LF !in st.partial
  {
    TailHasNoLine(seen, st.partialStart);
  }

  lemma AdvancedFacts(from: SourceState, seen: Bytes, r: Chunk, now: Bytes)
    requires Advanced(from, seen, r, now)
    ensures seen <= now && r.next.fileId == from.fileId && r.next.offset == |now|
  {
  }

  lemma LinesJoin(now: Bytes, a: nat, b: nat, seen: Bytes)
    requires a <= b <= |now| && seen <= now && a <= |seen| && EndsLine(seen[..a])
    ensures Spans(now[..b], 0) == Spans(seen[..a], 0) + Spans(now[a..b], a)
  {
    hide Spans;
    assert now[..b] == seen[..a] + now[a..b];
    SpansSplit(seen[..a], now[a..b], 0);
  }

  lemma TailHasNoLine(data: Bytes, n: nat)
    requires n <= |data| && EndsLine(data[..n]) && LF !in data[n..]
    ensures Spans(data, 0) == Spans(data[..n], 0)
  {
    assert data == data[..n] + data[n..];
    SpansSplit(data[..n], data[n..], 0);
    NoSpans(data[n..], n);
  }

  /******* The durable timeline *******/

  type RecordId = string

  type Digest = string

  // What validation makes of a line: nothing, or a record with its identity and digest.
  datatype Raw = Raw(id: RecordId, digest: Digest)

  // Where a line was read.
  datatype Source = Source(path: Path, generation: nat, start: nat, end: nat)

  datatype Entry = Entry(id: RecordId, digest: Digest, source: Source, observed: int)

  datatype Reason = MalformedRecord | IdCollision | OverlongRecord

  datatype Fault = Fault(source: Source, reason: Reason)

  predicate IsSpace(b: Byte) {
    b == 32 || 9 <= b <= 13
  }

  predicate Blank(line: Bytes)
    ensures Blank(line) <==> OnlySpaces(line)
  {
    forall i | 0 <= i < |line| :: IsSpace(line[i])
  }

  // Nothing but tabs, line feeds, vertical tabs, form feeds, carriage returns, and spaces.
  ghost predicate OnlySpaces(line: Bytes) {
    forall i | 0 <= i < |line| :: line[i] in {9, 10, 11, 12, 13, 32}
  }

  ghost predicate UniqueIds(timeline: seq<Entry>) {
    forall i, j | 0 <= i < j < |timeline| :: timeline[i].id != timeline[j].id
  }

  // The identity index of a timeline, or nothing if its history contradicts itself.
  function TimelineDedup(timeline: seq<Entry>): Option<map<RecordId, Digest>> {
    if timeline == [] then Some(map[])
    else
      var last := timeline[|timeline| - 1];
      match TimelineDedup(timeline[..|timeline| - 1])
      case None => None
      case Some(index) =>
        if last.id in index && index[last.id] != last.digest then None else Some(index[last.id := last.digest])
  }

  ghost predicate IndexOf(index: map<RecordId, Digest>, timeline: seq<Entry>) {
    && (forall i | 0 <= i < |timeline| :: timeline[i].id in index && index[timeline[i].id] == timeline[i].digest)
    && (forall id | id in index :: exists i :: 0 <= i < |timeline| && timeline[i].id == id)
  }

  lemma IndexGrows(index: map<RecordId, Digest>, timeline: seq<Entry>, e: Entry)
    requires IndexOf(index, timeline) && UniqueIds(timeline) && e.id !in index
    ensures IndexOf(index[e.id := e.digest], timeline + [e]) && UniqueIds(timeline + [e])
  {
    LastIsIndexed(index, timeline, e);
  }

  // A timeline is accepted exactly if entries with one identity have one digest, and then indexed.
  lemma {:induction false} DedupExactly(timeline: seq<Entry>)
    ensures TimelineDedup(timeline).Some? <==>
            forall i, j | 0 <= i < j < |timeline| && timeline[i].id == timeline[j].id :: timeline[i].digest == timeline[j].digest
    ensures TimelineDedup(timeline).Some? ==> IndexOf(TimelineDedup(timeline).value, timeline)
  {
    if timeline != [] {
      var init, last := timeline[..|timeline| - 1], timeline[|timeline| - 1];
      assert timeline == init + [last];
      DedupExactly(init);
      if TimelineDedup(init).Some? {
        var index := TimelineDedup(init).value;
        if TimelineDedup(timeline).Some? {
          LastIsIndexed(index, init, last);
        } else {
          var i :| 0 <= i < |init| && init[i].id == last.id;
          assert timeline[i] == init[i] && timeline[|init|] == last;
        }
      } else {
        var i, j :| 0 <= i < j < |init| && init[i].id == init[j].id && init[i].digest != init[j].digest;
        assert timeline[i] == init[i] && timeline[j] == init[j];
      }
    }
  }

  lemma LastIsIndexed(index: map<RecordId, Digest>, timeline: seq<Entry>, e: Entry)
    requires IndexOf(index, timeline) && (e.id in index ==> index[e.id] == e.digest)
    ensures IndexOf(index[e.id := e.digest], timeline + [e])
  {
    var next, grown := timeline + [e], index[e.id := e.digest];
    forall id | id in grown
      ensures exists i :: 0 <= i < |next| && next[i].id == id
    {
      if id == e.id {
        assert next[|timeline|].id == id;
      } else {
        var i :| 0 <= i < |timeline| && timeline[i].id == id;
        assert next[i].id == id;
      }
    }
  }

  // A timeline with one entry for each identity is never rejected on the next start.
  lemma DedupNeverFails(timeline: seq<Entry>)
    requires UniqueIds(timeline)
    ensures TimelineDedup(timeline).Some? && IndexOf(TimelineDedup(timeline).value, timeline)
  {
    DedupExactly(timeline);
  }

  // A line is accounted for: blank, recorded, or reported.
  ghost predicate Accounted(parse: (Path, Bytes) -> Option<Raw>, l: Line, path: Path, generation: nat,
                            timeline: seq<Entry>, faults: seq<Fault>)
  {
    var source := Source(path, generation, l.start, l.end);
    || OnlySpaces(l.bytes)
    || match parse(path, l.bytes)
       case None => Fault(source, MalformedRecord) in faults
       case Some(raw) =>
         exists i :: 0 <= i < |timeline| && timeline[i].id == raw.id
           && (timeline[i].digest == raw.digest || Fault(source, IdCollision) in faults)
  }

  ghost predicate AllAccounted(parse: (Path, Bytes) -> Option<Raw>, lines: seq<Line>, path: Path, generation: nat,
                               timeline: seq<Entry>, faults: seq<Fault>)
  {
    forall k | 0 <= k < |lines| :: Accounted(parse, lines[k], path, generation, timeline, faults)
  }

  lemma AccountsLast(parse: (Path, Bytes) -> Option<Raw>, lines: seq<Line>, path: Path, generation: nat,
                     timeline: seq<Entry>, faults: seq<Fault>, moreTimeline: seq<Entry>, moreFaults: seq<Fault>)
    requires AllAccounted(parse, lines, path, generation, timeline, faults)
    requires timeline <= moreTimeline && faults <= moreFaults
    ensures AllAccounted(parse, lines, path, generation, moreTimeline, moreFaults)
  {
    forall k | 0 <= k < |lines|
      ensures Accounted(parse, lines[k], path, generation, moreTimeline, moreFaults)
    {
      assert Accounted(parse, lines[k], path, generation, timeline, faults);
      forall f | f in faults
        ensures f in moreFaults
      {
        var i :| 0 <= i < |faults| && faults[i] == f;
        assert moreFaults[i] == f;
      }
      if parse(path, lines[k].bytes).Some? && !OnlySpaces(lines[k].bytes) {
        var raw := parse(path, lines[k].bytes).value;
        var source := Source(path, generation, lines[k].start, lines[k].end);
        var i :| 0 <= i < |timeline| && timeline[i].id == raw.id
          && (timeline[i].digest == raw.digest || Fault(source, IdCollision) in faults);
        assert moreTimeline[i] == timeline[i];
      }
    }
  }

  // Records and faults a poll has gathered so far, on top of a durable timeline.
  datatype Gathered = Gathered(index: map<RecordId, Digest>, records: seq<Entry>, faults: seq<Fault>)

  ghost predicate Consistent(g: Gathered, timeline: seq<Entry>) {
    UniqueIds(timeline + g.records) && IndexOf(g.index, timeline + g.records)
  }

  // A record says which line it was read from.
  ghost predicate ReadFrom(parse: (Path, Bytes) -> Option<Raw>, l: Line, path: Path, generation: nat, e: Entry) {
    && !OnlySpaces(l.bytes) && parse(path, l.bytes) == Some(Raw(e.id, e.digest))
    && e.source == Source(path, generation, l.start, l.end)
  }

  ghost predicate ReadFromOne(parse: (Path, Bytes) -> Option<Raw>, lines: seq<Line>, path: Path, generation: nat, e: Entry) {
    exists k :: 0 <= k < |lines| && ReadFrom(parse, lines[k], path, generation, e)
  }

  // A record was read from a line of this stream, in this generation, at this time.
  ghost predicate RecordOf(parse: (Path, Bytes) -> Option<Raw>, path: Path, generation: nat, content: Bytes, intact: bool,
                           observed: int, e: Entry)
  {
    e.observed == observed && exists l :: LineOf(l, content, intact) && ReadFrom(parse, l, path, generation, e)
  }

  // Some known record has this identity and other bytes.
  ghost predicate Collides(raw: Raw, known: seq<Entry>) {
    exists i :: 0 <= i < |known| && known[i].id == raw.id && known[i].digest != raw.digest
  }

  // What an error about a line means: the line is not blank, and no record or one that collides.
  ghost predicate LineFault(parse: (Path, Bytes) -> Option<Raw>, l: Line, path: Path, generation: nat, known: seq<Entry>, f: Fault) {
    && !OnlySpaces(l.bytes) && f.source == Source(path, generation, l.start, l.end)
    && match parse(path, l.bytes)
       case None => f.reason == MalformedRecord
       case Some(raw) => f.reason == IdCollision && Collides(raw, known)
  }

  ghost predicate LineFaultOfOne(parse: (Path, Bytes) -> Option<Raw>, lines: seq<Line>, path: Path, generation: nat,
                                 known: seq<Entry>, f: Fault)
  {
    exists k :: 0 <= k < |lines| && LineFault(parse, lines[k], path, generation, known, f)
  }

  // What an error means: it is about such a line of the stream, or about a stretch of it that goes on too long.
  ghost predicate FaultOf(parse: (Path, Bytes) -> Option<Raw>, path: Path, generation: nat, content: Bytes, intact: bool,
                          limit: nat, known: seq<Entry>, f: Fault)
  {
    if f.reason == OverlongRecord then
      && f.source.path == path && f.source.generation == generation && f.source.start <= f.source.end <= |content|
      && Unended(content[f.source.start..f.source.end], limit)
    else
      exists l :: LineOf(l, content, intact) && LineFault(parse, l, path, generation, known, f)
  }

  lemma LineFaultLater(parse: (Path, Bytes) -> Option<Raw>, l: Line, path: Path, generation: nat,
                       known: seq<Entry>, more: seq<Entry>, f: Fault)
    requires LineFault(parse, l, path, generation, known, f) && known <= more
    ensures LineFault(parse, l, path, generation, more, f)
  {
    if raw :| parse(path, l.bytes) == Some(raw) {
      var i :| 0 <= i < |known| && known[i].id == raw.id && known[i].digest != raw.digest;
      assert more[i] == known[i];
    }
  }

  lemma NoLineFaults(parse: (Path, Bytes) -> Option<Raw>, lines: seq<Line>, path: Path, generation: nat,
                     known: seq<Entry>, faults: seq<Fault>)
    ensures LineFaults(parse, lines, path, generation, known, faults, |faults|)
  {
  }

  // Every error from the n-th on is about one of these lines.
  ghost predicate LineFaults(parse: (Path, Bytes) -> Option<Raw>, lines: seq<Line>, path: Path, generation: nat,
                             known: seq<Entry>, faults: seq<Fault>, n: nat)
  {
    forall i | n <= i < |faults| :: LineFaultOfOne(parse, lines, path, generation, known, faults[i])
  }

  lemma LineFaultsGrow(parse: (Path, Bytes) -> Option<Raw>, lines: seq<Line>, k: nat, path: Path, generation: nat,
                       known: seq<Entry>, more: seq<Entry>, before: seq<Fault>, after: seq<Fault>, n: nat)
    requires LineFaults(parse, lines, path, generation, known, before, n) && n <= |before| && before <= after && known <= more
    requires k < |lines| && forall i | |before| <= i < |after| :: LineFault(parse, lines[k], path, generation, more, after[i])
    ensures LineFaults(parse, lines, path, generation, more, after, n)
  {
    hide LineFault;
    forall i | n <= i < |after|
      ensures LineFaultOfOne(parse, lines, path, generation, more, after[i])
    {
      if i < |before| {
        assert LineFaultOfOne(parse, lines, path, generation, known, before[i]) && after[i] == before[i];
        var j :| 0 <= j < |lines| && LineFault(parse, lines[j], path, generation, known, before[i]);
        LineFaultLater(parse, lines[j], path, generation, known, more, before[i]);
      }
    }
  }

  lemma LinesAreFound(parse: (Path, Bytes) -> Option<Raw>, lines: seq<Line>, path: Path, generation: nat, content: Bytes, intact: bool, e: Entry)
    requires ReadFromOne(parse, lines, path, generation, e) && forall l | l in lines :: LineOf(l, content, intact)
    ensures e.source.path == path && e.source.generation == generation
    ensures RecordOf(parse, path, generation, content, intact, e.observed, e)
  {
    hide LineOf;
    var k :| 0 <= k < |lines| && ReadFrom(parse, lines[k], path, generation, e);
    assert lines[k] in lines;
  }

  lemma FaultsAreFound(parse: (Path, Bytes) -> Option<Raw>, lines: seq<Line>, path: Path, generation: nat, content: Bytes, intact: bool,
                       limit: nat, known: seq<Entry>, f: Fault)
    requires LineFaultOfOne(parse, lines, path, generation, known, f) && forall l | l in lines :: LineOf(l, content, intact)
    ensures f.source.path == path && f.source.generation == generation && f.reason != OverlongRecord
    ensures FaultOf(parse, path, generation, content, intact, limit, known, f)
  {
    hide LineOf;
    var k :| 0 <= k < |lines| && LineFault(parse, lines[k], path, generation, known, f);
    assert lines[k] in lines;
  }

  // Validates one line against the index.
  method GatherLine(parse: (Path, Bytes) -> Option<Raw>, l: Line, path: Path, generation: nat, observed: int,
                    g0: Gathered, ghost timeline: seq<Entry>, ghost faults: seq<Fault>)
    returns (g: Gathered)
    requires Consistent(g0, timeline)
    ensures Consistent(g, timeline) && g0.records <= g.records && g0.faults <= g.faults
    ensures Accounted(parse, l, path, generation, timeline + g.records, faults + g.faults)
    ensures g.records == g0.records
         || exists e :: g.records == g0.records + [e] && ReadFrom(parse, l, path, generation, e) && e.observed == observed
    // an error only about a line that is no record, or one that collides
    ensures |g.faults| <= |g0.faults| + 1
    ensures forall i | |g0.faults| <= i < |g.faults| :: LineFault(parse, l, path, generation, timeline + g.records, g.faults[i])
  {
    g := g0;
    var source := Source(path, generation, l.start, l.end);
    if Blank(l.bytes) {
      return;
    }
    match parse(path, l.bytes) {
      case None =>
        g := g.(faults := g.faults + [Fault(source, MalformedRecord)]);
        assert (faults + g.faults)[|faults| + |g0.faults|] == Fault(source, MalformedRecord);
      case Some(raw) =>
        ghost var known := timeline + g0.records;
        if raw.id in g.index {
          ghost var i :| 0 <= i < |known| && known[i].id == raw.id;
          if g.index[raw.id] != raw.digest {
            g := g.(faults := g.faults + [Fault(source, IdCollision)]);
            assert (faults + g.faults)[|faults| + |g0.faults|] == Fault(source, IdCollision);
          }
        } else {
          var e := Entry(raw.id, raw.digest, source, observed);
          IndexGrows(g.index, known, e);
          assert known + [e] == timeline + (g0.records + [e]);
          assert (known + [e])[|known|] == e;
          g := Gathered(g.index[raw.id := raw.digest], g.records + [e], g.faults);
        }
    }
  }

  // Validates the lines of one chunk against the index.
  method GatherLines(parse: (Path, Bytes) -> Option<Raw>, lines: seq<Line>, path: Path, generation: nat, observed: int,
                     g0: Gathered, ghost timeline: seq<Entry>, ghost faults: seq<Fault>)
    returns (g: Gathered)
    requires Consistent(g0, timeline)
    ensures Consistent(g, timeline) && g0.records <= g.records && g0.faults <= g.faults
    ensures AllAccounted(parse, lines, path, generation, timeline + g.records, faults + g.faults)
    ensures forall i | |g0.records| <= i < |g.records| ::
              ReadFromOne(parse, lines, path, generation, g.records[i]) && g.records[i].observed == observed
    ensures LineFaults(parse, lines, path, generation, timeline + g.records, g.faults, |g0.faults|)
  {
    hide Accounted, ReadFrom, Consistent, LineFault, LineFaults;
    g := g0;
    NoLineFaults(parse, lines, path, generation, timeline + g.records, g.faults);
    for k := 0 to |lines|
      invariant Consistent(g, timeline) && g0.records <= g.records && g0.faults <= g.faults
      invariant AllAccounted(parse, lines[..k], path, generation, timeline + g.records, faults + g.faults)
      invariant forall i | |g0.records| <= i < |g.records| ::
                  ReadFromOne(parse, lines, path, generation, g.records[i]) && g.records[i].observed == observed
      invariant LineFaults(parse, lines, path, generation, timeline + g.records, g.faults, |g0.faults|)
    {
      ghost var before := g;
      g := GatherLine(parse, lines[k], path, generation, observed, g, timeline, faults);
      assert timeline + before.records <= timeline + g.records && faults + before.faults <= faults + g.faults;
      AccountsLast(parse, lines[..k], path, generation, timeline + before.records, faults + before.faults,
                   timeline + g.records, faults + g.faults);
      LineFaultsGrow(parse, lines, k, path, generation, timeline + before.records, timeline + g.records,
                     before.faults, g.faults, |g0.faults|);
      assert lines[..k + 1] == lines[..k] + [lines[k]];
    }
    assert lines[..|lines|] == lines;
  }

  /******* The watcher *******/

  // A record of this generation of a source was too long and was dropped, and an error says so.
  ghost predicate DropReported(path: Path, generation: nat, faults: seq<Fault>) {
    exists i :: 0 <= i < |faults| && faults[i].reason == OverlongRecord
      && faults[i].source.path == path && faults[i].source.generation == generation
  }

  // For each source, the bytes its cursor stands for; for each source of which no record was
  // dropped, every line the cursor has passed is accounted for; of the others a drop is reported.
  ghost predicate Tracks(parse: (Path, Bytes) -> Option<Raw>, sources: map<Path, SourceState>, seen: map<Path, Bytes>,
                         whole: set<Path>, timeline: seq<Entry>, faults: seq<Fault>)
  {
    && sources.Keys == seen.Keys && whole <= sources.Keys
    && (forall p | p in sources :: Carried(sources[p], seen[p]))
    && (forall p | p in whole ::
          && OnLineStart(sources[p], seen[p])
          && AllAccounted(parse, Spans(seen[p][..sources[p].partialStart], 0), p, sources[p].generation, timeline, faults))
    && (forall p | p in sources && p !in whole :: DropReported(p, sources[p].generation, faults))
  }

  lemma DropStaysReported(path: Path, generation: nat, faults: seq<Fault>, more: seq<Fault>)
    requires DropReported(path, generation, faults) && faults <= more
    ensures DropReported(path, generation, more)
  {
    var i :| 0 <= i < |faults| && faults[i].reason == OverlongRecord
      && faults[i].source.path == path && faults[i].source.generation == generation;
    assert more[i] == faults[i];
  }

  lemma TracksGrows(parse: (Path, Bytes) -> Option<Raw>, sources: map<Path, SourceState>, seen: map<Path, Bytes>,
                    whole: set<Path>, timeline: seq<Entry>, faults: seq<Fault>, timeline': seq<Entry>, faults': seq<Fault>)
    requires Tracks(parse, sources, seen, whole, timeline, faults) && timeline <= timeline' && faults <= faults'
    ensures Tracks(parse, sources, seen, whole, timeline', faults')
  {
    hide Spans, AllAccounted, DropReported;
    forall p | p in whole
      ensures AllAccounted(parse, Spans(seen[p][..sources[p].partialStart], 0), p, sources[p].generation, timeline', faults')
    {
      AccountsLast(parse, Spans(seen[p][..sources[p].partialStart], 0), p, sources[p].generation,
                   timeline, faults, timeline', faults');
    }
    forall p | p in sources && p !in whole
      ensures DropReported(p, sources[p].generation, faults')
    {
      DropStaysReported(p, sources[p].generation, faults, faults');
    }
  }

  lemma AllAccountedJoin(parse: (Path, Bytes) -> Option<Raw>, a: seq<Line>, b: seq<Line>, path: Path, generation: nat,
                         timeline: seq<Entry>, faults: seq<Fault>)
    requires AllAccounted(parse, a, path, generation, timeline, faults)
    requires AllAccounted(parse, b, path, generation, timeline, faults)
    ensures AllAccounted(parse, a + b, path, generation, timeline, faults)
  {
    hide Accounted;
  }

  // One source has advanced by one chunk whose lines are accounted for.
  lemma TracksAdvance(parse: (Path, Bytes) -> Option<Raw>, sources: map<Path, SourceState>, seen: map<Path, Bytes>,
                      whole: set<Path>, timeline: seq<Entry>, faults: seq<Fault>,
                      path: Path, file: File, r: Chunk, now: Bytes)
    requires Tracks(parse, sources, seen, whole, timeline, faults)
    requires var state := if path in sources then Some(sources[path]) else None;
             && Advanced(Resumed(state, file), if SameStream(state, file) then seen[path] else [], r, now)
             && AllAccounted(parse, r.lines, path, r.next.generation, timeline, faults)
    requires r.overlong ==> DropReported(path, r.next.generation, faults)
    ensures var state := if path in sources then Some(sources[path]) else None;
            var kept := !r.overlong && (!SameStream(state, file) || path in whole);
            Tracks(parse, sources[path := r.next], seen[path := now],
                   if kept then whole + {path} else whole - {path}, timeline, faults)
  {
    hide Spans, AllAccounted, DropReported;
    var state := if path in sources then Some(sources[path]) else None;
    var from, before := Resumed(state, file), if SameStream(state, file) then seen[path] else [];
    if !r.overlong && (!SameStream(state, file) || path in whole) {
      var lines := Spans(before[..from.partialStart], 0);
      if !SameStream(state, file) {
        NoSpans([], 0);
        NothingIsAccounted(parse, path, from.generation, timeline, faults);
      }
      ChunkDelivers(from, before, lines, r, now);
      AllAccountedJoin(parse, lines, r.lines, path, from.generation, timeline, faults);
    }
  }

  lemma NothingIsAccounted(parse: (Path, Bytes) -> Option<Raw>, path: Path, generation: nat,
                           timeline: seq<Entry>, faults: seq<Fault>)
    ensures AllAccounted(parse, [], path, generation, timeline, faults)
  {
  }

  lemma TracksCarries(parse: (Path, Bytes) -> Option<Raw>, sources: map<Path, SourceState>, seen: map<Path, Bytes>,
                      whole: set<Path>, timeline: seq<Entry>, faults: seq<Fault>, path: Path)
    requires Tracks(parse, sources, seen, whole, timeline, faults) && path in sources
    ensures path in seen && Carried(sources[path], seen[path])
    ensures path in whole ==> OnLineStart(sources[path], seen[path])
  {
  }

  lemma TracksKeys(parse: (Path, Bytes) -> Option<Raw>, sources: map<Path, SourceState>, seen: map<Path, Bytes>,
                   whole: set<Path>, timeline: seq<Entry>, faults: seq<Fault>)
    requires Tracks(parse, sources, seen, whole, timeline, faults)
    ensures sources.Keys == seen.Keys && whole <= sources.Keys
  {
  }

  lemma ConsistentIgnoresFaults(g: Gathered, timeline: seq<Entry>, faults: seq<Fault>)
    requires Consistent(g, timeline)
    ensures Consistent(g.(faults := faults), timeline)
  {
  }

  lemma FreshOnLineStart(file: File)
    ensures forall state | !SameStream(state, file) :: OnLineStart(Resumed(state, file), [])
  {
  }

  lemma LinesKept(lines: seq<Line>, content: Bytes, intact: bool, kept: bool)
    requires (forall l | l in lines :: LineOf(l, content, intact)) && (kept ==> intact)
    ensures forall l | l in lines :: LineOf(l, content, kept)
  {
    hide Exact, Spans;
  }

  // None of these errors is about an overlong record.
  lemma AllFaultsFound(parse: (Path, Bytes) -> Option<Raw>, lines: seq<Line>, path: Path, generation: nat, content: Bytes, intact: bool,
                       limit: nat, known: seq<Entry>, faults: seq<Fault>, n: nat)
    requires LineFaults(parse, lines, path, generation, known, faults, n) && n <= |faults|
    requires forall l | l in lines :: LineOf(l, content, intact)
    ensures forall i | n <= i < |faults| ::
              faults[i].source.path == path && FaultOf(parse, path, generation, content, intact, limit, known, faults[i])
    ensures forall f | f in faults[n..] :: f.reason != OverlongRecord
  {
    hide LineFaultOfOne, LineOf, FaultOf;
    forall i | n <= i < |faults|
      ensures faults[i].source.path == path && FaultOf(parse, path, generation, content, intact, limit, known, faults[i])
      ensures faults[i].reason != OverlongRecord
    {
      FaultsAreFound(parse, lines, path, generation, content, intact, limit, known, faults[i]);
    }
  }

  // The carried line and what was read behind it leave more than the limit without a break.
  ghost predicate Overlong(from: SourceState, now: Bytes, limit: nat) {
    from.partialStart <= |now| && Unended(now[from.partialStart..], limit)
  }

  lemma OverlongIsFound(parse: (Path, Bytes) -> Option<Raw>, content: Bytes, intact: bool, limit: nat, known: seq<Entry>, f: Fault, now: Bytes)
    requires f.reason == OverlongRecord && now <= content && f.source.start <= f.source.end == |now|
    requires Unended(now[f.source.start..], limit)
    ensures FaultOf(parse, f.source.path, f.source.generation, content, intact, limit, known, f)
  {
    hide Unended;
    assert content[f.source.start..f.source.end] == now[f.source.start..];
  }

  lemma ReportsDrop(durable: seq<Fault>, faults: seq<Fault>, f: Fault)
    requires f.reason == OverlongRecord
    ensures DropReported(f.source.path, f.source.generation, durable + (faults + [f]))
  {
    assert (durable + (faults + [f]))[|durable| + |faults|] == f;
  }

  lemma AdvancedGeneration(from: SourceState, seen: Bytes, r: Chunk, now: Bytes)
    requires Advanced(from, seen, r, now)
    ensures r.next.generation == from.generation
  {
  }

  function StateOf(sources: map<Path, SourceState>, path: Path): Option<SourceState> {
    if path in sources then Some(sources[path]) else None
  }

  lemma LooksSame(file: File, stream: File, offset: nat, state: Option<SourceState>)
    requires Looks(file, stream, offset)
    ensures SameStream(state, file) <==> SameStream(state, stream)
    ensures Resumed(state, file) == Resumed(state, stream)
  {
  }

  // What the files are to a reader that has these states.
  ghost function AsRead(sources: map<Path, SourceState>, seen: map<Path, Bytes>, files: map<Path, File>): map<Path, File>
    requires sources.Keys == seen.Keys
  {
    map p | p in files :: Streamed(StateOf(sources, p), if p in seen then seen[p] else [], files[p])
  }

  // From where each source is to be read on, nothing tells its file from its stream.
  ghost predicate Fits(files: map<Path, File>, streams: map<Path, File>, sources: map<Path, SourceState>) {
    streams.Keys == files.Keys
    && forall p | p in files :: Looks(files[p], streams[p], Resumed(StateOf(sources, p), files[p]).offset)
  }

  lemma AsReadFits(sources: map<Path, SourceState>, seen: map<Path, Bytes>, files: map<Path, File>)
    requires sources.Keys == seen.Keys && forall p | p in sources :: |seen[p]| == sources[p].offset
    ensures Fits(files, AsRead(sources, seen, files), sources)
    ensures ReadableFrom(sources, seen, AsRead(sources, seen, files))
  {
    hide Looks, SameStream, Resumed;
    var streams := AsRead(sources, seen, files);
    forall p | p in files
      ensures Looks(files[p], streams[p], Resumed(StateOf(sources, p), files[p]).offset)
      ensures p in sources && p in seen && SameStream(Some(sources[p]), streams[p]) ==> seen[p] <= streams[p].content
    {
      SameStreamOffset(sources, seen, files[p], p);
      StreamLooks(StateOf(sources, p), if p in seen then seen[p] else [], files[p]);
      LooksSame(files[p], streams[p], Resumed(StateOf(sources, p), files[p]).offset, StateOf(sources, p));
    }
  }

  lemma SameStreamOffset(sources: map<Path, SourceState>, seen: map<Path, Bytes>, file: File, p: Path)
    requires sources.Keys == seen.Keys && forall q | q in sources :: |seen[q]| == sources[q].offset
    ensures SameStream(StateOf(sources, p), file) ==> p in sources && p in seen && |seen[p]| == StateOf(sources, p).value.offset
  {
  }

  // Where nothing already read was rewritten, the streams are the files.
  lemma AsReadIsFiles(sources: map<Path, SourceState>, seen: map<Path, Bytes>, files: map<Path, File>)
    requires sources.Keys == seen.Keys && forall p | p in sources :: |seen[p]| == sources[p].offset
    ensures AsRead(sources, seen, files) == files <==> ReadableFrom(sources, seen, files)
  {
    hide SameStream;
    var streams := AsRead(sources, seen, files);
    forall p | p in files
      ensures streams[p] == files[p] <==>
              (p in sources && p in seen && SameStream(Some(sources[p]), files[p]) ==> seen[p] <= files[p].content)
    {
      SameStreamOffset(sources, seen, files[p], p);
      StreamedIsFile(StateOf(sources, p), if p in seen then seen[p] else [], files[p]);
      NoStateNoStream(files[p]);
    }
  }

  lemma NoStateNoStream(file: File)
    ensures !SameStream(None, file)
  {
  }

  lemma FitsStep(files: map<Path, File>, streams: map<Path, File>, sources: map<Path, SourceState>, next: map<Path, SourceState>, path: Path)
    requires Fits(files, streams, sources) && path in files && path in next && next == sources[path := next[path]]
    requires next[path].fileId == files[path].fileId && Looks(files[path], streams[path], next[path].offset)
    ensures Fits(files, streams, next)
  {
    assert SameStream(Some(next[path]), files[path]);
    forall p | p in files
      ensures Looks(files[p], streams[p], Resumed(StateOf(next, p), files[p]).offset)
    {
      assert p != path ==> StateOf(next, p) == StateOf(sources, p);
    }
  }

  // A source whose lines fit and of whose current stream nothing was dropped before.
  ghost predicate Unbroken(path: Path, file: File, sources: map<Path, SourceState>, whole: set<Path>, limit: nat) {
    LinesBounded(file.content, limit) && (path in sources && SameStream(Some(sources[path]), file) ==> path in whole)
  }

  // Each state is an earlier one, or that of the file polled now.
  ghost predicate Backed(sources0: map<Path, SourceState>, seen0: map<Path, Bytes>,
                         sources: map<Path, SourceState>, seen: map<Path, Bytes>, files: map<Path, File>)
  {
    && sources.Keys == seen.Keys
    && forall p | p in sources ::
         || (p in sources0 && p in seen0 && sources[p] == sources0[p] && seen[p] == seen0[p])
         || (p in files && sources[p].fileId == files[p].fileId && seen[p] <= files[p].content)
  }

  ghost predicate ReadableFrom(sources: map<Path, SourceState>, seen: map<Path, Bytes>, files: map<Path, File>) {
    forall p | p in files && p in sources && p in seen && SameStream(Some(sources[p]), files[p]) :: seen[p] <= files[p].content
  }

  lemma BackedReadable(sources0: map<Path, SourceState>, seen0: map<Path, Bytes>,
                       sources: map<Path, SourceState>, seen: map<Path, Bytes>, files: map<Path, File>, path: Path)
    requires ReadableFrom(sources0, seen0, files) && Backed(sources0, seen0, sources, seen, files)
    requires path in files && path in sources && SameStream(Some(sources[path]), files[path])
    ensures path in seen && seen[path] <= files[path].content
  {
  }

  // What a poll has done once it has visited some of the paths.
  ghost predicate Visited(sources0: map<Path, SourceState>, whole0: set<Path>, sources: map<Path, SourceState>,
                          whole: set<Path>, files: map<Path, File>, limit: nat, visited: set<Path>)
  {
    && (forall p | p !in visited ::
          (p in sources <==> p in sources0) && (p in whole <==> p in whole0) && (p in sources ==> sources[p] == sources0[p]))
    && (forall p | p in visited && p in files ::
          && p in sources && SameStream(Some(sources[p]), files[p])
          && sources[p].generation == Resumed(StateOf(sources0, p), files[p]).generation
          && (Unbroken(p, files[p], sources0, whole0, limit) ==> p in whole))
  }

  lemma VisitedGrows(sources0: map<Path, SourceState>, whole0: set<Path>, sources: map<Path, SourceState>, whole: set<Path>,
                     sources': map<Path, SourceState>, whole': set<Path>, files: map<Path, File>, limit: nat,
                     visited: set<Path>, path: Path)
    requires Visited(sources0, whole0, sources, whole, files, limit, visited) && path in files
    requires path in sources' && sources' == sources[path := sources'[path]] && SameStream(Some(sources'[path]), files[path])
    requires sources'[path].generation == Resumed(StateOf(sources, path), files[path]).generation
    requires whole' - {path} == whole - {path}
    requires Unbroken(path, files[path], sources, whole, limit) ==> path in whole'
    ensures Visited(sources0, whole0, sources', whole', files, limit, visited + {path})
  {
    hide LinesBounded, SameStream;
    VisitedResumes(sources0, whole0, sources, whole, files, limit, visited, path);
    assert forall p | p != path :: p in whole' <==> p in whole' - {path};
    assert forall p | p != path :: p in whole <==> p in whole - {path};
  }

  // However often a source is visited, one poll reads it in one generation.
  lemma VisitedResumes(sources0: map<Path, SourceState>, whole0: set<Path>, sources: map<Path, SourceState>, whole: set<Path>,
                       files: map<Path, File>, limit: nat, visited: set<Path>, path: Path)
    requires Visited(sources0, whole0, sources, whole, files, limit, visited) && path in files
    ensures Resumed(StateOf(sources, path), files[path]).generation == Resumed(StateOf(sources0, path), files[path]).generation
    ensures path in visited ==> path in sources && SameStream(Some(sources[path]), files[path])
    ensures path !in visited ==> StateOf(sources, path) == StateOf(sources0, path) && (path in whole <==> path in whole0)
  {
    hide LinesBounded, SameStream;
  }

  // Each visited source was read a chunk further, or to its end.
  ghost predicate Progressed(sources0: map<Path, SourceState>, seen: map<Path, Bytes>, files: map<Path, File>, chunk: nat, visited: set<Path>)
  {
    forall p | p in visited && p in files ::
      && p in seen && seen[p] <= files[p].content
      && |seen[p]| >= ReadTo(Resumed(StateOf(sources0, p), files[p]).offset, chunk, |files[p].content|)
  }

  lemma ProgressedStep(sources0: map<Path, SourceState>, state: Option<SourceState>, seen: map<Path, Bytes>, seen': map<Path, Bytes>,
                       files: map<Path, File>, chunk: nat, visited: set<Path>, path: Path)
    requires Progressed(sources0, seen, files, chunk, visited) && path in files
    requires path in seen' && seen' == seen[path := seen'[path]]
    requires if path in visited then path in seen && SameStream(state, files[path]) && state.value.offset == |seen[path]|
             else state == StateOf(sources0, path)
    requires Resumed(state, files[path]).offset <= |files[path].content|
    requires seen'[path] == files[path].content[..ReadTo(Resumed(state, files[path]).offset, chunk, |files[path].content|)]
    ensures Progressed(sources0, seen', files, chunk, visited + {path})
  {
  }

  lemma BackedStep(sources0: map<Path, SourceState>, seen0: map<Path, Bytes>, sources: map<Path, SourceState>,
                   seen: map<Path, Bytes>, sources': map<Path, SourceState>, seen': map<Path, Bytes>,
                   files: map<Path, File>, path: Path)
    requires Backed(sources0, seen0, sources, seen, files) && path in files
    requires path in sources' && sources' == sources[path := sources'[path]] && sources'[path].fileId == files[path].fileId
    requires path in seen' && seen' == seen[path := seen'[path]] && seen'[path] <= files[path].content
    ensures Backed(sources0, seen0, sources', seen', files)
  {
    assert sources'.Keys == sources.Keys + {path} && seen'.Keys == seen.Keys + {path};
  }

  // A record comes from a line of the stream that it names, as it was polled from these sources on.
  // kept are the sources of which nothing was dropped.
  ghost predicate RecordFound(parse: (Path, Bytes) -> Option<Raw>, files: map<Path, File>, visited: set<Path>,
                              sources0: map<Path, SourceState>, kept: set<Path>, observed: int, e: Entry)
  {
    var p := e.source.path;
    && p in visited && p in files
    && RecordOf(parse, p, Resumed(StateOf(sources0, p), files[p]).generation, files[p].content, p in kept, observed, e)
  }

  ghost predicate RecordsFound(parse: (Path, Bytes) -> Option<Raw>, files: map<Path, File>, visited: set<Path>,
                               sources0: map<Path, SourceState>, kept: set<Path>, observed: int, records: seq<Entry>)
  {
    forall i | 0 <= i < |records| :: RecordFound(parse, files, visited, sources0, kept, observed, records[i])
  }

  // The same of an error.
  ghost predicate FaultFound(parse: (Path, Bytes) -> Option<Raw>, files: map<Path, File>, visited: set<Path>,
                             sources0: map<Path, SourceState>, kept: set<Path>, limit: nat, known: seq<Entry>, f: Fault)
  {
    var p := f.source.path;
    && p in visited && p in files
    && FaultOf(parse, p, Resumed(StateOf(sources0, p), files[p]).generation, files[p].content, p in kept, limit, known, f)
  }

  ghost predicate FaultsFound(parse: (Path, Bytes) -> Option<Raw>, files: map<Path, File>, visited: set<Path>,
                              sources0: map<Path, SourceState>, kept: set<Path>, limit: nat, known: seq<Entry>, faults: seq<Fault>)
  {
    forall i | 0 <= i < |faults| :: FaultFound(parse, files, visited, sources0, kept, limit, known, faults[i])
  }

  lemma NothingFound(parse: (Path, Bytes) -> Option<Raw>, files: map<Path, File>, visited: set<Path>,
                     sources0: map<Path, SourceState>, kept: set<Path>, limit: nat, observed: int, known: seq<Entry>)
    ensures RecordsFound(parse, files, visited, sources0, kept, observed, [])
    ensures FaultsFound(parse, files, visited, sources0, kept, limit, known, [])
  {
  }

  // One more source was read.  If it is kept now, it was kept at any earlier visit.
  ghost predicate KeptStep(kept: set<Path>, kept': set<Path>, visited: set<Path>, path: Path) {
    kept' - {path} == kept - {path} && (path in kept' && path in visited ==> path in kept)
  }

  lemma StillKept(kept: set<Path>, kept': set<Path>, visited: set<Path>, path: Path, p: Path)
    requires KeptStep(kept, kept', visited, path) && p in visited
    ensures p in kept' ==> p in kept
  {
    assert p != path ==> (p in kept' <==> p in kept' - {path}) && (p in kept <==> p in kept - {path});
  }

  lemma RecordStaysFound(parse: (Path, Bytes) -> Option<Raw>, files: map<Path, File>, visited: set<Path>, sources0: map<Path, SourceState>,
                         kept: set<Path>, kept': set<Path>, observed: int, path: Path, e: Entry)
    requires RecordFound(parse, files, visited, sources0, kept, observed, e) && KeptStep(kept, kept', visited, path)
    ensures RecordFound(parse, files, visited + {path}, sources0, kept', observed, e)
  {
    hide ReadFrom, KeptStep, Exact, Spans;
    StillKept(kept, kept', visited, path, e.source.path);
    var p, generation := e.source.path, Resumed(StateOf(sources0, e.source.path), files[e.source.path]).generation;
    var l :| LineOf(l, files[p].content, p in kept) && ReadFrom(parse, l, p, generation, e);
    assert LineOf(l, files[p].content, p in kept');
  }

  lemma FaultStaysFound(parse: (Path, Bytes) -> Option<Raw>, files: map<Path, File>, visited: set<Path>, sources0: map<Path, SourceState>,
                        kept: set<Path>, kept': set<Path>, limit: nat, known: seq<Entry>, more: seq<Entry>, path: Path, f: Fault)
    requires FaultFound(parse, files, visited, sources0, kept, limit, known, f) && KeptStep(kept, kept', visited, path) && known <= more
    ensures FaultFound(parse, files, visited + {path}, sources0, kept', limit, more, f)
  {
    hide LineFault, KeptStep, Exact, Spans;
    StillKept(kept, kept', visited, path, f.source.path);
    if f.reason != OverlongRecord {
      var p, generation := f.source.path, Resumed(StateOf(sources0, f.source.path), files[f.source.path]).generation;
      var l :| LineOf(l, files[p].content, p in kept) && LineFault(parse, l, p, generation, known, f);
      LineFaultLater(parse, l, p, generation, known, more, f);
      assert LineOf(l, files[p].content, p in kept');
    }
  }

  lemma RecordsFoundGrow(parse: (Path, Bytes) -> Option<Raw>, files: map<Path, File>, visited: set<Path>, sources0: map<Path, SourceState>,
                         kept: set<Path>, kept': set<Path>, observed: int, path: Path, before: seq<Entry>, after: seq<Entry>)
    requires RecordsFound(parse, files, visited, sources0, kept, observed, before) && before <= after && path in files
    requires KeptStep(kept, kept', visited, path)
    requires forall i | |before| <= i < |after| ::
               after[i].source.path == path
               && RecordOf(parse, path, Resumed(StateOf(sources0, path), files[path]).generation, files[path].content,
                           path in kept', observed, after[i])
    ensures RecordsFound(parse, files, visited + {path}, sources0, kept', observed, after)
  {
    hide RecordOf, KeptStep;
    forall i | 0 <= i < |before|
      ensures RecordFound(parse, files, visited + {path}, sources0, kept', observed, after[i])
    {
      assert after[i] == before[i];
      RecordStaysFound(parse, files, visited, sources0, kept, kept', observed, path, before[i]);
    }
  }

  lemma FaultsFoundGrow(parse: (Path, Bytes) -> Option<Raw>, files: map<Path, File>, visited: set<Path>, sources0: map<Path, SourceState>,
                        kept: set<Path>, kept': set<Path>, limit: nat, known: seq<Entry>, more: seq<Entry>, path: Path,
                        before: seq<Fault>, after: seq<Fault>)
    requires FaultsFound(parse, files, visited, sources0, kept, limit, known, before) && before <= after && path in files
    requires KeptStep(kept, kept', visited, path) && known <= more
    requires forall i | |before| <= i < |after| ::
               after[i].source.path == path
               && FaultOf(parse, path, Resumed(StateOf(sources0, path), files[path]).generation, files[path].content,
                          path in kept', limit, more, after[i])
    ensures FaultsFound(parse, files, visited + {path}, sources0, kept', limit, more, after)
  {
    hide FaultOf, KeptStep;
    forall i | 0 <= i < |before|
      ensures FaultFound(parse, files, visited + {path}, sources0, kept', limit, more, after[i])
    {
      assert after[i] == before[i];
      FaultStaysFound(parse, files, visited, sources0, kept, kept', limit, known, more, path, before[i]);
    }
  }

  lemma TracksOffsets(parse: (Path, Bytes) -> Option<Raw>, sources: map<Path, SourceState>, seen: map<Path, Bytes>,
                      whole: set<Path>, timeline: seq<Entry>, faults: seq<Fault>)
    requires Tracks(parse, sources, seen, whole, timeline, faults)
    ensures sources.Keys == seen.Keys && forall p | p in sources :: |seen[p]| == sources[p].offset
  {
    hide Spans, AllAccounted, DropReported;
  }

  lemma FitsKeys(files: map<Path, File>, streams: map<Path, File>, sources: map<Path, SourceState>)
    requires Fits(files, streams, sources)
    ensures streams.Keys == files.Keys
  {
  }

  lemma FitsAt(files: map<Path, File>, streams: map<Path, File>, sources: map<Path, SourceState>, p: Path)
    requires Fits(files, streams, sources) && p in files
    ensures p in streams && Looks(files[p], streams[p], Resumed(StateOf(sources, p), files[p]).offset)
    ensures streams[p].fileId == files[p].fileId
  {
  }

  lemma GatheringStarts(timeline: seq<Entry>)
    requires UniqueIds(timeline) && TimelineDedup(timeline).Some?
    ensures Consistent(Gathered(TimelineDedup(timeline).value, [], []), timeline)
  {
    DedupNeverFails(timeline);
    assert timeline + [] == timeline;
  }

  lemma GatheringEnds(g: Gathered, timeline: seq<Entry>)
    requires Consistent(g, timeline)
    ensures UniqueIds(timeline + g.records)
  {
  }

  // The states of the sources; the bytes they stand for; and the sources of which nothing was dropped.
  datatype Cursor = Cursor(sources: map<Path, SourceState>, seen: map<Path, Bytes>, whole: set<Path>)

  ghost predicate Positioned(c: Cursor) {
    c.sources.Keys == c.seen.Keys && forall p | p in c.sources :: |c.seen[p]| == c.sources[p].offset
  }

  ghost function PathsIn(paths: seq<Path>, files: map<Path, File>): set<Path> {
    set p | p in paths && p in files
  }

  // The cursor of a poll over some paths, and the one that it writes at the end.
  ghost predicate Polled(before: Cursor, next: Cursor, files: map<Path, File>, chunk: nat, visited: set<Path>) {
    && Visited(before.sources, before.whole, next.sources, next.whole, files, 16 * chunk, visited)
    && Backed(before.sources, before.seen, next.sources, next.seen, files)
    && Progressed(before.sources, next.seen, files, chunk, visited)
  }

  // Where a poll dies: before the first durable write, or after one of the appends.
  datatype CrashPoint = Never | BeforeTimeline | AfterTimeline | AfterFaults

  class Watcher {
    const chunk: nat
    const parse: (Path, Bytes) -> Option<Raw>
    var sources: map<Path, SourceState>  // the cursor
    var timeline: seq<Entry>
    var faults: seq<Fault>
    ghost var seen: map<Path, Bytes>
    ghost var whole: set<Path>

    ghost predicate Valid()
      reads this
    {
      UniqueIds(timeline) && Tracks(parse, sources, seen, whole, timeline, faults)
    }

    constructor (chunk: nat, parse: (Path, Bytes) -> Option<Raw>)
      ensures Valid() && this.chunk == chunk && this.parse == parse
      ensures sources == map[] && timeline == [] && faults == []
    {
      this.chunk, this.parse := chunk, parse;
      sources, timeline, faults, seen, whole := map[], [], [], map[], {};
    }

    // Reads one chunk of one source and validates its lines.
    method PollSource(path: Path, file: File, observed: int, g0: Gathered, next0: map<Path, SourceState>,
                      ghost seen0: map<Path, Bytes>, ghost whole0: set<Path>, ghost stream: File)
      returns (g: Gathered, next: map<Path, SourceState>, ghost nextSeen: map<Path, Bytes>, ghost nextWhole: set<Path>)
      requires Consistent(g0, timeline)
      requires Tracks(parse, next0, seen0, whole0, timeline + g0.records, faults + g0.faults)
      requires path in next0 && SameStream(Some(next0[path]), file) ==> path in seen0 && seen0[path] <= stream.content
      requires Looks(file, stream, Resumed(StateOf(next0, path), file).offset)
      ensures Consistent(g, timeline) && g0.records <= g.records && g0.faults <= g.faults
      ensures Tracks(parse, next, nextSeen, nextWhole, timeline + g.records, faults + g.faults)
      ensures path in next && next == next0[path := next[path]] && next[path].fileId == file.fileId
      ensures SameStream(Some(next[path]), stream) && Looks(file, stream, next[path].offset)
      // exactly one chunk more of the stream has been read
      ensures path in nextSeen && nextSeen == seen0[path := nextSeen[path]]
      ensures nextSeen[path] == stream.content[..ReadTo(Resumed(StateOf(next0, path), file).offset, chunk, |stream.content|)]
      ensures next[path].generation == Resumed(StateOf(next0, path), file).generation
      ensures ReadsOn(if path in next0 then Some(next0[path]) else None, file, chunk, next[path])
      // a remainder is dropped and reported exactly if it is over sixteen chunks long
      ensures Fault(Source(path, next[path].generation, Resumed(StateOf(next0, path), file).partialStart, next[path].offset), OverlongRecord)
                in g.faults[|g0.faults|..]
              <==> Overlong(Resumed(StateOf(next0, path), file), nextSeen[path], 16 * chunk)
      ensures nextWhole - {path} == whole0 - {path}
      ensures path in nextWhole <==> !Overlong(Resumed(StateOf(next0, path), file), nextSeen[path], 16 * chunk)
                                     && (SameStream(StateOf(next0, path), file) ==> path in whole0)
      ensures Unbroken(path, stream, next0, whole0, 16 * chunk) ==> path in nextWhole
      // every record and every error is that of a line, or that of such a remainder
      ensures forall i | |g0.records| <= i < |g.records| ::
                && g.records[i].source.path == path
                && RecordOf(parse, path, next[path].generation, stream.content, path in nextWhole, observed, g.records[i])
      ensures forall i | |g0.faults| <= i < |g.faults| ::
                && g.faults[i].source.path == path
                && FaultOf(parse, path, next[path].generation, stream.content, path in nextWhole, 16 * chunk, timeline + g.records, g.faults[i])
    {
      hide RecordOf, FaultOf, ReadFromOne, LineFaultOfOne, LineOf, Exact, Spans, Tracks, AllAccounted, Advanced, Consistent, LinesBounded,
           Carried, Looks, OnLineStart, Unended, ReadsOn, LastBreak, DropReported;
      var state := StateOf(next0, path);
      LooksSame(file, stream, Resumed(state, file).offset, state);
      ghost var before := if SameStream(state, file) then seen0[path] else [];
      if state.Some? {
        TracksCarries(parse, next0, seen0, whole0, timeline + g0.records, faults + g0.faults, path);
      }
      FreshOnLineStart(file);
      var r, now := ReadChunk(file, state, chunk, if state.Some? then seen0[path] else [], stream);
      AdvancedFacts(Resumed(state, file), before, r, now);
      AdvancedGeneration(Resumed(state, file), before, r, now);
      g := GatherLines(parse, r.lines, path, r.next.generation, observed, g0, timeline, faults);
      ghost var kept := !r.overlong && (!SameStream(state, file) || path in whole0);
      LinesKept(r.lines, stream.content, OnLineStart(Resumed(state, file), before), kept);
      forall i | |g0.records| <= i < |g.records|
        ensures g.records[i].source.path == path && RecordOf(parse, path, r.next.generation, stream.content, kept, observed, g.records[i])
      {
        LinesAreFound(parse, r.lines, path, r.next.generation, stream.content, kept, g.records[i]);
      }
      AllFaultsFound(parse, r.lines, path, r.next.generation, stream.content, kept, 16 * chunk, timeline + g.records, g.faults, |g0.faults|);
      if r.overlong {
        var fault := Fault(Source(path, r.next.generation, Resumed(state, file).partialStart, r.next.offset), OverlongRecord);
        AccountsLast(parse, r.lines, path, r.next.generation, timeline + g.records, faults + g.faults,
                     timeline + g.records, faults + (g.faults + [fault]));
        ConsistentIgnoresFaults(g, timeline, g.faults + [fault]);
        OverlongIsFound(parse, stream.content, kept, 16 * chunk, timeline + g.records, fault, now);
        ReportsDrop(faults, g.faults, fault);
        assert (g.faults + [fault])[|g0.faults|..][|g.faults| - |g0.faults|] == fault;
        g := g.(faults := g.faults + [fault]);
      }
      assert timeline + g0.records <= timeline + g.records && faults + g0.faults <= faults + g.faults;
      TracksGrows(parse, next0, seen0, whole0, timeline + g0.records, faults + g0.faults, timeline + g.records, faults + g.faults);
      TracksAdvance(parse, next0, seen0, whole0, timeline + g.records, faults + g.faults, path, file, r, now);
      next := next0[path := r.next];
      nextSeen := seen0[path := now];
      nextWhole := if kept then whole0 + {path} else whole0 - {path};
    }

    // What the files are to this watcher: the bytes behind its cursor, and the files' bytes from there on.
    ghost function Streams(files: map<Path, File>): map<Path, File>
      reads this
      requires Valid()
    {
      AsRead(sources, seen, files)
    }

    ghost function Position(): Cursor
      reads this
    {
      Cursor(sources, seen, whole)
    }

    // One poll over all sources: gather, append to the timeline, append to the faults, move the cursor.
    // next is the cursor that is written unless the poll dies before.
    method Poll(files: map<Path, File>, paths: seq<Path>, observed: int, crash: CrashPoint) returns (o: Outcome, ghost next: Cursor)
      requires Valid()
      modifies this
      ensures Valid()
      ensures old(timeline) <= timeline && old(faults) <= faults
      ensures o == if crash == Never then Done else Dead
      ensures crash == BeforeTimeline ==> timeline == old(timeline)
      ensures crash in {BeforeTimeline, AfterTimeline} ==> faults == old(faults)
      ensures Position() == if o.Done? then next else old(Position())
      ensures Polled(old(Position()), next, old(Streams(files)), chunk, PathsIn(paths, files)) && Positioned(next)
      // whatever is new was read from a line of one of the streams now, and every new error is about one
      ensures RecordsFound(parse, old(Streams(files)), PathsIn(paths, files), old(sources), next.whole, observed, timeline[|old(timeline)|..])
      ensures FaultsFound(parse, old(Streams(files)), PathsIn(paths, files), old(sources), next.whole, 16 * chunk, timeline,
                          faults[|old(faults)|..])
    {
      hide Tracks, AllAccounted, Spans, UniqueIds, IndexOf, TimelineDedup, LinesBounded, SameStream, Unbroken, Overlong,
           Consistent, Visited, Backed, Progressed, ReadableFrom, RecordOf, FaultOf, RecordsFound, FaultsFound, Looks, Fits, AsRead,
           Resumed, ReadTo, PathsIn, KeptStep;
      ghost var streams, start := Streams(files), Position();
      TracksKeys(parse, sources, seen, whole, timeline, faults);
      TracksOffsets(parse, sources, seen, whole, timeline, faults);
      AsReadFits(sources, seen, files);
      var index := TimelineDedup(timeline);
      if index.None? {
        // a history that contradicts itself would be refused here, but a poll never writes one
        DedupNeverFails(timeline);
        assert false;
      }
      var g, states := Gathered(index.value, [], []), sources;
      next := start;
      ghost var visited: set<Path> := {};
      GatheringStarts(timeline);
      assert timeline + [] == timeline && faults + [] == faults;
      FitsKeys(files, streams, sources);
      PollStarts(start, streams, chunk);
      NothingFound(parse, streams, {}, sources, whole, 16 * chunk, observed, timeline);
      PathsInStep(paths, files, 0);
      for k := 0 to |paths|
        invariant Position() == start && timeline == old(timeline) && faults == old(faults)
        invariant states == next.sources && visited == PathsIn(paths[..k], files)
        invariant Fits(files, streams, next.sources) && streams.Keys == files.Keys
        invariant Consistent(g, timeline)
        invariant Tracks(parse, next.sources, next.seen, next.whole, timeline + g.records, faults + g.faults)
        invariant Polled(start, next, streams, chunk, visited)
        invariant RecordsFound(parse, streams, visited, start.sources, next.whole, observed, g.records)
        invariant FaultsFound(parse, streams, visited, start.sources, next.whole, 16 * chunk, timeline + g.records, g.faults)
      {
        var path := paths[k];
        PathsInStep(paths, files, k);
        if path !in files {
          continue;
        }
        FitsAt(files, streams, next.sources, path);
        LooksSame(files[path], streams[path], Resumed(StateOf(next.sources, path), files[path]).offset, StateOf(next.sources, path));
        TracksOffsets(parse, next.sources, next.seen, next.whole, timeline + g.records, faults + g.faults);
        PolledReadable(start, next, streams, chunk, visited, path);
        ghost var was, g0 := next, g;
        ghost var nextSeen, nextWhole;
        g, states, nextSeen, nextWhole := PollSource(path, files[path], observed, g, states, next.seen, next.whole, streams[path]);
        next := Cursor(states, nextSeen, nextWhole);
        FitsStep(files, streams, was.sources, next.sources, path);
        LooksSame(files[path], streams[path], next.sources[path].offset, None);
        PolledStep(start, was, next, streams, chunk, visited, path);
        RecordsFoundGrow(parse, streams, visited, start.sources, was.whole, next.whole, observed, path, g0.records, g.records);
        assert timeline + g0.records <= timeline + g.records;
        FaultsFoundGrow(parse, streams, visited, start.sources, was.whole, next.whole, 16 * chunk, timeline + g0.records,
                        timeline + g.records, path, g0.faults, g.faults);
        visited := visited + {path};
      }
      assert paths[..|paths|] == paths;
      TracksOffsets(parse, next.sources, next.seen, next.whole, timeline + g.records, faults + g.faults);
      NothingFound(parse, streams, visited, start.sources, next.whole, 16 * chunk, observed, timeline);
      NothingFound(parse, streams, visited, start.sources, next.whole, 16 * chunk, observed, timeline + g.records);
      assert timeline[|timeline|..] == [] && faults[|faults|..] == [];
      if crash == BeforeTimeline {
        return Dead, next;
      }
      TracksGrows(parse, sources, seen, whole, timeline, faults, timeline + g.records, faults);
      GatheringEnds(g, timeline);
      timeline := timeline + g.records;
      assert timeline[|old(timeline)|..] == g.records;
      if crash == AfterTimeline {
        return Dead, next;
      }
      TracksGrows(parse, sources, seen, whole, timeline, faults, timeline, faults + g.faults);
      faults := faults + g.faults;
      assert faults[|old(faults)|..] == g.faults;
      if crash == AfterFaults {
        return Dead, next;
      }
      sources, seen, whole := states, next.seen, next.whole;
      o := Done;
    }
  }

  lemma PathsInStep(paths: seq<Path>, files: map<Path, File>, k: nat)
    requires k <= |paths|
    ensures PathsIn(paths[..0], files) == {}
    ensures k < |paths| ==>
              PathsIn(paths[..k + 1], files) == PathsIn(paths[..k], files) + (if paths[k] in files then {paths[k]} else {})
  {
    if k < |paths| {
      assert paths[..k + 1] == paths[..k] + [paths[k]];
    }
  }

  lemma PollStarts(c: Cursor, files: map<Path, File>, chunk: nat)
    requires c.sources.Keys == c.seen.Keys
    ensures Polled(c, c, files, chunk, {})
  {
    hide LinesBounded, Resumed, SameStream;
  }

  // Before a source is read once more, its cursor stands for bytes of its stream.
  lemma PolledReadable(start: Cursor, next: Cursor, files: map<Path, File>, chunk: nat, visited: set<Path>, path: Path)
    requires Polled(start, next, files, chunk, visited) && ReadableFrom(start.sources, start.seen, files) && path in files
    ensures path in next.sources && SameStream(Some(next.sources[path]), files[path]) ==>
              path in next.seen && next.seen[path] <= files[path].content
  {
    hide Visited, Progressed, SameStream;
    if path in next.sources && SameStream(Some(next.sources[path]), files[path]) {
      BackedReadable(start.sources, start.seen, next.sources, next.seen, files, path);
    }
  }

  // One more source was read.
  lemma PolledStep(start: Cursor, was: Cursor, next: Cursor, files: map<Path, File>, chunk: nat, visited: set<Path>, path: Path)
    requires Polled(start, was, files, chunk, visited) && path in files
    requires path in was.sources ==> path in was.seen && |was.seen[path]| == was.sources[path].offset
    requires path in next.sources && next.sources == was.sources[path := next.sources[path]]
    requires SameStream(Some(next.sources[path]), files[path])
    requires next.sources[path].generation == Resumed(StateOf(was.sources, path), files[path]).generation
    requires next.whole - {path} == was.whole - {path}
    requires path in next.whole ==> SameStream(StateOf(was.sources, path), files[path]) ==> path in was.whole
    requires Unbroken(path, files[path], was.sources, was.whole, 16 * chunk) ==> path in next.whole
    requires path in next.seen && next.seen == was.seen[path := next.seen[path]]
    requires next.seen[path] == files[path].content[..ReadAt(was.sources, files, chunk, path)]
    ensures Polled(start, next, files, chunk, visited + {path})
    ensures KeptStep(was.whole, next.whole, visited, path)
    ensures Resumed(StateOf(was.sources, path), files[path]).generation == Resumed(StateOf(start.sources, path), files[path]).generation
  {
    hide Visited, Backed, Progressed, Unbroken, ReadTo;
    VisitedResumes(start.sources, start.whole, was.sources, was.whole, files, 16 * chunk, visited, path);
    VisitedGrows(start.sources, start.whole, was.sources, was.whole, next.sources, next.whole, files, 16 * chunk, visited, path);
    BackedStep(start.sources, start.seen, was.sources, was.seen, next.sources, next.seen, files, path);
    ProgressedStep(start.sources, StateOf(was.sources, path), was.seen, next.seen, files, chunk, visited, path);
  }

  // Up to where a source is read in its next poll.
  ghost function ReadAt(sources: map<Path, SourceState>, files: map<Path, File>, chunk: nat, path: Path): (n: nat)
    requires path in files
    ensures n <= |files[path].content|
  {
    ReadTo(Resumed(StateOf(sources, path), files[path]).offset, chunk, |files[path].content|)
  }

  /******* Whole runs *******/

  // The files as one poll finds them, and where that poll dies.
  datatype Round = Round(files: map<Path, File>, observed: int, crash: CrashPoint)

  // Between polls a file only grows or is replaced by another one, and its lines fit.
  ghost predicate Evolves(rounds: seq<Round>, limit: nat) {
    && (forall i, j, p | 0 <= i <= j < |rounds| && p in rounds[i].files && p in rounds[j].files
          && rounds[i].files[p].fileId == rounds[j].files[p].fileId ::
          rounds[i].files[p].content <= rounds[j].files[p].content)
    && (forall i, p | 0 <= i < |rounds| && p in rounds[i].files :: LinesBounded(rounds[i].files[p].content, limit))
  }

  // Every state was read from an earlier version of its file.
  ghost predicate FromRounds(rounds: seq<Round>, n: nat, sources: map<Path, SourceState>, seen: map<Path, Bytes>)
    requires n <= |rounds|
  {
    forall p | p in sources && p in seen ::
      exists i :: 0 <= i < n && p in rounds[i].files && rounds[i].files[p].fileId == sources[p].fileId
        && seen[p] <= rounds[i].files[p].content
  }

  lemma RoundIsReadable(rounds: seq<Round>, n: nat, limit: nat, sources: map<Path, SourceState>, seen: map<Path, Bytes>)
    requires Evolves(rounds, limit) && n < |rounds| && FromRounds(rounds, n, sources, seen)
    ensures ReadableFrom(sources, seen, rounds[n].files)
  {
  }

  lemma RoundStays(rounds: seq<Round>, n: nat, sources0: map<Path, SourceState>, seen0: map<Path, Bytes>,
                   sources: map<Path, SourceState>, seen: map<Path, Bytes>, files: map<Path, File>)
    requires n < |rounds| && FromRounds(rounds, n, sources0, seen0) && files == rounds[n].files
    requires Backed(sources0, seen0, sources, seen, files)
    ensures FromRounds(rounds, n + 1, sources, seen)
  {
  }

  // What is polled from sources of which nothing was dropped, with lines that fit, is kept.
  lemma NothingDropped(before: Cursor, next: Cursor, files: map<Path, File>, chunk: nat, visited: set<Path>)
    requires Polled(before, next, files, chunk, visited) && before.sources.Keys == before.whole && visited <= files.Keys
    requires forall p | p in files :: LinesBounded(files[p].content, 16 * chunk)
    ensures visited <= next.whole && next.sources.Keys <= next.whole
  {
    hide Backed, Progressed, LinesBounded;
  }

  // One poll of a run: the cursor it found, and the one it was to write.
  datatype Step = Step(before: Cursor, next: Cursor)

  // A record was read from a line of a stream as some round found it, and keeps that round's time.
  ghost predicate FromRound(parse: (Path, Bytes) -> Option<Raw>, read: seq<Round>, paths: seq<Path>, log: seq<Step>, e: Entry)
    requires |log| == |read|
  {
    exists i :: 0 <= i < |read|
      && RecordFound(parse, read[i].files, PathsIn(paths, read[i].files), log[i].before.sources, log[i].next.whole, read[i].observed, e)
  }

  // An error is about what some round found in a stream.
  ghost predicate FaultFromRound(parse: (Path, Bytes) -> Option<Raw>, read: seq<Round>, paths: seq<Path>, log: seq<Step>, limit: nat,
                                 known: seq<Entry>, f: Fault)
    requires |log| == |read|
  {
    exists i :: 0 <= i < |read|
      && FaultFound(parse, read[i].files, PathsIn(paths, read[i].files), log[i].before.sources, log[i].next.whole, limit, known, f)
  }

  lemma FromRoundGrows(parse: (Path, Bytes) -> Option<Raw>, read: seq<Round>, now: Round, paths: seq<Path>, log: seq<Step>, step: Step,
                       before: seq<Entry>, after: seq<Entry>, start: nat)
    requires |log| == |read| && start <= |before| && before <= after
    requires forall k | start <= k < |before| :: FromRound(parse, read, paths, log, before[k])
    requires RecordsFound(parse, now.files, PathsIn(paths, now.files), step.before.sources, step.next.whole, now.observed, after[|before|..])
    ensures forall k | start <= k < |after| :: FromRound(parse, read + [now], paths, log + [step], after[k])
  {
    hide RecordFound, PathsIn;
    var read', log' := read + [now], log + [step];
    forall k | start <= k < |after|
      ensures FromRound(parse, read', paths, log', after[k])
    {
      if k < |before| {
        var e := before[k];
        assert FromRound(parse, read, paths, log, e);
        var i :| 0 <= i < |read|
          && RecordFound(parse, read[i].files, PathsIn(paths, read[i].files), log[i].before.sources, log[i].next.whole, read[i].observed, e);
        assert read'[i] == read[i] && log'[i] == log[i];
      } else {
        assert after[|before|..][k - |before|] == after[k];
        assert read'[|read|] == now && log'[|read|] == step;
      }
    }
  }

  lemma FaultFromRoundGrows(parse: (Path, Bytes) -> Option<Raw>, read: seq<Round>, now: Round, paths: seq<Path>, log: seq<Step>, step: Step,
                            limit: nat, known: seq<Entry>, more: seq<Entry>, before: seq<Fault>, after: seq<Fault>, start: nat)
    requires |log| == |read| && start <= |before| && before <= after && known <= more
    requires forall k | start <= k < |before| :: FaultFromRound(parse, read, paths, log, limit, known, before[k])
    requires FaultsFound(parse, now.files, PathsIn(paths, now.files), step.before.sources, step.next.whole, limit, more, after[|before|..])
    ensures forall k | start <= k < |after| :: FaultFromRound(parse, read + [now], paths, log + [step], limit, more, after[k])
  {
    hide FaultFound, PathsIn;
    var read', log' := read + [now], log + [step];
    forall k | start <= k < |after|
      ensures FaultFromRound(parse, read', paths, log', limit, more, after[k])
    {
      if k < |before| {
        var f := before[k];
        assert FaultFromRound(parse, read, paths, log, limit, known, f);
        var i :| 0 <= i < |read|
          && FaultFound(parse, read[i].files, PathsIn(paths, read[i].files), log[i].before.sources, log[i].next.whole, limit, known, f);
        FaultFoundLater(parse, read[i].files, PathsIn(paths, read[i].files), log[i].before.sources, log[i].next.whole, limit, known, more, f);
        assert read'[i] == read[i] && log'[i] == log[i];
      } else {
        assert after[|before|..][k - |before|] == after[k];
        assert read'[|read|] == now && log'[|read|] == step;
      }
    }
  }

  lemma FaultFoundLater(parse: (Path, Bytes) -> Option<Raw>, files: map<Path, File>, visited: set<Path>, sources0: map<Path, SourceState>,
                        kept: set<Path>, limit: nat, known: seq<Entry>, more: seq<Entry>, f: Fault)
    requires FaultFound(parse, files, visited, sources0, kept, limit, known, f) && known <= more
    ensures FaultFound(parse, files, visited, sources0, kept, limit, more, f)
  {
    hide KeptStep;
    NothingLost(kept, visited, f.source.path);
    FaultStaysFound(parse, files, visited, sources0, kept, kept, limit, known, more, f.source.path, f);
    assert visited + {f.source.path} == visited;
  }

  lemma NothingLost(kept: set<Path>, visited: set<Path>, path: Path)
    ensures KeptStep(kept, kept, visited, path)
  {
  }

  // The run as the watcher reads it: each round with, behind the names of its files, the bytes seen
  // and the files' bytes from there on; and its cursors, which move exactly if the round does not die.
  ghost predicate AsPolled(rounds: seq<Round>, read: seq<Round>, log: seq<Step>, chunk: nat, paths: seq<Path>, start: Cursor, end: Cursor) {
    && |read| == |log| == |rounds|
    && (forall i | 0 <= i < |rounds| :: IsStep(rounds[i], read[i], log[i], chunk, paths))
    && (forall i | 0 <= i < |rounds| :: log[i].before == CursorAt(rounds, log, i, start))
    && end == CursorAt(rounds, log, |rounds|, start)
  }

  ghost predicate IsStep(round: Round, read: Round, step: Step, chunk: nat, paths: seq<Path>) {
    && Positioned(step.before) && Positioned(step.next)
    && read == round.(files := AsRead(step.before.sources, step.before.seen, round.files))
    && Polled(step.before, step.next, read.files, chunk, PathsIn(paths, round.files))
  }

  // The cursor before the n-th round.
  ghost function CursorAt(rounds: seq<Round>, log: seq<Step>, n: nat, start: Cursor): Cursor
    requires n <= |rounds| == |log|
  {
    if n == 0 then start else if rounds[n - 1].crash == Never then log[n - 1].next else log[n - 1].before
  }

  lemma AsPolledGrows(rounds: seq<Round>, read: seq<Round>, log: seq<Step>, round: Round, now: Round, step: Step, chunk: nat,
                      paths: seq<Path>, start: Cursor, end: Cursor)
    requires AsPolled(rounds, read, log, chunk, paths, start, step.before) && IsStep(round, now, step, chunk, paths)
    requires end == if round.crash == Never then step.next else step.before
    ensures AsPolled(rounds + [round], read + [now], log + [step], chunk, paths, start, end)
  {
    hide IsStep, CursorAt;
    var rounds', read', log' := rounds + [round], read + [now], log + [step];
    forall i | 0 <= i < |rounds'|
      ensures IsStep(rounds'[i], read'[i], log'[i], chunk, paths)
    {
      if i < |rounds| {
        assert IsStep(rounds[i], read[i], log[i], chunk, paths);
      }
    }
    forall i | 0 <= i < |rounds'|
      ensures log'[i].before == CursorAt(rounds', log', i, start)
    {
      CursorStays(rounds, log, round, step, i, start);
      if i < |rounds| {
        assert log[i].before == CursorAt(rounds, log, i, start);
      }
    }
    CursorMoves(rounds, log, round, step, start);
  }

  lemma CursorStays(rounds: seq<Round>, log: seq<Step>, round: Round, step: Step, n: nat, start: Cursor)
    requires n <= |rounds| == |log|
    ensures CursorAt(rounds + [round], log + [step], n, start) == CursorAt(rounds, log, n, start)
  {
  }

  lemma CursorMoves(rounds: seq<Round>, log: seq<Step>, round: Round, step: Step, start: Cursor)
    requires |rounds| == |log|
    ensures CursorAt(rounds + [round], log + [step], |rounds| + 1, start) == if round.crash == Never then step.next else step.before
  {
  }

  // Between two cursors the generations of a source only rise, and within a generation its bytes only
  // grow: a generation and a span name the same bytes for ever.
  ghost predicate Grows(a: Cursor, b: Cursor, p: Path) {
    p in a.sources && p in a.seen ==>
      && p in b.sources && p in b.seen && a.sources[p].generation <= b.sources[p].generation
      && (a.sources[p].generation == b.sources[p].generation ==>
            a.sources[p].fileId == b.sources[p].fileId && a.seen[p] <= b.seen[p])
  }

  lemma StepGrows(round: Round, read: Round, step: Step, chunk: nat, paths: seq<Path>, p: Path)
    requires IsStep(round, read, step, chunk, paths)
    ensures Grows(step.before, step.next, p)
  {
    hide Unbroken, AsRead;
    var a, b := step.before, step.next;
    AsReadFits(a.sources, a.seen, round.files);
    AsReadKeys(a.sources, a.seen, round.files);
    SamePaths(paths, round.files, read.files);
    if p in a.sources && p in b.sources && p in read.files && SameStream(Some(a.sources[p]), read.files[p]) {
      assert a.seen[p] <= read.files[p].content;
    }
  }

  // Over any run, whatever the files do and wherever polls die.
  lemma {:induction false} GenerationsTell(rounds: seq<Round>, read: seq<Round>, log: seq<Step>, chunk: nat, paths: seq<Path>,
                                           start: Cursor, end: Cursor, i: nat, j: nat, p: Path)
    requires AsPolled(rounds, read, log, chunk, paths, start, end) && i <= j <= |rounds|
    ensures |log| == |rounds| && Grows(CursorAt(rounds, log, i, start), CursorAt(rounds, log, j, start), p)
    decreases j - i
  {
    hide IsStep, AsPolled, Grows, CursorAt;
    CursorsFit(rounds, read, log, chunk, paths, start, end);
    var a := CursorAt(rounds, log, i, start);
    if i == j {
      GrowsJoin(a, a, a, p);
    } else {
      GenerationsTell(rounds, read, log, chunk, paths, start, end, i, j - 1, p);
      PolledAt(rounds, read, log, chunk, paths, start, end, j - 1);
      StepGrows(rounds[j - 1], read[j - 1], log[j - 1], chunk, paths, p);
      GrowsJoin(log[j - 1].before, log[j - 1].before, log[j - 1].before, p);
      GrowsJoin(a, log[j - 1].before, CursorAt(rounds, log, j, start), p);
    }
  }

  lemma CursorsFit(rounds: seq<Round>, read: seq<Round>, log: seq<Step>, chunk: nat, paths: seq<Path>, start: Cursor, end: Cursor)
    requires AsPolled(rounds, read, log, chunk, paths, start, end)
    ensures |rounds| == |read| == |log|
  {
    hide IsStep;
  }

  lemma PolledAt(rounds: seq<Round>, read: seq<Round>, log: seq<Step>, chunk: nat, paths: seq<Path>, start: Cursor, end: Cursor, i: nat)
    requires AsPolled(rounds, read, log, chunk, paths, start, end) && i < |rounds|
    ensures |rounds| == |read| == |log| && IsStep(rounds[i], read[i], log[i], chunk, paths)
    ensures CursorAt(rounds, log, i, start) == log[i].before
    ensures CursorAt(rounds, log, i + 1, start) in {log[i].before, log[i].next}
  {
    hide IsStep;
  }

  // Every poll, dying or not, is about to leave each of its sources a chunk further in its generation,
  // or a chunk into a new one if the file is another one or has become shorter, or at the end of the file.
  lemma RoundReads(rounds: seq<Round>, read: seq<Round>, log: seq<Step>, chunk: nat, paths: seq<Path>, start: Cursor, end: Cursor,
                   i: nat, p: Path)
    requires AsPolled(rounds, read, log, chunk, paths, start, end) && i < |rounds| && p in paths && p in rounds[i].files
    ensures var before, file := log[i].before.sources, rounds[i].files[p];
            && p in log[i].next.sources
            && var next := log[i].next.sources[p];
               && next.fileId == file.fileId && next.offset <= |file.content|
               && if p in before && before[p].fileId == file.fileId && before[p].offset <= |file.content|
                  then next.generation == before[p].generation && (next.offset >= before[p].offset + chunk || next.offset == |file.content|)
                  else next.generation == (if p in before then before[p].generation else 0) + 1
                       && (next.offset >= chunk || next.offset == |file.content|)
  {
    hide Unbroken, AsRead, Backed, Looks;
    PolledAt(rounds, read, log, chunk, paths, start, end, i);
    var before, files := log[i].before, rounds[i].files;
    AsReadFits(before.sources, before.seen, files);
    AsReadKeys(before.sources, before.seen, files);
    FitsAt(files, read[i].files, before.sources, p);
    LooksSame(files[p], read[i].files[p], Resumed(StateOf(before.sources, p), files[p]).offset, StateOf(before.sources, p));
    LooksLong(files[p], read[i].files[p], Resumed(StateOf(before.sources, p), files[p]).offset);
  }

  lemma LooksLong(file: File, stream: File, offset: nat)
    requires Looks(file, stream, offset)
    ensures stream.fileId == file.fileId && |stream.content| == |file.content|
  {
  }

  lemma GrowsJoin(a: Cursor, b: Cursor, c: Cursor, p: Path)
    ensures Grows(a, a, p)
    ensures Grows(a, b, p) && Grows(b, c, p) ==> Grows(a, c, p)
  {
  }

  // From round i on no poll dies and the path names one file.
  ghost predicate Undisturbed(rounds: seq<Round>, n: nat, paths: seq<Path>, i: nat, p: Path)
    requires n <= |rounds|
  {
    i < n && p in paths && p in rounds[i].files
    && forall j | i <= j < n ::
         rounds[j].crash == Never && p in rounds[j].files && rounds[j].files[p].fileId == rounds[i].files[p].fileId
  }

  // A chunk of the file was read in each of these rounds, or all that it held in round i.
  ghost predicate Reached(rounds: seq<Round>, n: nat, i: nat, p: Path, chunk: nat, c: Cursor) {
    && i < n <= |rounds| && p in rounds[i].files && p in rounds[n - 1].files
    && p in c.sources && p in c.seen && c.sources[p].fileId == rounds[i].files[p].fileId
    && |c.seen[p]| == c.sources[p].offset && c.seen[p] <= rounds[n - 1].files[p].content
    && (|c.seen[p]| >= (n - i) * chunk || |c.seen[p]| >= |rounds[i].files[p].content|)
  }

  ghost predicate AllReached(rounds: seq<Round>, n: nat, paths: seq<Path>, chunk: nat, c: Cursor)
    requires n <= |rounds|
  {
    forall i: nat, p | Undisturbed(rounds, n, paths, i, p) :: Reached(rounds, n, i, p, chunk, c)
  }

  lemma NoneReached(rounds: seq<Round>, paths: seq<Path>, chunk: nat, c: Cursor)
    ensures AllReached(rounds, 0, paths, chunk, c)
  {
  }

  lemma ReachedStep(rounds: seq<Round>, n: nat, paths: seq<Path>, chunk: nat, before: Cursor, next: Cursor, limit: nat)
    requires n < |rounds| && Evolves(rounds, limit) && AllReached(rounds, n, paths, chunk, before)
    requires Polled(before, next, rounds[n].files, chunk, PathsIn(paths, rounds[n].files))
    requires forall p | p in next.sources && p in next.seen :: |next.seen[p]| == next.sources[p].offset
    ensures AllReached(rounds, n + 1, paths, chunk, next)
  {
    hide Undisturbed, Polled, Reached, Evolves;
    var m := n + 1;
    forall i: nat, p | Undisturbed(rounds, m, paths, i, p)
      ensures Reached(rounds, m, i, p, chunk, next)
    {
      UndisturbedBefore(rounds, n, paths, i, p);
      if i < n {
        assert Reached(rounds, n, i, p, chunk, before);
      }
      OneReached(rounds, n, paths, i, p, chunk, before, next, limit);
    }
  }

  lemma UndisturbedBefore(rounds: seq<Round>, n: nat, paths: seq<Path>, i: nat, p: Path)
    requires n < |rounds| && Undisturbed(rounds, n + 1, paths, i, p)
    ensures i < n ==> Undisturbed(rounds, n, paths, i, p)
    ensures i <= n && p in paths && p in rounds[i].files && p in rounds[n].files
    ensures rounds[n].files[p].fileId == rounds[i].files[p].fileId
    ensures i < n ==> p in rounds[n - 1].files && rounds[n - 1].files[p].fileId == rounds[n].files[p].fileId
  {
  }

  lemma OneReached(rounds: seq<Round>, n: nat, paths: seq<Path>, i: nat, p: Path, chunk: nat, before: Cursor, next: Cursor, limit: nat)
    requires n < |rounds| && Evolves(rounds, limit) && Undisturbed(rounds, n + 1, paths, i, p)
    requires i < n ==> Reached(rounds, n, i, p, chunk, before)
    requires Polled(before, next, rounds[n].files, chunk, PathsIn(paths, rounds[n].files))
    requires forall q | q in next.sources && q in next.seen :: |next.seen[q]| == next.sources[q].offset
    ensures Reached(rounds, n + 1, i, p, chunk, next)
  {
    hide Undisturbed, Backed, Unbroken, LinesBounded;
    UndisturbedBefore(rounds, n, paths, i, p);
    assert rounds[i].files[p].content <= rounds[n].files[p].content;
    if i < n {
      assert rounds[n - 1].files[p].content <= rounds[n].files[p].content;
      assert (n + 1 - i) * chunk == (n - i) * chunk + chunk;
    } else {
      assert (n + 1 - i) * chunk == chunk;
    }
  }

  // In the end everything that the file held in round i has been read, and its lines are accounted for.
  ghost predicate CaughtUp(w: Watcher, content: Bytes, p: Path)
    reads w
  {
    && p in w.sources && p in w.seen && content <= w.seen[p]
    && AllAccounted(w.parse, Spans(content, 0), p, w.sources[p].generation, w.timeline, w.faults)
  }

  lemma ReachedIsCaughtUp(w: Watcher, rounds: seq<Round>, paths: seq<Path>, i: nat, p: Path, limit: nat)
    requires w.Valid() && w.sources.Keys == w.whole && Evolves(rounds, limit)
    requires AllReached(rounds, |rounds|, paths, w.chunk, w.Position()) && Undisturbed(rounds, |rounds|, paths, i, p)
    requires (|rounds| - i) * w.chunk >= |rounds[i].files[p].content|
    ensures CaughtUp(w, rounds[i].files[p].content, p)
  {
    hide AllAccounted, Spans, Tracks, LinesBounded, UniqueIds;
    var content, n := rounds[i].files[p].content, |rounds|;
    assert Reached(rounds, n, i, p, w.chunk, w.Position());
    assert content <= rounds[n - 1].files[p].content;
    TracksMeans(w.parse, w.sources, w.seen, w.whole, w.timeline, w.faults);
    SpansPrefix(content, w.seen[p], 0);
    FewerAccounted(w.parse, Spans(content, 0), Spans(w.seen[p], 0), p, w.sources[p].generation, w.timeline, w.faults);
  }

  lemma AllCaughtUp(w: Watcher, rounds: seq<Round>, paths: seq<Path>, limit: nat)
    requires w.Valid() && w.sources.Keys == w.whole && Evolves(rounds, limit)
    requires AllReached(rounds, |rounds|, paths, w.chunk, w.Position())
    ensures forall i: nat, p | Undisturbed(rounds, |rounds|, paths, i, p) ::
              (|rounds| - i) * w.chunk >= |rounds[i].files[p].content| ==> CaughtUp(w, rounds[i].files[p].content, p)
  {
    hide Evolves, AllReached, CaughtUp, Tracks, UniqueIds;
    forall i: nat, p | Undisturbed(rounds, |rounds|, paths, i, p)
      ensures (|rounds| - i) * w.chunk >= |rounds[i].files[p].content| ==> CaughtUp(w, rounds[i].files[p].content, p)
    {
      if (|rounds| - i) * w.chunk >= |rounds[i].files[p].content| {
        ReachedIsCaughtUp(w, rounds, paths, i, p, limit);
      }
    }
  }

  lemma FewerAccounted(parse: (Path, Bytes) -> Option<Raw>, few: seq<Line>, lines: seq<Line>, path: Path, generation: nat,
                       timeline: seq<Entry>, faults: seq<Fault>)
    requires few <= lines && AllAccounted(parse, lines, path, generation, timeline, faults)
    ensures AllAccounted(parse, few, path, generation, timeline, faults)
  {
    hide Accounted;
  }

  // Polls that may die at any of their writes, on files that do whatever they like.  read is what
  // the files were to the watcher; it is what they were if they only grew or were replaced.
  method Rounds(w: Watcher, rounds: seq<Round>, paths: seq<Path>) returns (ghost read: seq<Round>, ghost log: seq<Step>)
    requires w.Valid() && w.sources == map[]
    modifies w
    ensures w.Valid() && old(w.timeline) <= w.timeline && old(w.faults) <= w.faults
    // one record per identity, so the next start accepts its own history
    ensures UniqueIds(w.timeline) && TimelineDedup(w.timeline).Some?
    // each poll reads the streams at hand a chunk further, and only those that do not die move the cursor
    ensures AsPolled(rounds, read, log, w.chunk, paths, old(w.Position()), w.Position())
    // every new record was read from a line of a stream and keeps its first observation, and every
    // new error is about a line or a stretch of a stream
    ensures forall k | |old(w.timeline)| <= k < |w.timeline| :: FromRound(w.parse, read, paths, log, w.timeline[k])
    ensures forall k | |old(w.faults)| <= k < |w.faults| ::
              FaultFromRound(w.parse, read, paths, log, 16 * w.chunk, w.timeline, w.faults[k])
    // every complete line behind a cursor is blank, recorded, or reported, unless a record too long was dropped, which is reported
    ensures w.sources.Keys == w.seen.Keys && w.whole <= w.sources.Keys
    ensures forall p | p in w.sources :: |w.seen[p]| == w.sources[p].offset
    ensures forall p | p in w.sources ::
              if p in w.whole then AllAccounted(w.parse, Spans(w.seen[p], 0), p, w.sources[p].generation, w.timeline, w.faults)
              else DropReported(p, w.sources[p].generation, w.faults)
    // files that only grow or are replaced, with lines that fit, are read as they are, and nothing is dropped
    ensures Evolves(rounds, 16 * w.chunk) ==>
              && read == rounds && FromRounds(rounds, |rounds|, w.sources, w.seen) && w.whole == w.sources.Keys
              && forall i | 0 <= i < |log| :: PathsIn(paths, rounds[i].files) <= log[i].next.whole
    // and then enough polls in a row account for every complete line of a file
    ensures Evolves(rounds, 16 * w.chunk) ==>
              forall i: nat, p | Undisturbed(rounds, |rounds|, paths, i, p) ::
                (|rounds| - i) * w.chunk >= |rounds[i].files[p].content| ==> CaughtUp(w, rounds[i].files[p].content, p)
  {
    hide Tracks, AllAccounted, Spans, Evolves, Visited, Backed, FromRounds, LinesBounded, UniqueIds, TimelineDedup, ReadableFrom,
         RecordsFound, FaultsFound, FromRound, FaultFromRound, AsRead, Polled, PathsIn, AsPolled, AllReached, Undisturbed, CaughtUp, Reached;
    NothingSeen(rounds, w);
    read, log := [], [];
    ghost var tame, start := Evolves(rounds, 16 * w.chunk), w.Position();
    NothingPolled(w.chunk, paths, start);
    NoneReached(rounds, paths, w.chunk, start);
    assert rounds[..0] == [];
    for n := 0 to |rounds|
      invariant w.Valid() && old(w.timeline) <= w.timeline && old(w.faults) <= w.faults
      invariant |read| == |log| == n && AsPolled(rounds[..n], read, log, w.chunk, paths, start, w.Position())
      invariant forall k | |old(w.timeline)| <= k < |w.timeline| :: FromRound(w.parse, read, paths, log, w.timeline[k])
      invariant forall k | |old(w.faults)| <= k < |w.faults| ::
                  FaultFromRound(w.parse, read, paths, log, 16 * w.chunk, w.timeline, w.faults[k])
      invariant tame ==>
                  && read == rounds[..n] && FromRounds(rounds, n, w.sources, w.seen) && w.sources.Keys == w.whole
                  && AllReached(rounds, n, paths, w.chunk, w.Position())
      invariant tame ==> forall i | 0 <= i < n :: PathsIn(paths, rounds[i].files) <= log[i].next.whole
    {
      ghost var timeline0, faults0, before, streams := w.timeline, w.faults, w.Position(), w.Streams(rounds[n].files);
      TracksOffsets(w.parse, w.sources, w.seen, w.whole, w.timeline, w.faults);
      if tame {
        RoundIsReadable(rounds, n, 16 * w.chunk, w.sources, w.seen);
        AsReadIsFiles(w.sources, w.seen, rounds[n].files);
      }
      AsReadKeys(w.sources, w.seen, rounds[n].files);
      SamePaths(paths, rounds[n].files, streams);
      var _, next := w.Poll(rounds[n].files, paths, rounds[n].observed, rounds[n].crash);
      ghost var now, step := Round(streams, rounds[n].observed, rounds[n].crash), Step(before, next);
      FromRoundGrows(w.parse, read, now, paths, log, step, timeline0, w.timeline, |old(w.timeline)|);
      FaultFromRoundGrows(w.parse, read, now, paths, log, step, 16 * w.chunk, timeline0, w.timeline, faults0, w.faults, |old(w.faults)|);
      AsPolledGrows(rounds[..n], read, log, rounds[n], now, step, w.chunk, paths, start, w.Position());
      assert rounds[..n + 1] == rounds[..n] + [rounds[n]];
      TracksOffsets(w.parse, w.sources, w.seen, w.whole, w.timeline, w.faults);
      if tame {
        TameStep(w, rounds, n, paths, before, next);
      }
      read, log := read + [now], log + [step];
    }
    assert rounds[..|rounds|] == rounds;
    DedupNeverFails(w.timeline);
    TracksMeans(w.parse, w.sources, w.seen, w.whole, w.timeline, w.faults);
    if tame {
      AllCaughtUp(w, rounds, paths, 16 * w.chunk);
    }
  }

  // What one poll keeps of a run on files that only grow or are replaced.
  lemma TameStep(w: Watcher, rounds: seq<Round>, n: nat, paths: seq<Path>, before: Cursor, next: Cursor)
    requires w.Valid() && n < |rounds| && Evolves(rounds, 16 * w.chunk)
    requires FromRounds(rounds, n, before.sources, before.seen) && before.sources.Keys == before.whole
    requires AllReached(rounds, n, paths, w.chunk, before)
    requires Polled(before, next, rounds[n].files, w.chunk, PathsIn(paths, rounds[n].files))
    requires w.Position() == if rounds[n].crash == Never then next else before
    ensures FromRounds(rounds, n + 1, w.sources, w.seen) && w.sources.Keys == w.whole
    ensures AllReached(rounds, n + 1, paths, w.chunk, w.Position())
    ensures PathsIn(paths, rounds[n].files) <= next.whole
  {
    hide Evolves, FromRounds, AllReached, Tracks, UniqueIds, PathsIn, Visited, Progressed, Backed, LinesBounded;
    RoundIsBounded(rounds, n, 16 * w.chunk);
    PathsAreFiles(paths, rounds[n].files);
    NothingDropped(before, next, rounds[n].files, w.chunk, PathsIn(paths, rounds[n].files));
    TracksKeys(w.parse, w.sources, w.seen, w.whole, w.timeline, w.faults);
    TracksOffsets(w.parse, w.sources, w.seen, w.whole, w.timeline, w.faults);
    if rounds[n].crash == Never {
      RoundStays(rounds, n, before.sources, before.seen, next.sources, next.seen, rounds[n].files);
      ReachedStep(rounds, n, paths, w.chunk, before, next, 16 * w.chunk);
    } else {
      RoundSkipped(rounds, n, paths, w.chunk, before);
    }
  }

  // A poll that dies leaves nothing undisturbed.
  lemma RoundSkipped(rounds: seq<Round>, n: nat, paths: seq<Path>, chunk: nat, c: Cursor)
    requires n < |rounds| && rounds[n].crash != Never && FromRounds(rounds, n, c.sources, c.seen)
    ensures FromRounds(rounds, n + 1, c.sources, c.seen) && AllReached(rounds, n + 1, paths, chunk, c)
  {
  }

  lemma PathsAreFiles(paths: seq<Path>, files: map<Path, File>)
    ensures PathsIn(paths, files) <= files.Keys
  {
  }

  lemma SamePaths(paths: seq<Path>, files: map<Path, File>, streams: map<Path, File>)
    requires files.Keys == streams.Keys
    ensures PathsIn(paths, files) == PathsIn(paths, streams)
  {
    assert forall p :: p in files <==> p in streams;
  }

  lemma NothingPolled(chunk: nat, paths: seq<Path>, start: Cursor)
    ensures AsPolled([], [], [], chunk, paths, start, start)
  {
  }

  lemma AsReadKeys(sources: map<Path, SourceState>, seen: map<Path, Bytes>, files: map<Path, File>)
    requires sources.Keys == seen.Keys
    ensures AsRead(sources, seen, files).Keys == files.Keys
  {
  }

  lemma RoundIsBounded(rounds: seq<Round>, n: nat, limit: nat)
    requires Evolves(rounds, limit) && n < |rounds|
    ensures forall p | p in rounds[n].files :: LinesBounded(rounds[n].files[p].content, limit)
  {
  }

  lemma NothingSeen(rounds: seq<Round>, w: Watcher)
    requires w.Valid() && w.sources == map[]
    ensures FromRounds(rounds, 0, w.sources, w.seen) && w.sources.Keys == w.whole
  {
  }

  lemma TracksMeans(parse: (Path, Bytes) -> Option<Raw>, sources: map<Path, SourceState>, seen: map<Path, Bytes>,
                    whole: set<Path>, timeline: seq<Entry>, faults: seq<Fault>)
    requires Tracks(parse, sources, seen, whole, timeline, faults)
    ensures sources.Keys == seen.Keys && whole <= sources.Keys
    ensures forall p | p in sources :: |seen[p]| == sources[p].offset
    ensures forall p | p in whole :: AllAccounted(parse, Spans(seen[p], 0), p, sources[p].generation, timeline, faults)
    ensures forall p | p in sources && p !in whole :: DropReported(p, sources[p].generation, faults)
  {
    hide Spans, AllAccounted, DropReported;
    forall p | p in whole
      ensures Spans(seen[p], 0) == Spans(seen[p][..sources[p].partialStart], 0)
    {
      TailHasNoLine(seen[p], sources[p].partialStart);
    }
  }

  // A file truncated and regrown between two polls, with its identity and at least its former
  // length: the second poll takes its bytes for a continuation and finds a line that it never had.
  method RegrowthIsMisread() returns (first: File, second: File, lines: seq<Line>)
    ensures first == File("f", [97, LF]) && second == File("f", [98, 99, 100, LF])
    ensures lines == [Line(2, 4, [100])] && Spans(second.content, 0) == [Line(0, 4, [98, 99, 100])]
  {
    first, second := File("f", [97, LF]), File("f", [98, 99, 100, LF]);
    var none: Option<SourceState> := None;
    var before, seen := ReadChunk(first, none, 10, [], first);
    ShortRead(first, before, seen);
    var state := Some(before.next);
    ghost var stream := Streamed(state, seen, second);
    StreamLooks(state, seen, second);
    var after, now := ReadChunk(second, state, 10, seen, stream);
    RegrownRead(before, seen, after, now, stream);
    lines := after.lines;
  }

  lemma ShortRead(first: File, before: Chunk, seen: Bytes)
    requires first == File("f", [97, LF]) && seen == first.content && !before.overlong
    requires Advanced(Resumed(None, first), [], before, seen)
    ensures before.next.fileId == "f" && before.next.offset == 2 && before.next.partialStart == 2 && before.next.partial == []
    ensures Carried(before.next, seen)
  {
  }

  lemma OneLine(data: Bytes, base: nat)
    requires data != [] && data[|data| - 1] == LF && LF !in data[..|data| - 1]
    ensures Spans(data, base) == [Line(base, base + |data|, data[..|data| - 1])]
  {
    var k := |data| - 1;
    SpansStep(data, base, k);
    assert data[k + 1..] == [];
    NoSpans([], base + k + 1);
  }

  lemma CarriedAt(st: SourceState, seen: Bytes)
    requires Carried(st, seen)
    ensures st.partialStart <= |seen| && forall i | st.partialStart <= i < |seen| :: seen[i] != LF
  {
    forall i | st.partialStart <= i < |seen|
      ensures seen[i] != LF
    {
      assert seen[i] == seen[st.partialStart..][i - st.partialStart];
    }
  }

  lemma BreakIsNotCarried(st: SourceState, seen: Bytes)
    requires Carried(st, seen) && seen != [] && seen[|seen| - 1] == LF
    ensures st.partialStart == |seen|
  {
    CarriedAt(st, seen);
  }

  lemma RegrownRead(before: Chunk, seen: Bytes, after: Chunk, now: Bytes, stream: File)
    requires before.next.fileId == "f" && before.next.offset == 2 && before.next.partialStart == 2 && before.next.partial == []
    requires seen == [97, LF] && stream == Streamed(Some(before.next), seen, File("f", [98, 99, 100, LF]))
    requires now == stream.content[..ReadTo(2, 10, |stream.content|)]
    requires Advanced(before.next, seen, after, now) && (LinesBounded(stream.content, 160) ==> !after.overlong)
    ensures after.lines == [Line(2, 4, [100])]
    ensures Spans([98, 99, 100, LF], 0) == [Line(0, 4, [98, 99, 100])]
  {
    hide Spans;
    var content := [98, 99, 100, LF];
    assert content[2..] == [100, LF] && stream.content == [97, LF] + [100, LF] == now;
    assert LinesBounded(stream.content, 160);
    BreakIsNotCarried(after.next, now);
    assert now[2..4] == [100, LF];
    assert [100, LF][..1] == [100] && content[..3] == [98, 99, 100];
    OneLine([100, LF], 2);
    OneLine(content, 0);
  }
}
