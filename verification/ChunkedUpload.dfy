/** The chunked upload of a video (meta-media.service.ts): the server says where the next chunk starts. */
module ChunkedUpload {
  import opened Prelude

  const CHUNK_SIZE_BYTES: nat := 10 * 1024 * 1024

  newtype Byte = b: int | 0 <= b < 256

  datatype Chunk = Chunk(offset: nat, data: seq<Byte>) {
    function End(): nat {
      offset + |data|
    }

    function ByteAt(p: nat): Byte
      requires offset <= p < End()
    {
      data[p - offset]
    }
  }

  function ChunkAt(file: seq<Byte>, offset: nat): Chunk
    requires offset < |file|
  {
    var size := if |file| - offset < CHUNK_SIZE_BYTES then |file| - offset else CHUNK_SIZE_BYTES;
    Chunk(offset, file[offset..offset + size])
  }

  /** An answer of the server: the next offset, none if it is not a number, or a failure. */
  datatype Answer = Offset(next: Option<nat>) | Failure

  /** What it answers to transfer `i` of the chunk at `offset`. */
  type Server = (nat, nat) -> Answer

  /** The chunks sent from `start`: each is the part of the file at the offset the server asked for. */
  ghost predicate Sent(file: seq<Byte>, start: Option<nat>, server: Server, chunks: seq<Chunk>, next: Option<nat>) {
    if chunks == [] then next == start
    else
      var n := |chunks| - 1;
      var last := chunks[n];
      && last.offset < |file| && last == ChunkAt(file, last.offset)
      && Sent(file, start, server, chunks[..n], Some(last.offset))
      && server(n, last.offset) == Offset(next)
  }

  /** The comparison that keeps the loop going: it fails for an offset that is not a number. */
  predicate Wants(next: Option<nat>, file: seq<Byte>) {
    next.Some? && next.value < |file|
  }

  datatype End = Finished | Aborted | Running

  /** What a watch of at most `limit` transfers sees. */
  ghost predicate Watched(file: seq<Byte>, start: Option<nat>, server: Server, limit: nat,
                          chunks: seq<Chunk>, next: Option<nat>, end: End)
  {
    && Sent(file, start, server, chunks, next) && |chunks| <= limit
    && (end == Finished <==> !Wants(next, file))
    && (end == Aborted <==> Wants(next, file) && |chunks| < limit && server(|chunks|, next.value) == Failure)
    && (end == Running <==> Wants(next, file) && |chunks| == limit)
  }

  /**
   The loop, watched for `limit` transfers: `next` is the last offset the server asked for. It finishes
   the upload once no more is wanted, gives up at a failure, and is otherwise still running.
   */
  method UploadVideoChunked(file: seq<Byte>, start: Option<nat>, server: Server, limit: nat)
    returns (chunks: seq<Chunk>, next: Option<nat>, end: End)
    ensures Watched(file, start, server, limit, chunks, next, end)
  {
    chunks := [];
    var startOffset: Option<nat> := start;
    while startOffset.Some? && startOffset.value < |file|
      invariant Sent(file, start, server, chunks, startOffset) && |chunks| <= limit
      decreases limit - |chunks|
    {
      if |chunks| == limit {
        return chunks, startOffset, Running;
      }
      var chunk := ChunkAt(file, startOffset.value);
      var transferred := server(|chunks|, startOffset.value);
      if transferred.Failure? {
        return chunks, startOffset, Aborted;
      }
      chunks := chunks + [chunk];
      assert chunks[..|chunks| - 1] + [chunk] == chunks;
      startOffset := transferred.next;
    }
    next := startOffset;
    end := Finished;
  }

  // ---------- When the loop ends ----------

  /** Where the chunk after chunk `i` starts. */
  function NextOf(chunks: seq<Chunk>, next: Option<nat>, i: nat): Option<nat> {
    if i + 1 < |chunks| then Some(chunks[i + 1].offset) else next
  }

  /** Each chunk is the part of the file at its offset, and the answer to it is where the next one starts. */
  lemma {:induction false} SentAt(file: seq<Byte>, start: Option<nat>, server: Server,
                                  chunks: seq<Chunk>, next: Option<nat>, k: nat)
    requires Sent(file, start, server, chunks, next) && k < |chunks|
    ensures start == Some(chunks[0].offset)
    ensures chunks[k].offset < |file| && chunks[k] == ChunkAt(file, chunks[k].offset)
    ensures server(k, chunks[k].offset) == Offset(NextOf(chunks, next, k))
  {
    var n := |chunks| - 1;
    if n > 0 {
      SentAt(file, start, server, chunks[..n], Some(chunks[n].offset), if k < n then k else 0);
    }
  }

  /** Two watches of one upload see the same transfers, as far as both go. */
  lemma {:induction false} SentAgree(file: seq<Byte>, start: Option<nat>, server: Server, a: seq<Chunk>,
                                     aNext: Option<nat>, b: seq<Chunk>, bNext: Option<nat>, k: nat)
    requires Sent(file, start, server, a, aNext) && Sent(file, start, server, b, bNext)
    requires k < |a| && k < |b|
    ensures a[k] == b[k] && NextOf(a, aNext, k) == NextOf(b, bNext, k)
  {
    SentAt(file, start, server, a, aNext, k);
    SentAt(file, start, server, b, bNext, k);
    if k > 0 {
      SentAgree(file, start, server, a, aNext, b, bNext, k - 1);
    }
  }

  /** The answers depend on the offset alone. */
  ghost predicate OffsetAlone(server: Server) {
    forall i: nat, j: nat, offset: nat :: server(i, offset) == server(j, offset)
  }

  predicate Repeats(chunks: seq<Chunk>) {
    exists i, j :: 0 <= i < j < |chunks| && chunks[i].offset == chunks[j].offset
  }

  // Once an offset has been sent twice, the offsets go round.
  lemma {:induction false} GoesRound(file: seq<Byte>, start: Option<nat>, server: Server,
                                     chunks: seq<Chunk>, next: Option<nat>, i: nat, j: nat, m: nat)
    requires OffsetAlone(server) && Sent(file, start, server, chunks, next)
    requires i < j <= m < |chunks| && chunks[i].offset == chunks[j].offset
    ensures chunks[m].offset == chunks[m - (j - i)].offset
    ensures NextOf(chunks, next, m) == Some(chunks[m - (j - i) + 1].offset)
  {
    var p := j - i;
    if m > j {
      GoesRound(file, start, server, chunks, next, i, j, m - 1);
    }
    SentAt(file, start, server, chunks, next, m);
    SentAt(file, start, server, chunks, next, m - p);
    assert NextOf(chunks, next, m - p) == Some(chunks[m - p + 1].offset);
  }

  /** A watch that sees an offset sent twice is still running at its end. */
  lemma RepeatsIsRunning(file: seq<Byte>, start: Option<nat>, server: Server, limit: nat,
                         chunks: seq<Chunk>, next: Option<nat>, end: End)
    requires OffsetAlone(server) && Watched(file, start, server, limit, chunks, next, end) && Repeats(chunks)
    ensures end == Running
  {
    var i, j :| 0 <= i < j < |chunks| && chunks[i].offset == chunks[j].offset;
    var n := |chunks|;
    var back := n - (j - i);
    GoesRound(file, start, server, chunks, next, i, j, n - 1);
    SentAt(file, start, server, chunks, next, back);
    assert next == Some(chunks[back].offset);
  }

  /** And so is every longer watch. */
  lemma RunsForEver(file: seq<Byte>, start: Option<nat>, server: Server,
                    limit: nat, chunks: seq<Chunk>, next: Option<nat>, end: End,
                    longer: nat, more: seq<Chunk>, last: Option<nat>, after: End)
    requires OffsetAlone(server) && limit <= longer && Repeats(chunks)
    requires Watched(file, start, server, limit, chunks, next, end)
    requires Watched(file, start, server, longer, more, last, after)
    ensures after == Running && chunks <= more
  {
    RepeatsIsRunning(file, start, server, limit, chunks, next, end);
    if |more| < |chunks| {
      SentAt(file, start, server, chunks, next, |more|);
      if |more| > 0 {
        SentAgree(file, start, server, chunks, next, more, last, |more| - 1);
      }
    } else {
      forall k | 0 <= k < |chunks|
        ensures chunks[k] == more[k]
      {
        SentAgree(file, start, server, chunks, next, more, last, k);
      }
      assert chunks == more[..|chunks|];
      assert Repeats(more);
      RepeatsIsRunning(file, start, server, longer, more, last, after);
    }
  }

  lemma {:induction false} Pigeonhole(s: seq<nat>, n: nat)
    requires forall i :: 0 <= i < |s| ==> s[i] < n
    requires forall i, j :: 0 <= i < j < |s| ==> s[i] != s[j]
    ensures |s| <= n
  {
    if s != [] {
      assert s[0] < n;
      if n - 1 in s {
        var k :| 0 <= k < |s| && s[k] == n - 1;
        Pigeonhole(s[..k] + s[k + 1..], n - 1);
      } else {
        Pigeonhole(s, n - 1);
      }
    }
  }

  /** A loop that repeats no offset makes at most as many transfers as the file has bytes. */
  lemma NoRepeatIsShort(file: seq<Byte>, start: Option<nat>, server: Server, chunks: seq<Chunk>, next: Option<nat>)
    requires Sent(file, start, server, chunks, next) && !Repeats(chunks)
    ensures |chunks| <= |file|
  {
    var offsets := seq(|chunks|, k requires 0 <= k < |chunks| => chunks[k].offset);
    forall k | 0 <= k < |chunks|
      ensures offsets[k] < |file|
    {
      SentAt(file, start, server, chunks, next, k);
    }
    Pigeonhole(offsets, |file|);
  }

  /**
   Whether the loop ends, for every server whose answers depend on the offset alone: it does exactly when
   it sends no offset twice, and one more transfer than the file has bytes is enough to tell.
   */
  lemma EndsIff(file: seq<Byte>, start: Option<nat>, server: Server, limit: nat,
                chunks: seq<Chunk>, next: Option<nat>, end: End)
    requires OffsetAlone(server) && |file| < limit && Watched(file, start, server, limit, chunks, next, end)
    ensures end != Running <==> !Repeats(chunks)
    ensures end != Running ==> |chunks| <= |file|
  {
    if Repeats(chunks) {
      RepeatsIsRunning(file, start, server, limit, chunks, next, end);
    } else {
      NoRepeatIsShort(file, start, server, chunks, next);
    }
  }

  /** The offset always moves forward. */
  ghost predicate Progresses(server: Server) {
    forall i: nat, offset: nat :: server(i, offset).Offset? && server(i, offset).next.Some? ==>
      offset < server(i, offset).next.value
  }

  /** Then there are at most as many transfers as bytes, so that a loop watched longer is not still running. */
  lemma TransfersBounded(file: seq<Byte>, start: nat, server: Server, chunks: seq<Chunk>, next: Option<nat>)
    requires Progresses(server) && Sent(file, Some(start), server, chunks, next)
    ensures |chunks| <= if start < |file| then |file| - start else 0
    ensures Wants(next, file) ==> |chunks| < |file| - start
  {
    if chunks != [] {
      OffsetsIncrease(file, start, server, chunks, next);
      ManyOffsets(start, chunks, |chunks| - 1);
    }
  }

  lemma {:induction false} ManyOffsets(start: nat, chunks: seq<Chunk>, i: nat)
    requires i < |chunks| && start <= chunks[0].offset
    requires forall i, j :: 0 <= i < j < |chunks| ==> chunks[i].offset < chunks[j].offset
    ensures start + i <= chunks[i].offset
  {
    if i > 0 {
      ManyOffsets(start, chunks, i - 1);
    }
  }

  /** A server that asks for one offset again and again keeps the loop running however long it is watched. */
  lemma {:induction false} Stalls(file: seq<Byte>, start: nat, server: Server, chunks: seq<Chunk>, next: Option<nat>)
    requires start < |file| && forall i: nat :: server(i, start) == Offset(Some(start))
    requires Sent(file, Some(start), server, chunks, next)
    ensures next == Some(start) && forall i :: 0 <= i < |chunks| ==> chunks[i] == ChunkAt(file, start)
  {
    if chunks != [] {
      var n := |chunks| - 1;
      Stalls(file, start, server, chunks[..n], Some(chunks[n].offset));
      assert forall i :: 0 <= i < n ==> chunks[i] == chunks[..n][i];
    }
  }

  // ---------- What the server has at the end ----------

  /** The bytes received, by position; a later chunk overwrites. */
  function Received(chunks: seq<Chunk>): map<nat, Byte> {
    if chunks == [] then map[]
    else
      var last := chunks[|chunks| - 1];
      Received(chunks[..|chunks| - 1])
        + map p: nat | last.offset <= p < last.End() :: last.ByteAt(p)
  }

  predicate Covered(chunks: seq<Chunk>, p: nat) {
    exists i :: 0 <= i < |chunks| && chunks[i].offset <= p < chunks[i].End()
  }

  lemma CoveredSplits(chunks: seq<Chunk>, p: nat)
    requires chunks != []
    ensures var n := |chunks| - 1;
      Covered(chunks, p) <==> Covered(chunks[..n], p) || chunks[n].offset <= p < chunks[n].End()
  {
    var n := |chunks| - 1;
    if Covered(chunks[..n], p) {
      var i :| 0 <= i < n && chunks[..n][i].offset <= p < chunks[..n][i].End();
      assert chunks[i] == chunks[..n][i];
    }
    if Covered(chunks, p) {
      var i :| 0 <= i < |chunks| && chunks[i].offset <= p < chunks[i].End();
      if i < n { assert chunks[..n][i] == chunks[i]; }
    }
  }

  lemma {:induction false} ReceivedWhere(chunks: seq<Chunk>, p: nat)
    ensures p in Received(chunks) <==> Covered(chunks, p)
  {
    if chunks != [] {
      hide Covered;
      ReceivedWhere(chunks[..|chunks| - 1], p);
      CoveredSplits(chunks, p);
    }
  }

  /** No byte ever lands at a wrong position, whatever the server asks for. */
  lemma {:induction false} ReceivedIsFile(file: seq<Byte>, start: Option<nat>, server: Server,
                                          chunks: seq<Chunk>, next: Option<nat>, p: nat)
    requires Sent(file, start, server, chunks, next) && p in Received(chunks)
    ensures p < |file| && Received(chunks)[p] == file[p]
  {
    var n := |chunks| - 1;
    if !(chunks[n].offset <= p < chunks[n].End()) {
      ReceivedIsFile(file, start, server, chunks[..n], Some(chunks[n].offset), p);
    }
  }

  /** Bytes after chunk `i` are jumped over: the next offset lies beyond them, or is not a number. */
  predicate JumpsAt(file: seq<Byte>, chunks: seq<Chunk>, next: Option<nat>, i: nat)
    requires i < |chunks|
  {
    chunks[i].End() != |file| && (NextOf(chunks, next, i).None? || chunks[i].End() < NextOf(chunks, next, i).value)
  }

  predicate NoGap(file: seq<Byte>, chunks: seq<Chunk>, next: Option<nat>) {
    forall i :: 0 <= i < |chunks| ==> !JumpsAt(file, chunks, next, i)
  }

  lemma {:induction false} OffsetsIncrease(file: seq<Byte>, start: nat, server: Server,
                                           chunks: seq<Chunk>, next: Option<nat>)
    requires Progresses(server) && Sent(file, Some(start), server, chunks, next)
    ensures next.Some? ==> start <= next.value
    ensures forall i :: 0 <= i < |chunks| ==> start <= chunks[i].offset
    ensures forall i :: 0 <= i < |chunks| && next.Some? ==> chunks[i].offset < next.value
    ensures forall i, j :: 0 <= i < j < |chunks| ==> chunks[i].offset < chunks[j].offset
    ensures forall i :: 0 <= i < |chunks| ==> chunks[i].offset < chunks[i].End() <= |file|
  {
    if chunks != [] {
      var n := |chunks| - 1;
      OffsetsIncrease(file, start, server, chunks[..n], Some(chunks[n].offset));
      assert forall i :: 0 <= i < n ==> chunks[i] == chunks[..n][i];
    }
  }

  lemma EarlierNoGap(file: seq<Byte>, chunks: seq<Chunk>, next: Option<nat>)
    requires chunks != []
    ensures var n := |chunks| - 1;
      NoGap(file, chunks, next) == (NoGap(file, chunks[..n], Some(chunks[n].offset)) && !JumpsAt(file, chunks, next, n))
  {
    var n := |chunks| - 1;
    forall i | 0 <= i < n
      ensures JumpsAt(file, chunks[..n], Some(chunks[n].offset), i) <==> JumpsAt(file, chunks, next, i)
    {
      assert chunks[..n][i] == chunks[i];
      assert NextOf(chunks[..n], Some(chunks[n].offset), i) == NextOf(chunks, next, i);
    }
  }

  /** Where a chunk ends before the end of the file, some chunk goes on. */
  predicate EndsMeet(file: seq<Byte>, chunks: seq<Chunk>) {
    forall i :: 0 <= i < |chunks| ==> chunks[i].End() == |file| || Covered(chunks, chunks[i].End())
  }

  // From the first byte on, each covered one is followed by a covered one.
  lemma {:induction false} CoveredFrom(file: seq<Byte>, start: nat, server: Server,
                                       chunks: seq<Chunk>, next: Option<nat>, p: nat)
    requires Sent(file, Some(start), server, chunks, next) && chunks != [] && EndsMeet(file, chunks)
    requires start <= p < |file|
    ensures Covered(chunks, p)
  {
    SizesOf(file, Some(start), server, chunks, next);
    if p == start {
      SentAt(file, Some(start), server, chunks, next, 0);
      assert chunks[0].offset <= p < chunks[0].End();
    } else {
      CoveredFrom(file, start, server, chunks, next, p - 1);
      var i :| 0 <= i < |chunks| && chunks[i].offset <= p - 1 < chunks[i].End();
      assert p < chunks[i].End() || chunks[i].End() == p;
    }
  }

  /**
   Whatever the server asked for, a finished upload has given it exactly the file from the initial offset
   on, each byte at its place, if and only if no chunk starts before that offset and every chunk that
   ends before the end of the file is gone on from by another.
   */
  lemma CompleteIff(file: seq<Byte>, start: nat, server: Server, chunks: seq<Chunk>, next: Option<nat>)
    requires Sent(file, Some(start), server, chunks, next) && !Wants(next, file)
    ensures Received(chunks) == (map p: nat | start <= p < |file| :: file[p])
      <==> EndsMeet(file, chunks) && forall i :: 0 <= i < |chunks| ==> start <= chunks[i].offset
  {
    hide EndsMeet;
    var whole := map p: nat | start <= p < |file| :: file[p];
    SizesOf(file, Some(start), server, chunks, next);
    if EndsMeet(file, chunks) && forall i :: 0 <= i < |chunks| ==> start <= chunks[i].offset {
      forall p: nat
        ensures p in Received(chunks) <==> p in whole
        ensures p in whole ==> Received(chunks)[p] == whole[p]
      {
        ReceivedAt(file, start, server, chunks, next, p);
      }
      assert Received(chunks) == whole;
    } else if Received(chunks) == whole {
      WholeMeets(file, start, chunks);
    }
  }

  lemma WholeMeets(file: seq<Byte>, start: nat, chunks: seq<Chunk>)
    requires Received(chunks) == map p: nat | start <= p < |file| :: file[p]
    requires forall i :: 0 <= i < |chunks| ==> chunks[i].offset < chunks[i].End() <= |file|
    ensures EndsMeet(file, chunks) && forall i :: 0 <= i < |chunks| ==> start <= chunks[i].offset
  {
    hide Received;
    forall i | 0 <= i < |chunks|
      ensures start <= chunks[i].offset
      ensures chunks[i].End() == |file| || Covered(chunks, chunks[i].End())
    {
      ReceivedWhere(chunks, chunks[i].offset);
      assert Covered(chunks, chunks[i].offset);
      ReceivedWhere(chunks, chunks[i].End());
    }
  }

  lemma ReceivedAt(file: seq<Byte>, start: nat, server: Server, chunks: seq<Chunk>, next: Option<nat>, p: nat)
    requires Sent(file, Some(start), server, chunks, next) && !Wants(next, file) && EndsMeet(file, chunks)
    requires forall i :: 0 <= i < |chunks| ==> start <= chunks[i].offset
    ensures p in Received(chunks) <==> start <= p < |file|
    ensures p in Received(chunks) ==> Received(chunks)[p] == file[p]
  {
    hide Received, EndsMeet;
    ReceivedWhere(chunks, p);
    if start <= p < |file| && chunks != [] {
      CoveredFrom(file, start, server, chunks, next, p);
    }
    if p in Received(chunks) {
      ReceivedIsFile(file, Some(start), server, chunks, next, p);
    }
  }

  /**
   When every answer moves the offset forward, that is so exactly when no answer jumped over bytes that
   were not sent. An answer that is not a number ends the upload as finished, and jumps unless the file
   was sent to its end.
   */
  lemma ForwardCompleteIff(file: seq<Byte>, start: nat, server: Server, chunks: seq<Chunk>, next: Option<nat>)
    requires Progresses(server) && Sent(file, Some(start), server, chunks, next) && !Wants(next, file)
    ensures Received(chunks) == (map p: nat | start <= p < |file| :: file[p]) <==> NoGap(file, chunks, next)
  {
    CompleteIff(file, start, server, chunks, next);
    hide Received;
    OffsetsIncrease(file, start, server, chunks, next);
    SizesOf(file, Some(start), server, chunks, next);
    forall i | 0 <= i < |chunks|
      ensures JumpsAt(file, chunks, next, i)
        <==> chunks[i].End() != |file| && !Covered(chunks, chunks[i].End())
    {
      JumpIsGap(file, chunks, next, i);
    }
  }

  lemma JumpIsGap(file: seq<Byte>, chunks: seq<Chunk>, next: Option<nat>, i: nat)
    requires i < |chunks| && !Wants(next, file)
    requires forall j, k :: 0 <= j < k < |chunks| ==> chunks[j].offset < chunks[k].offset
    requires forall k :: 0 <= k < |chunks| ==> chunks[k].offset < |file| && chunks[k] == ChunkAt(file, chunks[k].offset)
    ensures JumpsAt(file, chunks, next, i) <==> chunks[i].End() != |file| && !Covered(chunks, chunks[i].End())
  {
    var e := chunks[i].End();
    if e != |file| && !JumpsAt(file, chunks, next, i) {
      assert chunks[i + 1].offset <= e < chunks[i + 1].End();
    }
    forall j | 0 <= j < |chunks|
      ensures JumpsAt(file, chunks, next, i) ==> !(chunks[j].offset <= e < chunks[j].End())
    {
      assert i + 1 < j ==> chunks[i + 1].offset < chunks[j].offset;
    }
  }

  /** A server that always asks for an offset, and never for one beyond the chunk it just got, leaves no gap. */
  lemma {:induction false} WithinChunksNoGap(file: seq<Byte>, start: Option<nat>, server: Server,
                                             chunks: seq<Chunk>, next: Option<nat>)
    requires Sent(file, start, server, chunks, next)
    requires forall i: nat, offset: nat :: offset < |file| && server(i, offset).Offset? ==>
      server(i, offset).next.Some? && server(i, offset).next.value <= ChunkAt(file, offset).End()
    ensures NoGap(file, chunks, next)
  {
    if chunks != [] {
      var n := |chunks| - 1;
      WithinChunksNoGap(file, start, server, chunks[..n], Some(chunks[n].offset));
      EarlierNoGap(file, chunks, next);
    }
  }

  lemma {:induction false} SizesOf(file: seq<Byte>, start: Option<nat>, server: Server,
                                   chunks: seq<Chunk>, next: Option<nat>)
    requires Sent(file, start, server, chunks, next)
    ensures forall i :: 0 <= i < |chunks| ==> chunks[i].offset < |file| && chunks[i] == ChunkAt(file, chunks[i].offset)
  {
    if chunks != [] {
      var n := |chunks| - 1;
      SizesOf(file, start, server, chunks[..n], Some(chunks[n].offset));
      assert forall i :: 0 <= i < n ==> chunks[i] == chunks[..n][i];
    }
  }

  // ---------- A server that takes each chunk whole ----------

  ghost predicate TakesWholeChunks(file: seq<Byte>, server: Server) {
    forall i: nat, offset: nat :: offset < |file| && server(i, offset).Offset? ==>
      server(i, offset).next == Some(ChunkAt(file, offset).End())
  }

  function Concatenated(chunks: seq<Chunk>): seq<Byte> {
    if chunks == [] then [] else Concatenated(chunks[..|chunks| - 1]) + chunks[|chunks| - 1].data
  }

  /** The chunks then put end to end are the rest of the file, in as few transfers as its size allows. */
  lemma {:induction false} WholeChunks(file: seq<Byte>, start: nat, server: Server,
                                       chunks: seq<Chunk>, next: Option<nat>)
    requires TakesWholeChunks(file, server) && Sent(file, Some(start), server, chunks, next) && start <= |file|
    ensures next.Some? && start <= next.value <= |file| && Concatenated(chunks) == file[start..next.value]
    ensures next.value == |file| ==> |chunks| == CeilDiv(|file| - start, 10 * 1024 * 1024)
    ensures next.value < |file| ==> next.value == start + |chunks| * (10 * 1024 * 1024)
  {
    if chunks != [] {
      hide CeilDiv, ChunkAt;
      var n := |chunks| - 1;
      SizesOf(file, Some(start), server, chunks, next);
      ChunkIs(file, chunks[n].offset);
      WholeChunks(file, start, server, chunks[..n], Some(chunks[n].offset));
      Adjoin(file, start, chunks[n].offset, next.value);
      Count(n, next.value - chunks[n].offset);
    }
  }

  lemma ChunkIs(file: seq<Byte>, offset: nat)
    requires offset < |file|
    ensures var c := ChunkAt(file, offset);
      && offset < c.End() <= |file| && c.End() <= offset + CHUNK_SIZE_BYTES
      && (c.End() == |file| || c.End() == offset + CHUNK_SIZE_BYTES)
      && c.data == file[offset..c.End()]
  {
  }

  lemma Adjoin(file: seq<Byte>, a: nat, b: nat, c: nat)
    requires a <= b <= c <= |file|
    ensures file[a..b] + file[b..c] == file[a..c]
  {
  }

  lemma Count(n: nat, last: nat)
    requires 0 < last <= CHUNK_SIZE_BYTES
    ensures CeilDiv(n * CHUNK_SIZE_BYTES + last, CHUNK_SIZE_BYTES) == n + 1
  {
  }
}
