/** The send buffer pool: chunks handed out piece by piece, counted references, deferred reclamation. */
module BufferPool {
  import opened Options

  const MAX_FREE_CHUNKS := 8
  const TWO32 := 0x1_0000_0000

  datatype Chunk = Chunk(offset: nat, refs: nat)

  /** A piece of a chunk; the serial number tells buffers apart. */
  datatype Buffer = Buffer(chunk: nat, start: nat, size: nat, serial: nat)

  /** Chunks are known by number; `chunks` is the memory they live in. Sizes are 32-bit. */
  datatype Pool = Pool(
    chunkSize: nat, maxChunks: nat,
    active: seq<nat>, free: seq<nat>, chunks: map<nat, Chunk>,
    pending: seq<nat>,                             // unused chunks that wait for the lock
    nextChunk: nat, nextSerial: nat, live: set<Buffer>)  // live: buffers that someone still holds

  function NewPool(chunkSize: nat, maxChunks: nat): Pool {
    Pool(chunkSize, maxChunks, [], [], map[], [], 0, 0, {})
  }

  // ---------------------------------------------------------------- operations

  predicate Full(p: Pool, id: nat)
    requires id in p.chunks
  {
    p.chunks[id].offset >= p.chunkSize
  }

  /** The room test adds in 32 bits. */
  predicate HasRoom(p: Pool, id: nat, size: nat)
    requires id in p.chunks
  {
    (p.chunks[id].offset + size) % TWO32 <= p.chunkSize
  }

  function Opened(p: Pool, id: nat, size: nat): Pool
    requires id in p.chunks
  {
    var c := p.chunks[id];
    p.(chunks := p.chunks[id := Chunk((c.offset + size) % TWO32, c.refs + 1)],
       nextSerial := p.nextSerial + 1,
       live := p.live + {Buffer(id, c.offset, size, p.nextSerial)})
  }

  /** Position of a chunk in the active list, or its length. */
  function IndexOf(ids: seq<nat>, id: nat): (i: nat)
    ensures i <= |ids| && (i < |ids| ==> ids[i] == id) && forall j :: 0 <= j < i ==> ids[j] != id
  {
    if ids == [] || ids[0] == id then 0 else 1 + IndexOf(ids[1..], id)
  }

  function Freed(p: Pool, id: nat): Pool {
    var i := IndexOf(p.active, id);
    if i == |p.active| || id !in p.chunks then p
    else
      p.(chunks := p.chunks[id := p.chunks[id].(offset := 0)],
         free := if |p.free| < MAX_FREE_CHUNKS then p.free + [id] else p.free,
         active := p.active[..i] + p.active[i + 1..])
  }

  function FlushFrom(p: Pool, ids: seq<nat>): Pool
    decreases |ids|
  {
    if ids == [] then p else FlushFrom(Freed(p, ids[0]), ids[1..])
  }

  function Flush(p: Pool): Pool { FlushFrom(p, p.pending).(pending := []) }

  predicate CanAcquire(p: Pool) { p.free != [] || |p.active| < p.maxChunks }

  /** A free chunk or a new one becomes the last active chunk. */
  function Acquired(p: Pool): Pool {
    if p.free != [] then
      p.(free := p.free[..|p.free| - 1], active := p.active + [p.free[|p.free| - 1]])
    else
      p.(active := p.active + [p.nextChunk], chunks := p.chunks[p.nextChunk := Chunk(0, 0)],
         nextChunk := p.nextChunk + 1)
  }

  function Last(p: Pool): nat
    requires p.active != []
  {
    p.active[|p.active| - 1]
  }

  /** Opens the last active chunk, if it has room. */
  predicate LastHasRoom(p: Pool, size: nat) {
    p.active != [] && Last(p) in p.chunks && HasRoom(p, Last(p), size)
  }

  function Allocated(p: Pool, size: nat): (Pool, bool) { AllocatedNow(Flush(p), size) }

  function AllocatedNow(p: Pool, size: nat): (Pool, bool) {
    if LastHasRoom(p, size) then (Opened(p, Last(p), size), true)
    else if !CanAcquire(p) then (p, false)
    else
      var q := Acquired(p);
      if LastHasRoom(q, size) then (Opened(q, Last(q), size), true) else (q, false)
  }

  /** The last active chunk's offset plus the request fits in 32 bits, as do both sizes. */
  predicate SumFitsNow(p: Pool, size: nat) {
    && p.chunkSize < TWO32 && size < TWO32
    && (p.active != [] && Last(p) in p.chunks ==> p.chunks[Last(p)].offset + size < TWO32)
  }

  /** ... once the waiting chunks have been flushed, as an allocation does first. */
  predicate SumsFit(p: Pool, size: nat) { SumFitsNow(Flush(p), size) }

  /** The last reference to a buffer is dropped; `gotLock` says whether the pool's lock was free. */
  function Release(p: Pool, b: Buffer, gotLock: bool): Pool
    requires b.chunk in p.chunks && p.chunks[b.chunk].refs > 0
  {
    var c := p.chunks[b.chunk];
    var q := p.(chunks := p.chunks[b.chunk := c.(refs := c.refs - 1)], live := p.live - {b});
    if c.refs > 1 || !Full(p, b.chunk) then q
    else if gotLock then Freed(q, b.chunk)
    else q.(pending := q.pending + [b.chunk])
  }

  // ---------------------------------------------------------------- the invariant

  ghost predicate Distinct(ids: seq<nat>) { forall i, j :: 0 <= i < j < |ids| ==> ids[i] != ids[j] }

  function LiveIn(live: set<Buffer>, id: nat): set<Buffer> { set b | b in live && b.chunk == id }

  ghost predicate IdsOk(p: Pool) {
    && Distinct(p.active) && Distinct(p.free) && Distinct(p.pending)
    && (forall id :: id in p.active ==> id !in p.free)
    && (forall id :: id in p.active || id in p.free ==> id in p.chunks)
    && (forall id :: id in p.chunks ==> id < p.nextChunk)
  }

  ghost predicate ChunksOk(p: Pool) {
    && (forall id :: id in p.active ==> id in p.chunks && p.chunks[id].offset <= p.chunkSize)
    && (forall id :: id in p.active ==> p.chunks[id].refs == |LiveIn(p.live, id)|)
    && (forall id :: id in p.free ==> id in p.chunks && p.chunks[id] == Chunk(0, 0))
    && (forall id :: id in p.pending ==> id in p.active && id in p.chunks && p.chunks[id].refs == 0 && Full(p, id))
  }

  predicate Apart(b: Buffer, b': Buffer) {
    b.chunk != b'.chunk || b.start + b.size <= b'.start || b'.start + b'.size <= b.start
  }

  ghost predicate LiveOk(p: Pool) {
    && (forall b :: b in p.live ==>
          && b.chunk in p.active && b.chunk in p.chunks
          && b.start + b.size <= p.chunks[b.chunk].offset && b.serial < p.nextSerial)
    && (forall b, b' :: b in p.live && b' in p.live && b != b' ==> Apart(b, b'))
  }

  ghost predicate SizesOk(p: Pool) { |p.free| <= MAX_FREE_CHUNKS && |p.active| + |p.free| <= p.maxChunks }

  ghost predicate Inv(p: Pool) { IdsOk(p) && ChunksOk(p) && LiveOk(p) && SizesOk(p) }

  // ---------------------------------------------------------------- steps keep it

  lemma Removed(ids: seq<nat>, id: nat)
    requires Distinct(ids) && id in ids
    ensures var i := IndexOf(ids, id);
            var rest := ids[..i] + ids[i + 1..];
            i < |ids| && Distinct(rest) && forall x :: x in rest <==> x in ids && x != id
  {
  }

  /** An unused active chunk can be freed. */
  lemma MoveToFreeKeepsInv(p: Pool, id: nat)
    requires Inv(p) && id in p.active && id !in p.pending && p.chunks[id].refs == 0
    ensures Inv(Freed(p, id)) && Freed(p, id).pending == p.pending
  {
    var q := Freed(p, id);
    Removed(p.active, id);
    NotLive(p, id);
    FreedIds(p, q, id);
    FreedChunks(p, q, id);
  }

  lemma NotLive(p: Pool, id: nat)
    requires ChunksOk(p) && id in p.active && p.chunks[id].refs == 0
    ensures forall b :: b in p.live ==> b.chunk != id
  {
    assert forall b :: b in p.live && b.chunk == id ==> b in LiveIn(p.live, id);
  }

  lemma FreedIds(p: Pool, q: Pool, id: nat)
    requires IdsOk(p) && id in p.active && q == Freed(p, id)
    requires Distinct(q.active) && forall x :: x in q.active <==> x in p.active && x != id
    ensures IdsOk(q)
  {
  }

  lemma FreedChunks(p: Pool, q: Pool, id: nat)
    requires IdsOk(p) && ChunksOk(p) && id in p.active && id !in p.pending && p.chunks[id].refs == 0
    requires q == Freed(p, id)
    requires forall x :: x in q.active <==> x in p.active && x != id
    ensures ChunksOk(q)
  {
  }

  /** The first waiting chunk is freed, the others go on waiting. */
  lemma FreeFirstPending(p: Pool, ids: seq<nat>)
    requires Inv(p.(pending := ids)) && ids != []
    ensures Inv(Freed(p, ids[0]).(pending := ids[1..]))
    ensures ids[0] in p.active && ids[0] in p.chunks && p.chunks[ids[0]].refs == 0
  {
    var p0, p1 := p.(pending := ids), p.(pending := ids[1..]);
    assert ids == [ids[0]] + ids[1..];
    assert ids[0] in p0.pending;
    assert Inv(p1);
    MoveToFreeKeepsInv(p1, ids[0]);
    assert Freed(p1, ids[0]) == Freed(p, ids[0]).(pending := ids[1..]);
  }

  lemma {:induction false} FlushKeepsInv(p: Pool, ids: seq<nat>)
    requires Inv(p.(pending := ids))
    ensures Inv(FlushFrom(p, ids).(pending := []))
    ensures var q := FlushFrom(p, ids);
            q.chunkSize == p.chunkSize && q.maxChunks == p.maxChunks && q.live == p.live && q.nextSerial == p.nextSerial
    decreases |ids|
  {
    if ids != [] {
      FreeFirstPending(p, ids);
      FlushKeepsInv(Freed(p, ids[0]), ids[1..]);
    }
  }

  lemma AcquiredKeepsInv(p: Pool)
    requires Inv(p) && CanAcquire(p)
    ensures Inv(Acquired(p)) && Acquired(p).active != []
  {
    var q := Acquired(p);
    AcquiredIds(p, q, Last(q));
    AcquiredChunks(p, q, Last(q));
  }

  lemma AcquiredIds(p: Pool, q: Pool, id: nat)
    requires IdsOk(p) && q == Acquired(p) && id == Last(q)
    ensures IdsOk(q) && id !in p.active && (p.free != [] ==> id in p.free)
    ensures (forall x :: x in q.active <==> x in p.active || x == id)
    ensures forall x :: x in q.free ==> x in p.free && x != id
  {
    if p.free != [] {
      assert p.free == p.free[..|p.free| - 1] + [id];
      assert id in p.free;
    }
    assert id !in p.active;
    DistinctAppend(p.active, id);
  }

  lemma DistinctAppend(ids: seq<nat>, id: nat)
    requires Distinct(ids) && id !in ids
    ensures Distinct(ids + [id])
  {
  }

  lemma AcquiredChunks(p: Pool, q: Pool, id: nat)
    requires ChunksOk(p) && LiveOk(p) && q == Acquired(p) && id !in p.active && (p.free != [] ==> id in p.free)
    requires id == Last(q)
    requires p.nextChunk !in p.chunks
    requires (forall x :: x in q.active <==> x in p.active || x == id)
    requires forall x :: x in q.free ==> x in p.free && x != id
    ensures ChunksOk(q) && LiveOk(q)
  {
  }

  lemma OpenedKeepsInv(p: Pool, size: nat)
    requires Inv(p) && p.pending == [] && p.active != [] && HasRoom(p, Last(p), size)
    requires p.chunks[Last(p)].offset + size < TWO32
    ensures Inv(Opened(p, Last(p), size))
  {
    var id := Last(p);
    var q := Opened(p, id, size);
    assert id in p.active;
    var b := Buffer(id, p.chunks[id].offset, size, p.nextSerial);
    OpenedChunks(p, q, id, b);
    OpenedLive(p, q, id, b);
  }

  lemma OpenedChunks(p: Pool, q: Pool, id: nat, b: Buffer)
    requires ChunksOk(p) && LiveOk(p) && p.pending == [] && id in p.active && id !in p.free && b.chunk == id
    requires b !in p.live
    requires q.active == p.active && q.free == p.free && q.pending == [] && q.chunkSize == p.chunkSize
    requires q.live == p.live + {b}
    requires q.chunks == p.chunks[id := Chunk(p.chunks[id].offset + b.size, p.chunks[id].refs + 1)]
    requires p.chunks[id].offset + b.size <= p.chunkSize
    ensures ChunksOk(q)
  {
    assert LiveIn(q.live, id) == LiveIn(p.live, id) + {b};
    forall x | x in p.active && x != id ensures LiveIn(q.live, x) == LiveIn(p.live, x) {
    }
  }

  lemma OpenedLive(p: Pool, q: Pool, id: nat, b: Buffer)
    requires LiveOk(p) && id in p.active && id in p.chunks && b == Buffer(id, p.chunks[id].offset, b.size, p.nextSerial)
    requires q.active == p.active && q.live == p.live + {b} && q.nextSerial == p.nextSerial + 1
    requires q.chunks == p.chunks[id := Chunk(p.chunks[id].offset + b.size, p.chunks[id].refs + 1)]
    ensures LiveOk(q)
  {
  }

  lemma AllocateKeepsInv(p: Pool, size: nat)
    requires Inv(p) && SumsFit(p, size)
    ensures Inv(Allocated(p, size).0)
  {
    var q := Flush(p);
    FlushKeepsInv(p, p.pending);
    if LastHasRoom(q, size) {
      OpenedKeepsInv(q, size);
    } else if CanAcquire(q) {
      AcquiredKeepsInv(q);
      FreshChunk(q);
      if LastHasRoom(Acquired(q), size) {
        OpenedKeepsInv(Acquired(q), size);
      }
    }
  }

  lemma FreshChunk(p: Pool)
    requires IdsOk(p) && ChunksOk(p)
    ensures Last(Acquired(p)) in Acquired(p).chunks && Acquired(p).chunks[Last(Acquired(p))] == Chunk(0, 0)
  {
    assert p.free != [] ==> Last(Acquired(p)) in p.free;
  }

  /** A live buffer's chunk counts it. */
  lemma Counted(p: Pool, b: Buffer)
    requires ChunksOk(p) && LiveOk(p) && b in p.live
    ensures b.chunk in p.chunks && p.chunks[b.chunk].refs > 0 && b.chunk !in p.pending
  {
    assert b in LiveIn(p.live, b.chunk);
  }

  lemma DroppedKeepsInv(p: Pool, q: Pool, b: Buffer)
    requires Inv(p) && b in p.live && p.chunks[b.chunk].refs > 0 && b.chunk !in p.pending
    requires q == p.(chunks := p.chunks[b.chunk := p.chunks[b.chunk].(refs := p.chunks[b.chunk].refs - 1)],
                     live := p.live - {b})
    ensures Inv(q)
  {
    var id := b.chunk;
    assert LiveIn(q.live, id) == LiveIn(p.live, id) - {b};
    assert b in LiveIn(p.live, id);
    forall x | x in p.active && x != id ensures LiveIn(q.live, x) == LiveIn(p.live, x) {
    }
    assert ChunksOk(q);
  }

  lemma ReleaseKeepsInv(p: Pool, b: Buffer, gotLock: bool)
    requires Inv(p) && b in p.live && b.chunk in p.chunks && p.chunks[b.chunk].refs > 0 && b.chunk !in p.pending
    ensures Inv(Release(p, b, gotLock))
  {
    var c := p.chunks[b.chunk];
    var q := p.(chunks := p.chunks[b.chunk := c.(refs := c.refs - 1)], live := p.live - {b});
    DroppedKeepsInv(p, q, b);
    if c.refs == 1 && Full(p, b.chunk) {
      if gotLock {
        MoveToFreeKeepsInv(q, b.chunk);
      } else {
        assert q.pending + [b.chunk] == Release(p, b, gotLock).pending;
      }
    }
  }

  // ---------------------------------------------------------------- runs

  datatype Action = DoAllocate(size: nat) | DoRelease(buffer: Buffer, gotLock: bool)

  predicate Enabled(p: Pool, a: Action) {
    match a
    case DoAllocate(size) => SumsFit(p, size)
    case DoRelease(b, _) => b in p.live && b.chunk in p.chunks && p.chunks[b.chunk].refs > 0
  }

  function Step(p: Pool, a: Action): Pool
    requires Enabled(p, a)
  {
    match a
    case DoAllocate(size) => Allocated(p, size).0
    case DoRelease(b, gotLock) => Release(p, b, gotLock)
  }

  lemma StepKeepsInv(p: Pool, a: Action)
    requires Inv(p) && Enabled(p, a)
    ensures Inv(Step(p, a))
  {
    match a
    case DoAllocate(size) => AllocateKeepsInv(p, size);
    case DoRelease(b, gotLock) =>
      Counted(p, b);
      ReleaseKeepsInv(p, b, gotLock);
  }

  ghost predicate StepTo(p: Pool, p': Pool) { exists a :: Enabled(p, a) && p' == Step(p, a) }

  ghost predicate IsRun(trace: seq<Pool>) {
    && |trace| > 0 && trace[0] == NewPool(trace[0].chunkSize, trace[0].maxChunks)
    && forall i {:trigger trace[i]} :: 0 < i < |trace| ==> StepTo(trace[i - 1], trace[i])
  }

  lemma {:induction false} RunInv(trace: seq<Pool>, i: nat)
    requires IsRun(trace) && i < |trace|
    ensures Inv(trace[i])
  {
    if i > 0 {
      RunInv(trace, i - 1);
      assert StepTo(trace[i - 1], trace[i]);
      var a :| Enabled(trace[i - 1], a) && trace[i] == Step(trace[i - 1], a);
      StepKeepsInv(trace[i - 1], a);
    }
  }

  /** In every run, live buffers lie in chunks that are in use, and no two share a byte. */
  lemma BuffersSafe(trace: seq<Pool>, i: nat, b: Buffer)
    requires IsRun(trace) && i < |trace| && b in trace[i].live
    ensures b.chunk in trace[i].active && b.start + b.size <= trace[i].chunkSize
    ensures forall b' :: b' in trace[i].live && b' != b ==> Apart(b, b')
  {
    RunInv(trace, i);
  }

  /** In every run, a chunk's reference count is the number of its live buffers, and the lists keep their bounds. */
  lemma CountsExact(trace: seq<Pool>, i: nat)
    requires IsRun(trace) && i < |trace|
    ensures forall id :: id in trace[i].active ==>
              id in trace[i].chunks && trace[i].chunks[id].refs == |LiveIn(trace[i].live, id)|
    ensures |trace[i].free| <= 8 && |trace[i].active| + |trace[i].free| <= trace[i].maxChunks
  {
    RunInv(trace, i);
  }

  /** In every run, a chunk that has a live buffer across a step is not reset by it. */
  lemma LiveChunkKept(trace: seq<Pool>, i: nat, b: Buffer)
    requires IsRun(trace) && i + 1 < |trace| && b in trace[i].live && b in trace[i + 1].live
    ensures var p, p' := trace[i], trace[i + 1];
            && b.chunk in p.active && b.chunk in p'.active && b.chunk in p.chunks && b.chunk in p'.chunks
            && p.chunks[b.chunk].offset <= p'.chunks[b.chunk].offset
  {
    RunInv(trace, i);
    RunInv(trace, i + 1);
    assert StepTo(trace[i], trace[i + 1]);
    var a :| Enabled(trace[i], a) && trace[i + 1] == Step(trace[i], a);
    StepKeepsOffset(trace[i], a, b);
  }

  lemma StepKeepsOffset(p: Pool, a: Action, b: Buffer)
    requires Inv(p) && Enabled(p, a) && b in p.live && b in Step(p, a).live && b.chunk in Step(p, a).chunks
    ensures p.chunks[b.chunk].offset <= Step(p, a).chunks[b.chunk].offset
  {
    match a
    case DoAllocate(size) => AllocateKeepsOffset(p, size, b);
    case DoRelease(d, gotLock) => ReleaseKeepsOffset(p, d, gotLock, b);
  }

  lemma AllocateKeepsOffset(p: Pool, size: nat, b: Buffer)
    requires Inv(p) && SumsFit(p, size) && b in p.live && b.chunk in Allocated(p, size).0.chunks
    ensures p.chunks[b.chunk].offset <= Allocated(p, size).0.chunks[b.chunk].offset
  {
    FlushKeepsOffset(p, p.pending, b);
    FlushKeepsInv(p, p.pending);
    OffsetsGrow(Flush(p), size, b.chunk);
  }

  lemma OffsetsGrow(p: Pool, size: nat, id: nat)
    requires IdsOk(p) && ChunksOk(p) && SumFitsNow(p, size) && id in p.active
    ensures var q := AllocatedNow(p, size).0; id in q.chunks && p.chunks[id].offset <= q.chunks[id].offset
  {
  }

  lemma ReleaseKeepsOffset(p: Pool, d: Buffer, gotLock: bool, b: Buffer)
    requires Inv(p) && Enabled(p, DoRelease(d, gotLock)) && b in p.live && b != d
    requires b.chunk in Release(p, d, gotLock).chunks
    ensures p.chunks[b.chunk].offset <= Release(p, d, gotLock).chunks[b.chunk].offset
  {
    if d.chunk == b.chunk {
      TwoAreTwo(LiveIn(p.live, b.chunk), b, d);
    }
  }

  lemma TwoAreTwo(s: set<Buffer>, b: Buffer, d: Buffer)
    requires b in s && d in s && b != d
    ensures |s| >= 2
  {
    assert |s - {b}| >= 1 by { assert d in s - {b}; }
  }

  lemma {:induction false} FlushKeepsOffset(p: Pool, ids: seq<nat>, b: Buffer)
    requires Inv(p.(pending := ids)) && b in p.live
    ensures b.chunk in FlushFrom(p, ids).chunks && FlushFrom(p, ids).chunks[b.chunk] == p.chunks[b.chunk]
    decreases |ids|
  {
    if ids != [] {
      Counted(p.(pending := ids), b);
      FreeFirstPending(p, ids);
      FlushKeepsOffset(Freed(p, ids[0]), ids[1..], b);
    }
  }

  // ---------------------------------------------------------------- what the pool does not do

  /** The room test gives the right answer exactly when the sum fits in 32 bits. */
  lemma RoomTestExactIff(p: Pool, id: nat, size: nat)
    requires id in p.chunks && p.chunks[id].offset <= p.chunkSize < TWO32 && size < TWO32
    ensures (HasRoom(p, id, size) <==> p.chunks[id].offset + size <= p.chunkSize) <==>
              p.chunks[id].offset + size < TWO32
  {
  }

  /** An allocation keeps the pool consistent exactly when the sum it forms fits in 32 bits. */
  lemma AllocateKeepsInvIff(p: Pool, size: nat)
    requires Inv(p) && p.chunkSize < TWO32 && size < TWO32
    ensures Inv(Allocated(p, size).0) <==> SumsFit(p, size)
  {
    var q := Flush(p);
    FlushKeepsInv(p, p.pending);
    if SumsFit(p, size) {
      AllocateKeepsInv(p, size);
    } else {
      assert Last(q) in q.active;
      RoomTestExactIff(q, Last(q), size);
      assert Buffer(Last(q), q.chunks[Last(q)].offset, size, q.nextSerial) in Opened(q, Last(q), size).live;
    }
  }

  /** One byte used, 2^32 - 1 asked for: the test passes. */
  lemma RoomTestWraps(p: Pool)
    requires 0 in p.chunks && p.chunks[0].offset == 1
    ensures HasRoom(p, 0, TWO32 - 1)
  {
  }

  /**
   * Dropping a buffer takes its chunk out of use exactly when it was the last one, the chunk is full and the lock is
   * free.
   */
  lemma ReclaimedIff(p: Pool, b: Buffer, gotLock: bool)
    requires Inv(p) && b in p.live && b.chunk in p.chunks && p.chunks[b.chunk].refs > 0
    ensures var unused := LiveIn(p.live, b.chunk) == {b} && p.chunks[b.chunk].offset >= p.chunkSize;
            && (b.chunk !in Release(p, b, gotLock).active <==> unused && gotLock)
            && (b.chunk in Release(p, b, gotLock).pending <==> unused && !gotLock)
  {
    Counted(p, b);
    var mine := LiveIn(p.live, b.chunk);
    assert b in mine;
    if mine == {b} {
      Removed(p.active, b.chunk);
    } else {
      assert mine - {b} != {} && |mine - {b}| == |mine| - 1;
    }
  }

  /** A chunk taken out of use is emptied and put on the free list, as long as fewer than eight are there. */
  lemma ReclaimedGoesFree(p: Pool, b: Buffer)
    requires Inv(p) && b in p.live && LiveIn(p.live, b.chunk) == {b} && b.chunk in p.chunks
    requires p.chunks[b.chunk].offset >= p.chunkSize
    ensures p.chunks[b.chunk].refs > 0
    ensures var q := Release(p, b, true);
            && q.free == (if |p.free| < 8 then p.free + [b.chunk] else p.free)
            && b.chunk in q.chunks && q.chunks[b.chunk] == Chunk(0, 0)
  {
    Counted(p, b);
    assert |LiveIn(p.live, b.chunk)| == 1;
  }

  /**
   * Where an allocation goes: behind what the last active chunk holds, if that has room; else to the start of the chunk
   * freed last; else, only when none is free, to the start of a new chunk.
   */
  lemma AllocatedWhere(p: Pool, size: nat) returns (b: Buffer)
    requires Inv(p) && SumsFit(p, size) && Allocated(p, size).1
    ensures var q, r := Flush(p), Allocated(p, size).0;
            && r.live == p.live + {b} && b !in p.live && b.size == size && b.serial == p.nextSerial
            && (if q.active != [] && Last(q) in q.chunks && q.chunks[Last(q)].offset + size <= q.chunkSize then
                  b.chunk == Last(q) && b.start == q.chunks[Last(q)].offset && r.active == q.active && r.free == q.free
                else
                  && b.start == 0 && r.active == q.active + [b.chunk]
                  && b.chunk == (if q.free != [] then q.free[|q.free| - 1] else q.nextChunk)
                  && r.free == (if q.free != [] then q.free[..|q.free| - 1] else []))
  {
    var q := Flush(p);
    FlushKeepsInv(p, p.pending);
    LastRoom(q, size);
    if LastHasRoom(q, size) {
      b := Buffer(Last(q), q.chunks[Last(q)].offset, size, q.nextSerial);
    } else {
      FreshChunk(q);
      b := Buffer(Last(Acquired(q)), 0, size, q.nextSerial);
    }
  }

  /** A chunk that waits for the lock is out of use after the next flush. */
  lemma {:induction false} FlushReclaims(p: Pool, ids: seq<nat>, id: nat)
    requires Inv(p.(pending := ids))
    ensures id in FlushFrom(p, ids).active <==> id in p.active && id !in ids
    decreases |ids|
  {
    if ids != [] {
      FreeFirstPending(p, ids);
      assert ids == [ids[0]] + ids[1..];
      Removed(p.active, ids[0]);
      FlushReclaims(Freed(p, ids[0]), ids[1..], id);
    }
  }

  /** When an allocation succeeds: only the last active chunk and one more chunk are considered. */
  lemma AllocateSucceedsIff(p: Pool, size: nat)
    requires Inv(p) && SumsFit(p, size)
    ensures var q := Flush(p);
            Allocated(p, size).1 <==>
            || (q.active != [] && Last(q) in q.chunks && q.chunks[Last(q)].offset + size <= q.chunkSize)
            || ((q.free != [] || |q.active| < q.maxChunks) && size <= q.chunkSize)
  {
    FlushKeepsInv(p, p.pending);
    LastRoom(Flush(p), size);
    FreshRoom(Flush(p), size);
  }

  lemma LastRoom(p: Pool, size: nat)
    requires ChunksOk(p) && SumFitsNow(p, size)
    ensures LastHasRoom(p, size) <==>
            p.active != [] && Last(p) in p.chunks && p.chunks[Last(p)].offset + size <= p.chunkSize
  {
  }

  lemma FreshRoom(p: Pool, size: nat)
    requires IdsOk(p) && ChunksOk(p) && size < TWO32
    ensures LastHasRoom(Acquired(p), size) <==> size <= p.chunkSize
  {
    FreshChunk(p);
  }

  /** A request larger than a chunk fails and uses up a chunk. */
  lemma OversizeUsesChunk(p: Pool, size: nat)
    requires Inv(p) && p.chunkSize < size && SumsFit(p, size) && CanAcquire(Flush(p))
    ensures !Allocated(p, size).1 && |Allocated(p, size).0.active| == |Flush(p).active| + 1
  {
    AllocateSucceedsIff(p, size);
    FlushKeepsInv(p, p.pending);
    var q := Flush(p);
    assert q.active != [] ==> Last(q) in q.active;
  }

  /**
   * Nothing is in use, a chunk would do, and still the allocation fails, because chunks that are not exactly full stay
   * active: two chunks, and buffers of more than half a chunk but less than a whole one.
   */
  lemma Stranded(chunkSize: nat, size: nat) returns (trace: seq<Pool>)
    requires size < chunkSize < 2 * size < TWO32
    ensures IsRun(trace) && |trace| == 5 && trace[4].chunkSize == chunkSize && trace[4].maxChunks == 2
    ensures trace[4].live == {} && !Allocated(trace[4], size).1
  {
    var p1, p2 := TwoAllocated(chunkSize, size);
    var b0, b1 := Buffer(0, 0, size, 0), Buffer(1, 0, size, 1);
    var p3 := p2.(chunks := p2.chunks[0 := Chunk(size, 0)], live := p2.live - {b0});
    var p4 := p3.(chunks := p3.chunks[1 := Chunk(size, 0)], live := p3.live - {b1});
    ReleaseFromOpenChunk(p2, b0, p3);
    ReleaseFromOpenChunk(p3, b1, p4);
    NoChunkLeft(p4, size);
    trace := [NewPool(chunkSize, 2), p1, p2, p3, p4];
  }

  lemma TwoAllocated(chunkSize: nat, size: nat) returns (p1: Pool, p2: Pool)
    requires size < chunkSize < 2 * size < TWO32
    ensures StepTo(NewPool(chunkSize, 2), p1) && StepTo(p1, p2)
    ensures p2 == Pool(chunkSize, 2, [0, 1], [], map[0 := Chunk(size, 1), 1 := Chunk(size, 1)], [], 2, 2,
                       {Buffer(0, 0, size, 0), Buffer(1, 0, size, 1)})
  {
    p1 := Pool(chunkSize, 2, [0], [], map[0 := Chunk(size, 1)], [], 1, 1, {Buffer(0, 0, size, 0)});
    p2 := Pool(chunkSize, 2, [0, 1], [], map[0 := Chunk(size, 1), 1 := Chunk(size, 1)], [], 2, 2,
               {Buffer(0, 0, size, 0), Buffer(1, 0, size, 1)});
    FirstInChunk(NewPool(chunkSize, 2), size, p1);
    FirstInChunk(p1, size, p2);
  }

  lemma NoChunkLeft(p: Pool, size: nat)
    requires p.pending == [] && p.free == [] && |p.active| >= p.maxChunks && !LastHasRoom(p, size)
    ensures !Allocated(p, size).1
  {
  }

  /** An allocation that opens a new chunk. */
  lemma FirstInChunk(p: Pool, size: nat, q: Pool)
    requires p.pending == [] && p.free == [] && |p.active| < p.maxChunks && size <= p.chunkSize && SumFitsNow(p, size)
    requires !LastHasRoom(p, size)
    requires q == p.(active := p.active + [p.nextChunk], chunks := p.chunks[p.nextChunk := Chunk(size, 1)],
                     nextChunk := p.nextChunk + 1, nextSerial := p.nextSerial + 1,
                     live := p.live + {Buffer(p.nextChunk, 0, size, p.nextSerial)})
    ensures StepTo(p, q)
  {
    assert Flush(p) == p;
    var r := Acquired(p);
    assert r.chunks[p.nextChunk := Chunk(size, 1)] == q.chunks;
    assert Enabled(p, DoAllocate(size)) && q == Step(p, DoAllocate(size));
  }

  /** A release that leaves its chunk as it is, because the chunk is not full. */
  lemma ReleaseFromOpenChunk(p: Pool, b: Buffer, q: Pool)
    requires b in p.live && b.chunk in p.chunks && p.chunks[b.chunk].refs > 0 && !Full(p, b.chunk)
    requires q == p.(chunks := p.chunks[b.chunk := p.chunks[b.chunk].(refs := p.chunks[b.chunk].refs - 1)],
                     live := p.live - {b})
    ensures StepTo(p, q)
  {
    assert Enabled(p, DoRelease(b, true)) && q == Step(p, DoRelease(b, true));
  }

  // ---------------------------------------------------------------- the pool object

  /** Chunk memory and lists updated in place; `live` records the buffers that callers hold. */
  class SendBufferPool {
    const chunkSize: nat
    const maxChunks: nat
    var active: seq<nat>
    var free: seq<nat>
    var chunks: map<nat, Chunk>
    var pendingGc: seq<nat>
    var nextChunk: nat
    var nextSerial: nat
    ghost var live: set<Buffer>

    ghost function View(): Pool
      reads this
    {
      Pool(chunkSize, maxChunks, active, free, chunks, pendingGc, nextChunk, nextSerial, live)
    }

    constructor (chunkSize: nat, maxChunks: nat)
      ensures View() == NewPool(chunkSize, maxChunks)
    {
      this.chunkSize, this.maxChunks := chunkSize, maxChunks;
      active, free, chunks, pendingGc, nextChunk, nextSerial, live := [], [], map[], [], 0, 0, {};
    }

    method Allocate(size: nat) returns (buf: Option<Buffer>)
      requires Inv(View()) && SumsFit(View(), size)
      modifies this
      ensures Inv(View()) && (View(), buf.Some?) == Allocated(old(View()), size)
      ensures buf.Some? ==> buf.value.size == size && buf.value !in old(live) && live == old(live) + {buf.value}
    {
      AllocateKeepsInv(View(), size);
      FlushKeepsInv(View(), pendingGc);
      FlushPendingGc();
      if active != [] {
        assert Last(View()) in active;
        buf := Open(active[|active| - 1], size);
        if buf.Some? {
          return;
        }
      }
      buf := AllocateInNewChunk(size);
    }

    method AllocateInNewChunk(size: nat) returns (buf: Option<Buffer>)
      requires Inv(View())
      modifies this
      ensures buf.Some? <==> CanAcquire(old(View())) && LastHasRoom(Acquired(old(View())), size)
      ensures View() == if buf.Some? then Opened(Acquired(old(View())), Last(Acquired(old(View()))), size)
                        else if CanAcquire(old(View())) then Acquired(old(View())) else old(View())
      ensures buf.Some? ==>
                buf.value.size == size && buf.value.serial == old(nextSerial) && live == old(live) + {buf.value}
    {
      AcquiredWhenPossible(View());
      var chunk := AcquireChunk();
      if chunk.None? {
        return None;
      }
      active := active + [chunk.value];
      buf := Open(active[|active| - 1], size);
    }

    method Open(id: nat, size: nat) returns (buf: Option<Buffer>)
      requires id in chunks
      modifies this
      ensures buf.Some? <==> HasRoom(old(View()), id, size)
      ensures View() == if buf.Some? then Opened(old(View()), id, size) else old(View())
      ensures buf.Some? ==> buf.value == Buffer(id, old(chunks[id].offset), size, old(nextSerial))
    {
      var c := chunks[id];
      if (c.offset + size) % TWO32 > chunkSize {
        return None;
      }
      var b := Buffer(id, c.offset, size, nextSerial);
      chunks := chunks[id := Chunk((c.offset + size) % TWO32, c.refs + 1)];
      nextSerial := nextSerial + 1;
      live := live + {b};
      return Some(b);
    }

    method FlushPendingGc()
      requires Inv(View())
      modifies this
      ensures View() == Flush(old(View()))
    {
      ghost var start := View();
      while pendingGc != []
        invariant Inv(View())
        invariant FlushFrom(start, start.pending).(pending := []) == FlushFrom(View(), pendingGc).(pending := [])
        decreases |pendingGc|
      {
        FlushOne(View());
        var chunk := pendingGc[0];
        pendingGc := pendingGc[1..];
        MoveToFree(chunk);
      }
    }

    method MoveToFree(id: nat)
      requires id in active ==> id in chunks
      modifies this
      ensures View() == Freed(old(View()), id)
    {
      var i := 0;
      while i < |active| && active[i] != id
        invariant i <= |active| && id !in active[..i]
      {
        i := i + 1;
      }
      if i < |active| {
        assert IndexOf(active, id) == i;
        chunks := chunks[id := chunks[id].(offset := 0)];
        if |free| < MAX_FREE_CHUNKS {
          free := free + [id];
        }
        active := active[..i] + active[i + 1..];
      }
    }

    /** Takes a free chunk, or makes one; the caller puts it at the end of the active list. */
    method AcquireChunk() returns (chunk: Option<nat>)
      modifies this
      ensures chunk.Some? <==> CanAcquire(old(View()))
      ensures View().(active := if chunk.Some? then active + [chunk.value] else active) ==
              if chunk.Some? then Acquired(old(View())) else old(View())
    {
      if free != [] {
        chunk := Some(free[|free| - 1]);
        free := free[..|free| - 1];
        return;
      }
      if |active| >= maxChunks {
        return None;
      }
      chunk := Some(nextChunk);
      chunks := chunks[nextChunk := Chunk(0, 0)];
      nextChunk := nextChunk + 1;
    }

    method OnRelease(b: Buffer, gotLock: bool)
      requires Inv(View()) && b in live && b.chunk in chunks && chunks[b.chunk].refs > 0
      modifies this
      ensures Inv(View()) && View() == Release(old(View()), b, gotLock)
    {
      Counted(View(), b);
      ReleaseKeepsInv(View(), b, gotLock);
      var c := chunks[b.chunk];
      chunks := chunks[b.chunk := c.(refs := c.refs - 1)];
      live := live - {b};
      if c.refs == 1 {
        if c.offset >= chunkSize {
          if !gotLock {
            pendingGc := pendingGc + [b.chunk];
            return;
          }
          MoveToFree(b.chunk);
        }
      }
    }
  }

  lemma AcquiredWhenPossible(p: Pool)
    requires Inv(p)
    ensures CanAcquire(p) ==> Inv(Acquired(p)) && Last(Acquired(p)) in Acquired(p).chunks
  {
    if CanAcquire(p) {
      AcquiredKeepsInv(p);
      assert Last(Acquired(p)) in Acquired(p).active;
    }
  }

  /** One chunk off the waiting list. */
  lemma FlushOne(p: Pool)
    requires Inv(p) && p.pending != []
    ensures var q := Freed(p.(pending := p.pending[1..]), p.pending[0]);
            && Inv(q) && q.pending == p.pending[1..] && p.pending[0] in p.chunks
            && FlushFrom(p, p.pending).(pending := []) == FlushFrom(q, q.pending).(pending := [])
  {
    var ids := p.pending;
    FreeFirstPending(p, ids);
    FlushIgnoresPending(Freed(p, ids[0]), ids[1..], ids[1..]);
    assert Freed(p.(pending := ids[1..]), ids[0]) == Freed(p, ids[0]).(pending := ids[1..]);
  }

  lemma {:induction false} FlushIgnoresPending(p: Pool, ids: seq<nat>, other: seq<nat>)
    ensures FlushFrom(p.(pending := other), ids) == FlushFrom(p, ids).(pending := other)
    decreases |ids|
  {
    if ids != [] {
      assert Freed(p.(pending := other), ids[0]) == Freed(p, ids[0]).(pending := other);
      FlushIgnoresPending(Freed(p, ids[0]), ids[1..], other);
    }
  }
}
