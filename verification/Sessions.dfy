/**
 * The session and its send queue as objects that update their fields in place. Each method keeps the session's
 * invariant and leads to the state that the function of its name gives.
 */
module Sessions {
  import opened Division
  import opened Options
  import Spec = SessionSpec

  class SendQueue<B> {
    var pending: seq<B>
    var registered: bool
    const maxPending: nat

    ghost function View(): Spec.SendQueue<B>
      reads this
    {
      Spec.SendQueue(pending, registered, maxPending)
    }

    constructor (maxPending: nat)
      ensures View() == Spec.SendQueue([], false, maxPending)
    {
      this.pending, this.registered, this.maxPending := [], false, maxPending;
    }

    method Push(buf: B) returns (needsRegister: bool, overflowed: bool)
      modifies this
      ensures Spec.PushResult(View(), needsRegister, overflowed) == Spec.Push(old(View()), buf)
    {
      if |pending| >= maxPending {
        return false, true;
      }
      var first := !registered;
      pending := pending + [buf];
      registered := true;
      return first, false;
    }

    method Drain() returns (out: seq<B>)
      modifies this
      ensures out == old(pending) && View() == old(View()).(pending := [])
    {
      out, pending := pending, [];
    }

    method MarkSent()
      modifies this
      ensures View() == Spec.MarkSent(old(View()))
    {
      if pending == [] {
        registered := false;
      }
    }
  }

  /** Callbacks are given as the calls they make; `sqe` arguments say whether a submission entry was available. */
  class Session<B> {
    var disconnecting: bool
    var pendingIo: int
    var selfRef: bool
    const sendQueue: SendQueue<B>
    var inFlightBufs: seq<B>
    // the kernel's side and the history of this session
    ghost var started: bool
    ghost var recvOps: nat
    ghost var sendOps: nat
    ghost var shutOps: nat
    ghost var cq: seq<Spec.Cqe>
    ghost var accepted: seq<B>
    ghost var completed: seq<B>
    ghost var released: nat

    ghost function View(): Spec.Session<B>
      reads this, sendQueue
    {
      Spec.Session(started, disconnecting, pendingIo, selfRef, sendQueue.View(), inFlightBufs,
                   recvOps, sendOps, shutOps, cq, accepted, completed, released)
    }

    constructor (maxPending: nat)
      ensures Spec.Ok(View()) && View() == Spec.NewSession(maxPending) && fresh(sendQueue)
    {
      disconnecting, pendingIo, selfRef, inFlightBufs := false, 0, false, [];
      sendQueue := new SendQueue(maxPending);
      started, recvOps, sendOps, shutOps, cq := false, 0, 0, 0, [];
      accepted, completed, released := [], [], 0;
    }

    /** The kernel completes one of this session's operations, or reports data of its receive. */
    ghost method KernelCompletes(c: Spec.Cqe)
      requires Spec.Ok(View()) && Spec.KernelMay(View(), c)
      modifies this
      ensures Spec.Ok(View()) && View() == Spec.Complete(old(View()), c)
    {
      Spec.CompleteKeepsOk(View(), c);
      cq := cq + [c];
      match c
      case Received(_, more, _) => recvOps := if more then recvOps else recvOps - 1;
      case Sent(_) => sendOps := sendOps - 1;
      case Shut(_) => shutOps := shutOps - 1;
    }

    /** Afterwards the session receives, or is going down with something to wait for. */
    method Start(onConnected: seq<Spec.Call<B>>, sqe: bool)
      requires Spec.Ok(View()) && !started
      modifies this, sendQueue
      ensures Spec.Ok(View()) && started && View() == Spec.Start(old(View()), onConnected, sqe)
      ensures var up := Spec.RunCalls(old(View()).(started := true, selfRef := true), onConnected);
              disconnecting <==> up.disconnecting || !sqe
      ensures !disconnecting ==> Spec.RecvsInFlight(View()) == 1
    {
      Spec.StartOutcome(View(), onConnected, sqe);
      selfRef := true;
      started := true;
      RunCalls(onConnected);
      RegisterRecv(sqe);
    }

    method Send(buf: B, sqe: bool, overflow: seq<Spec.Call<B>>) returns (ok: bool)
      requires Spec.Core(View()) && started
      modifies this, sendQueue
      ensures Spec.Core(View()) && Spec.CallFrame(old(View()), View())
      ensures View() == Spec.Send(old(View()), buf, sqe, overflow)
      ensures ok <==> !old(disconnecting) && |old(sendQueue.pending)| < sendQueue.maxPending
      ensures accepted == old(accepted) + if ok then [buf] else []
      ensures !old(disconnecting) ==> Spec.SendCallOutcome(old(View()), View(), buf, sqe)
      decreases overflow, 1
    {
      if disconnecting {
        return false;
      }
      Spec.SendCallLeadsTo(View(), buf, sqe, overflow);
      Spec.SendKeepsCore(View(), buf, sqe, overflow);
      ghost var before := View();
      var needsRegister, overflowed := sendQueue.Push(buf);
      if overflowed {
        RunCalls(overflow);
        Disconnect(true);
        return false;
      }
      accepted := accepted + [buf];
      if needsRegister {
        Spec.FirstPush(before, buf);
        RegisterSend(sqe);
      }
      return true;
    }

    /** User code in a callback. */
    method RunCalls(calls: seq<Spec.Call<B>>)
      requires Spec.Core(View()) && started
      modifies this, sendQueue
      ensures Spec.Core(View()) && Spec.CallFrame(old(View()), View())
      ensures View() == Spec.RunCalls(old(View()), calls)
      decreases calls, 0
    {
      if calls != [] {
        match calls[0] {
          case CallSend(buf, sqe, overflow) => var _ := Send(buf, sqe, overflow);
          case CallDisconnect => Disconnect(true);
        }
        RunCalls(calls[1..]);
      }
    }

    /** With a submission entry the counters stay exact; without one, see ForcedReleaseSafeIff. */
    method Disconnect(sqe: bool)
      requires Spec.Counted(View()) && started
      modifies this
      ensures disconnecting && View() == Spec.Disconnect(old(View()), sqe)
      ensures sqe ==> Spec.Core(View()) && Spec.CallFrame(old(View()), View())
    {
      Spec.DisconnectKeepsCore(View());
      if disconnecting {
        return;
      }
      disconnecting := true;
      if !sqe {
        pendingIo := 0;
        TryRelease();
        return;
      }
      shutOps := shutOps + 1;
      pendingIo := pendingIo + 1;
    }

    /** A session that is going down is released when, and only when, it has nothing left in flight. */
    method TryRelease()
      modifies this
      ensures View() == Spec.TryRelease(old(View()))
      ensures old(Spec.Counted(View()) && started && disconnecting && released == 0) ==>
                Spec.Ok(View()) && (released == 1 <==> Spec.InFlight(View()) == 0)
    {
      if pendingIo > 0 {
        return;
      }
      released := released + 1;
      selfRef := false;
    }

    method RegisterRecv(sqe: bool)
      requires Spec.Core(View()) && started && Spec.RecvsInFlight(View()) == 0 && (disconnecting ==> pendingIo > 0)
      modifies this
      ensures Spec.Ok(View()) && View() == Spec.RegisterRecv(old(View()), sqe)
    {
      Spec.RegisterRecvKeepsOk(View(), sqe);
      if disconnecting {
        return;
      }
      pendingIo := pendingIo + 1;
      if !sqe {
        pendingIo := pendingIo - 1;
        Disconnect(true);
        return;
      }
      recvOps := recvOps + 1;
    }

    method RegisterSend(sqe: bool)
      requires started && if disconnecting then Spec.Core(View()) else Spec.Queued(View())
      modifies this, sendQueue
      ensures Spec.Core(View()) && Spec.CallFrame(old(View()), View())
      ensures View() == if old(disconnecting) then old(View()) else Spec.DrainAndSend(old(View()), sqe)
    {
      if disconnecting {
        return;
      }
      var bufs := sendQueue.Drain();
      if bufs == [] {
        return;
      }
      SendBatch(bufs, sqe);
    }

    method SendBatch(bufs: seq<B>, sqe: bool)
      requires started && if disconnecting then Spec.Core(View()) else Spec.Drained(View(), bufs)
      modifies this
      ensures Spec.Core(View()) && Spec.CallFrame(old(View()), View())
      ensures View() == Spec.SendBatch(old(View()), bufs, sqe)
    {
      Spec.BatchKeepsCore(View(), bufs, sqe);
      if disconnecting || bufs == [] {
        return;
      }
      inFlightBufs := bufs;
      pendingIo := pendingIo + 1;
      if !sqe {
        pendingIo := pendingIo - 1;
        inFlightBufs := [];
        Disconnect(true);
        return;
      }
      sendOps := sendOps + 1;
    }

    /** The ring gets its buffer back whatever happens, and only after user code has seen the data. */
    method OnRecv(ring: RingBuffer, res: int, more: bool, buf: Option<nat>, onRecv: seq<Spec.Call<B>>, sqe: bool)
      returns (viewed: Option<(nat, nat)>)
      requires Spec.Ok(View()) && cq != [] && cq[0] == Spec.Received(res, more, buf) && (res == -Spec.ENOBUFS ==> !more)
      requires ring.Valid() && (buf.Some? ==> buf.value !in ring.provided)
      modifies this, sendQueue, ring
      ensures Spec.Ok(View()) && View() == Spec.Dispatch(old(View()), onRecv, sqe)
      ensures !old(disconnecting) ==> Spec.RecvOutcome(old(View()), View(), onRecv, sqe)
      ensures viewed.Some? <==> buf.Some? && res > 0 && !old(disconnecting)
      ensures viewed.Some? ==> ring.IsViewOf(buf.value, res, viewed.value)
      ensures ring.Valid()
      ensures ring.ids == old(ring.ids) + if buf.Some? && buf.value < ring.bufCount then [buf.value] else []
      ensures ring.provided == old(ring.provided) + if buf.Some? && buf.value < ring.bufCount then {buf.value} else {}
    {
      if !disconnecting {
        Spec.OnRecvOutcome(View(), onRecv, sqe);
      }
      TakeRecv(more);
      ghost var taken := View();
      viewed := HandleData(ring, res, buf, onRecv);
      Spec.RecvSteps(old(View()), taken, View(), onRecv, sqe);
      AfterData(res, more, buf, sqe);
    }

    /** Without the flag that more will follow, the receive has ended. */
    method TakeRecv(more: bool)
      requires Spec.Ok(View()) && cq != [] && cq[0].Received? && cq[0].more == more
      modifies this
      ensures Spec.Core(View()) && started
      ensures View() == old(View()).(cq := old(cq)[1..], pendingIo := old(pendingIo) - if more then 0 else 1)
    {
      Spec.RecvTaken(View());
      cq := cq[1..];
      if !more {
        pendingIo := pendingIo - 1;
      }
    }

    /** Shows the data, if there is any and the session is not going down, then returns the buffer. */
    method HandleData(ring: RingBuffer, res: int, buf: Option<nat>, onRecv: seq<Spec.Call<B>>)
      returns (viewed: Option<(nat, nat)>)
      requires Spec.Core(View()) && started && ring.Valid() && (buf.Some? ==> buf.value !in ring.provided)
      modifies this, sendQueue, ring
      ensures Spec.Core(View()) && Spec.CallFrame(old(View()), View())
      ensures viewed.Some? <==> buf.Some? && res > 0 && !old(disconnecting)
      ensures View() == if viewed.Some? then Spec.RunCalls(old(View()), onRecv) else old(View())
      ensures viewed.Some? ==> ring.IsViewOf(buf.value, res, viewed.value)
      ensures ring.Valid()
      ensures ring.ids == old(ring.ids) + if buf.Some? && buf.value < ring.bufCount then [buf.value] else []
      ensures ring.provided == old(ring.provided) + if buf.Some? && buf.value < ring.bufCount then {buf.value} else {}
    {
      viewed := None;
      if buf.Some? {
        if res > 0 && !disconnecting {
          var view := ShowData(ring, buf.value, res, onRecv);
          viewed := Some(view);
        }
        ring.Return(buf.value);
      }
    }

    /** User code sees the data while the kernel cannot fill the buffer again. */
    method ShowData(ring: RingBuffer, id: nat, len: nat, onRecv: seq<Spec.Call<B>>) returns (view: (nat, nat))
      requires Spec.Core(View()) && started && ring.Valid() && id !in ring.provided
      modifies this, sendQueue
      ensures Spec.Core(View()) && Spec.CallFrame(old(View()), View())
      ensures View() == Spec.RunCalls(old(View()), onRecv) && ring.IsViewOf(id, len, view)
    {
      view := ring.ViewOf(id, len);
      RunCalls(onRecv);
    }

    /** The rest of a receive completion, once its data has been handled. */
    method AfterData(res: int, more: bool, ghost buf: Option<nat>, sqe: bool)
      requires Spec.Core(View()) && started && released == 0 && (res == -Spec.ENOBUFS ==> !more)
      requires Spec.RecvsInFlight(View()) == if more then 1 else 0
      modifies this
      ensures Spec.Ok(View()) && View() == Spec.AfterData(old(View()), Spec.Received(res, more, buf), sqe)
    {
      Spec.AfterDataKeepsOk(View(), Spec.Received(res, more, buf), sqe);
      if disconnecting {
        TryRelease();
      } else if res == 0 {
        Disconnect(true);
      } else if res == -Spec.ENOBUFS {
        RegisterRecv(sqe);
      } else if res < 0 {
        Disconnect(true);
      } else if !more {
        RegisterRecv(sqe);
      }
    }

    method OnSend(res: int, sqe: bool)
      requires Spec.Ok(View()) && cq != [] && cq[0] == Spec.Sent(res)
      modifies this, sendQueue
      ensures Spec.Ok(View()) && View() == Spec.Dispatch(old(View()), [], sqe)
      ensures !old(disconnecting) ==> Spec.SendOutcome(old(View()), View(), res, sqe)
    {
      if !disconnecting {
        Spec.OnSendOutcome(View(), [], sqe);
      }
      Spec.OnSendKeepsOk(View(), [], sqe);
      Spec.SendTaken(View(), res);
      LetBatchGo(res);
      AfterBatch(res, sqe);
    }

    method LetBatchGo(ghost res: int)
      requires cq != []
      modifies this
      ensures View() == old(View()).(cq := old(cq)[1..], inFlight := [], pendingIo := old(pendingIo) - 1,
                                     completed := if res < 0 then old(completed) else old(completed + inFlightBufs))
    {
      cq := cq[1..];
      completed := if res < 0 then completed else completed + inFlightBufs;
      inFlightBufs := [];
      pendingIo := pendingIo - 1;
    }

    /** The rest of a send completion, once its batch has been let go. */
    method AfterBatch(res: int, sqe: bool)
      requires Spec.Counted(View()) && started
      requires !disconnecting && res >= 0 ==> Spec.Queued(View().(sendQueue := Spec.MarkSent(sendQueue.View())))
      modifies this, sendQueue
      ensures View() == Spec.AfterBatch(old(View()), res, sqe)
    {
      if disconnecting {
        TryRelease();
        return;
      }
      if res < 0 {
        Disconnect(true);
        return;
      }
      sendQueue.MarkSent();
      var pending := sendQueue.Drain();
      if pending != [] {
        SendBatch(pending, sqe);
      }
    }

    method OnDisconnect(ghost res: int)
      requires Spec.Ok(View()) && cq != [] && cq[0] == Spec.Shut(res)
      modifies this
      ensures Spec.Ok(View()) && View() == Spec.Dispatch(old(View()), [], true)
      ensures released == 1 <==> Spec.InFlight(View()) == 0
    {
      Spec.OnDisconnectKeepsOk(View(), [], true);
      Spec.TakeCompletion(View());
      cq := cq[1..];
      pendingIo := pendingIo - 1;
      TryRelease();
    }
  }

  // ---------------------------------------------------------------- provided buffers

  predicate IsPowerOfTwo(v: nat) {
    v == 1 || (v > 0 && v % 2 == 0 && IsPowerOfTwo(v / 2))
  }

  /** One less than the number of bits of `v`. */
  function Log2(v: nat): nat
    requires v > 0
  {
    if v == 1 then 0 else 1 + Log2(v / 2)
  }

  /** Shifting by the logarithm is multiplying, for powers of two and only for them. */
  lemma {:induction false} Log2Exact(v: nat)
    requires v > 0
    ensures IsPowerOfTwo(v) <==> Pow2(Log2(v)) == v
  {
    if v > 1 {
      Log2Exact(v / 2);
    }
  }

  function UpTo(n: nat): (s: seq<nat>)
    ensures |s| == n && forall i :: 0 <= i < n ==> s[i] == i
  {
    if n == 0 then [] else UpTo(n - 1) + [n - 1]
  }

  lemma SlotFits(id: nat, count: nat, size: nat)
    requires id < count
    ensures id * size + size <= count * size
  {
    assert count * size == id * size + size + (count - id - 1) * size;
  }

  /**
   * The ring of provided buffers; `ids` are the ids added to it, oldest first, `provided` those the kernel may fill.
   */
  class RingBuffer {
    const bufCount: nat
    const bufSize: nat
    const shift: nat
    var ids: seq<nat>
    var available: nat
    ghost var provided: set<nat>

    ghost predicate Valid()
      reads this
    {
      bufSize == Pow2(shift) && forall id :: id in provided ==> id < bufCount && id in ids
    }

    /** The kernel picks a buffer for incoming data. */
    ghost method KernelFills(id: nat)
      requires Valid() && id in provided
      modifies this`provided
      ensures Valid() && provided == old(provided) - {id}
    {
      provided := provided - {id};
    }

    /**
     * Offset and length of data of buffer `id`: from its start, no more than `len` or the buffer holds; none for no id.
     */
    ghost predicate IsViewOf(id: nat, len: nat, region: (nat, nat)) {
      if id >= bufCount then region.1 == 0
      else
        && region.0 == id * bufSize && region.1 <= len && region.1 <= bufSize
        && (region.1 == len || region.1 == bufSize)
    }

    /** The fill loop counts in sixteen bits, up to the buffer count cut to sixteen bits. */
    constructor (bufCount: nat, bufSize: nat)
      requires IsPowerOfTwo(bufSize)
      ensures Valid() && this.bufCount == bufCount && this.bufSize == bufSize && available == bufCount
      ensures ids == UpTo(bufCount % 0x1_0000) && forall id: nat :: id in provided <==> id < bufCount % 0x1_0000
    {
      this.bufCount, this.bufSize, this.shift := bufCount, bufSize, Log2(bufSize);
      ids, available, provided := [], bufCount, {};
      new;
      Log2Exact(bufSize);
      var i := 0;
      while i < bufCount % 0x1_0000
        invariant i <= bufCount % 0x1_0000 && ids == UpTo(i) && available == bufCount
        invariant forall id: nat :: id in provided <==> id < i
        invariant forall id: nat :: id in provided ==> id in ids
      {
        ids := ids + [i];
        provided := provided + {i};
        i := i + 1;
      }
    }

    static method Create(bufCount: nat, bufSize: nat, registered: bool) returns (r: Option<RingBuffer>)
      ensures r.Some? <==> IsPowerOfTwo(bufCount) && IsPowerOfTwo(bufSize) && registered
      ensures r.Some? ==>
                fresh(r.value) && r.value.Valid() && r.value.bufCount == bufCount && r.value.bufSize == bufSize
      ensures r.Some? ==> r.value.ids == UpTo(bufCount % 0x1_0000) && r.value.available == bufCount
    {
      if !IsPowerOfTwo(bufCount) || !IsPowerOfTwo(bufSize) || !registered {
        return None;
      }
      var ring := new RingBuffer(bufCount, bufSize);
      return Some(ring);
    }

    method ViewOf(id: nat, len: nat) returns (region: (nat, nat))
      requires Valid()
      ensures IsViewOf(id, len, region) && region.0 + region.1 <= bufCount * bufSize
    {
      if id >= bufCount {
        return (0, 0);
      }
      SlotFits(id, bufCount, bufSize);
      return (id * Pow2(shift), if len <= bufSize then len else bufSize);
    }

    method Return(id: nat)
      requires Valid()
      modifies this
      ensures Valid()
      ensures ids == old(ids) + if id < bufCount then [id] else []
      ensures available == old(available) + if id < bufCount then 1 else 0
      ensures provided == old(provided) + if id < bufCount then {id} else {}
    {
      if id >= bufCount {
        return;
      }
      ids := ids + [id];
      provided := provided + {id};
      available := available + 1;
    }
  }

  /** The initial fill gives the kernel every id once, if and only if the count fits in sixteen bits. */
  lemma FillCompleteIff(bufCount: nat)
    ensures (forall id: nat :: id in UpTo(bufCount % 0x1_0000) <==> id < bufCount) <==> bufCount < 0x1_0000
  {
    var s := UpTo(bufCount % 0x1_0000);
    if bufCount < 0x1_0000 {
      forall id: nat ensures id in s <==> id < bufCount {
        if id < bufCount { assert s[id] == id; }
      }
    } else {
      var last: nat := bufCount - 1;
      assert !(last in UpTo(bufCount % 0x1_0000) <==> last < bufCount);
    }
  }

  /** Data of different buffers never overlaps. */
  lemma ViewsDisjoint(ring: RingBuffer, a: nat, b: nat, m: nat, n: nat, v: (nat, nat), w: (nat, nat))
    requires a < b < ring.bufCount && ring.IsViewOf(a, m, v) && ring.IsViewOf(b, n, w)
    ensures v.0 + v.1 <= w.0
  {
    SlotFits(a, b, ring.bufSize);
  }
}
