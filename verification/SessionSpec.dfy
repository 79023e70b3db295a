/**
 * One session over a completion ring: what each call and each completion does, as functions on its state.
 * The state includes the session's operations that the kernel has in flight and its completions not dispatched yet.
 */
module SessionSpec {
  import opened Options

  const ENOBUFS := 105

  /** A completion of this session's receive, send or shutdown operation; `more` and `buf` are the flag bits. */
  datatype Cqe = Received(res: int, more: bool, buf: Option<nat>) | Sent(res: int) | Shut(res: int)

  /** Send buffers waiting for the next sendmsg. */
  datatype SendQueue<B> = SendQueue(pending: seq<B>, registered: bool, maxPending: nat)

  datatype Session<B> = Session(
    started: bool, disconnecting: bool, pendingIo: int, selfRef: bool,
    sendQueue: SendQueue<B>, inFlight: seq<B>,
    // the kernel's side: operations without a final completion yet, and completions in order
    recvOps: nat, sendOps: nat, shutOps: nat, cq: seq<Cqe>,
    // history: buffers accepted by Send, buffers sent, calls of OnDisconnected
    accepted: seq<B>, completed: seq<B>, released: nat)

  /**
   * A call that user code makes from a callback. `sqe` says whether a submission entry is available if the call needs
   * one; `overflow` is what the overflow callback does if it is invoked.
   */
  datatype Call<B> = CallSend(buf: B, sqe: bool, overflow: seq<Call<B>>) | CallDisconnect

  function NewSession<B>(maxPending: nat): Session<B> {
    Session(false, false, 0, false, SendQueue([], false, maxPending), [], 0, 0, 0, [], [], [], 0)
  }

  // ---------------------------------------------------------------- SendQueue

  datatype PushResult<B> = PushResult(queue: SendQueue<B>, needsRegister: bool, overflowed: bool)

  function Push<B>(q: SendQueue<B>, buf: B): PushResult<B> {
    if |q.pending| >= q.maxPending then PushResult(q, false, true)
    else PushResult(q.(pending := q.pending + [buf], registered := true), !q.registered, false)
  }

  function MarkSent<B>(q: SendQueue<B>): SendQueue<B> {
    if q.pending == [] then q.(registered := false) else q
  }

  // ---------------------------------------------------------------- calls

  /** `sqe` false is the branch that could not submit the shutdown and releases the session at once. */
  function Disconnect<B>(s: Session<B>, sqe: bool): Session<B> {
    if s.disconnecting then s
    else if !sqe then TryRelease(s.(disconnecting := true, pendingIo := 0))
    else s.(disconnecting := true, pendingIo := s.pendingIo + 1, shutOps := s.shutOps + 1)
  }

  function TryRelease<B>(s: Session<B>): Session<B> {
    if s.pendingIo > 0 then s else s.(released := s.released + 1, selfRef := false)
  }

  function RegisterRecv<B>(s: Session<B>, sqe: bool): Session<B> {
    if s.disconnecting then s
    else if !sqe then Disconnect(s, true)
    else s.(pendingIo := s.pendingIo + 1, recvOps := s.recvOps + 1)
  }

  function SendBatch<B>(s: Session<B>, bufs: seq<B>, sqe: bool): Session<B> {
    if s.disconnecting || bufs == [] then s
    else if !sqe then Disconnect(s.(inFlight := []), true)
    else s.(inFlight := bufs, pendingIo := s.pendingIo + 1, sendOps := s.sendOps + 1)
  }

  function DrainAndSend<B>(s: Session<B>, sqe: bool): Session<B> {
    SendBatch(s.(sendQueue := s.sendQueue.(pending := [])), s.sendQueue.pending, sqe)
  }

  function Send<B>(s: Session<B>, buf: B, sqe: bool, overflow: seq<Call<B>>): Session<B>
    decreases overflow, 1
  {
    if s.disconnecting then s
    else
      var r := Push(s.sendQueue, buf);
      if r.overflowed then Disconnect(RunCalls(s, overflow), true)
      else
        var s' := s.(sendQueue := r.queue, accepted := s.accepted + [buf]);
        if r.needsRegister then DrainAndSend(s', sqe) else s'
  }

  function RunCall<B>(s: Session<B>, c: Call<B>): Session<B>
    decreases c, 0
  {
    match c
    case CallSend(buf, sqe, overflow) => Send(s, buf, sqe, overflow)
    case CallDisconnect => Disconnect(s, true)
  }

  function RunCalls<B>(s: Session<B>, calls: seq<Call<B>>): Session<B>
    decreases calls, 0
  {
    if calls == [] then s else RunCalls(RunCall(s, calls[0]), calls[1..])
  }

  /** `onConnected` is what the connected callbacks do before the first receive is registered. */
  function Start<B>(s: Session<B>, onConnected: seq<Call<B>>, sqe: bool): Session<B> {
    RegisterRecv(RunCalls(s.(started := true, selfRef := true), onConnected), sqe)
  }

  // ---------------------------------------------------------------- completions

  /** Whether the data of a receive completion is shown to user code before its buffer goes back. */
  predicate ShowsData<B>(s: Session<B>, c: Cqe) {
    c.Received? && c.buf.Some? && c.res > 0 && !s.disconnecting
  }

  function OnRecv<B>(s: Session<B>, c: Cqe, onRecv: seq<Call<B>>, sqe: bool): Session<B>
    requires c.Received?
  {
    var s1 := if c.more then s else s.(pendingIo := s.pendingIo - 1);
    AfterData(if ShowsData(s, c) then RunCalls(s1, onRecv) else s1, c, sqe)
  }

  /** The rest of a receive completion, once its data has been handled. */
  function AfterData<B>(s: Session<B>, c: Cqe, sqe: bool): Session<B>
    requires c.Received?
  {
    if s.disconnecting then TryRelease(s)
    else if c.res == 0 then Disconnect(s, true)
    else if c.res == -ENOBUFS then RegisterRecv(s, sqe)
    else if c.res < 0 then Disconnect(s, true)
    else if !c.more then RegisterRecv(s, sqe)
    else s
  }

  /** A sendmsg delivers the whole batch or fails. */
  function OnSend<B>(s: Session<B>, res: int, sqe: bool): Session<B> {
    AfterBatch(s.(inFlight := [], pendingIo := s.pendingIo - 1,
                  completed := if res < 0 then s.completed else s.completed + s.inFlight), res, sqe)
  }

  /** The rest of a send completion, once its batch has been let go. */
  function AfterBatch<B>(s: Session<B>, res: int, sqe: bool): Session<B> {
    if s.disconnecting then TryRelease(s)
    else if res < 0 then Disconnect(s, true)
    else
      var q := MarkSent(s.sendQueue);
      SendBatch(s.(sendQueue := q.(pending := [])), q.pending, sqe)
  }

  function OnDisconnect<B>(s: Session<B>): Session<B> {
    TryRelease(s.(pendingIo := s.pendingIo - 1))
  }

  /** Dispatches the oldest completion. */
  function Dispatch<B>(s: Session<B>, onRecv: seq<Call<B>>, sqe: bool): Session<B>
    requires s.cq != []
  {
    var c, s' := s.cq[0], s.(cq := s.cq[1..]);
    match c
    case Received(_, _, _) => OnRecv(s', c, onRecv, sqe)
    case Sent(res) => OnSend(s', res, sqe)
    case Shut(_) => OnDisconnect(s')
  }

  // ---------------------------------------------------------------- the kernel

  /** Data comes with a buffer; running out of buffers ends the multishot receive and carries none. */
  predicate KernelMay<B>(s: Session<B>, c: Cqe) {
    match c
    case Received(res, more, buf) =>
      s.recvOps > 0 && (res > 0 ==> buf.Some?) && (res == -ENOBUFS ==> !more && buf.None?)
    case Sent(_) => s.sendOps > 0
    case Shut(_) => s.shutOps > 0
  }

  function Complete<B>(s: Session<B>, c: Cqe): Session<B>
    requires KernelMay(s, c)
  {
    var s' := s.(cq := s.cq + [c]);
    match c
    case Received(_, more, _) => if more then s' else s'.(recvOps := s.recvOps - 1)
    case Sent(_) => s'.(sendOps := s.sendOps - 1)
    case Shut(_) => s'.(shutOps := s.shutOps - 1)
  }

  // ---------------------------------------------------------------- operations in flight

  /** Final receive completions in the queue. */
  function RecvEnds(cq: seq<Cqe>): nat {
    if cq == [] then 0 else RecvEnds(cq[1..]) + if cq[0].Received? && !cq[0].more then 1 else 0
  }

  function SendEnds(cq: seq<Cqe>): nat {
    if cq == [] then 0 else SendEnds(cq[1..]) + if cq[0].Sent? then 1 else 0
  }

  function ShutEnds(cq: seq<Cqe>): nat {
    if cq == [] then 0 else ShutEnds(cq[1..]) + if cq[0].Shut? then 1 else 0
  }

  /** Operations whose final completion has not been dispatched. */
  function RecvsInFlight<B>(s: Session<B>): nat { s.recvOps + RecvEnds(s.cq) }
  function SendsInFlight<B>(s: Session<B>): nat { s.sendOps + SendEnds(s.cq) }
  function ShutsInFlight<B>(s: Session<B>): nat { s.shutOps + ShutEnds(s.cq) }

  function InFlight<B>(s: Session<B>): nat { RecvsInFlight(s) + SendsInFlight(s) + ShutsInFlight(s) }

  lemma {:induction false} EndsAppend(cq: seq<Cqe>, c: Cqe)
    ensures RecvEnds(cq + [c]) == RecvEnds(cq) + if c.Received? && !c.more then 1 else 0
    ensures SendEnds(cq + [c]) == SendEnds(cq) + if c.Sent? then 1 else 0
    ensures ShutEnds(cq + [c]) == ShutEnds(cq) + if c.Shut? then 1 else 0
  {
    if cq == [] {
      assert cq + [c] == [c];
    } else {
      assert (cq + [c])[1..] == cq[1..] + [c];
      EndsAppend(cq[1..], c);
    }
  }

  /** A receive completion that announces more is followed by a final one, now or later. */
  ghost predicate MoreFollows<B>(s: Session<B>) {
    forall i :: 0 <= i < |s.cq| && s.cq[i].Received? && s.cq[i].more ==> s.recvOps + RecvEnds(s.cq[i + 1..]) >= 1
  }

  // ---------------------------------------------------------------- the invariant

  /** Sends while the session is not disconnecting: in order, one batch at a time. */
  ghost predicate SendsOk<B>(s: Session<B>) {
    && (s.sendQueue.registered <==> SendsInFlight(s) == 1)
    && (SendsInFlight(s) == 0 ==> s.inFlight == [] && s.sendQueue.pending == [])
    && (SendsInFlight(s) == 1 ==> s.inFlight != [])
    && s.completed + s.inFlight + s.sendQueue.pending == s.accepted
  }

  /** Operations are counted exactly, and the session owns itself until it is released, once, with none left. */
  ghost predicate Counted<B>(s: Session<B>) {
    && s.pendingIo == InFlight(s)
    && RecvsInFlight(s) <= 1 && SendsInFlight(s) <= 1 && ShutsInFlight(s) <= 1
    && MoreFollows(s)
    && s.released <= 1 && (s.selfRef <==> s.started && s.released == 0)
    && (s.released == 1 ==> s.disconnecting && s.pendingIo == 0)
    && (!s.disconnecting ==> ShutsInFlight(s) == 0)
    && |s.sendQueue.pending| <= s.sendQueue.maxPending
  }

  /** What holds even in the middle of a handler. */
  ghost predicate Core<B>(s: Session<B>) { Counted(s) && (!s.disconnecting ==> SendsOk(s)) }

  /** Nothing is being sent; the accepted buffers not sent yet have just been taken off the queue. */
  ghost predicate Drained<B>(s: Session<B>, bufs: seq<B>) {
    && Counted(s) && !s.disconnecting && SendsInFlight(s) == 0
    && s.inFlight == [] && s.sendQueue.pending == [] && (s.sendQueue.registered <==> bufs != [])
    && s.completed + bufs == s.accepted
  }

  /** Nothing is being sent; the accepted buffers not sent yet are in the queue. */
  ghost predicate Queued<B>(s: Session<B>) {
    Drained(s.(sendQueue := s.sendQueue.(pending := [])), s.sendQueue.pending)
  }

  /** What holds between handlers: also, a session that is going down waits for something or has been released. */
  ghost predicate Ok<B>(s: Session<B>) {
    && Core(s)
    && (s.disconnecting && s.pendingIo == 0 ==> s.released == 1)
    && (s.started && !s.disconnecting ==> RecvsInFlight(s) == 1)
    && (!s.started ==> !s.disconnecting && s.pendingIo == 0)
  }

  // ---------------------------------------------------------------- calls keep it

  /** What a call from user code leaves alone. */
  ghost predicate CallFrame<B>(s: Session<B>, s': Session<B>) {
    && s'.started == s.started && s'.selfRef == s.selfRef && s'.released == s.released
    && s'.cq == s.cq && s'.recvOps == s.recvOps && s'.sendQueue.maxPending == s.sendQueue.maxPending
    && (s.disconnecting ==> s' == s)
    && (s'.disconnecting && !s.disconnecting ==> s'.pendingIo > 0)
  }

  lemma DisconnectKeepsCore<B>(s: Session<B>)
    requires Counted(s) && s.started
    ensures Core(Disconnect(s, true)) && CallFrame(s, Disconnect(s, true)) && Disconnect(s, true).disconnecting
  {
  }

  /** A batch goes to the kernel, or the session goes down. */
  lemma BatchKeepsCore<B>(s: Session<B>, bufs: seq<B>, sqe: bool)
    requires s.started && if s.disconnecting then Core(s) else Drained(s, bufs)
    ensures Core(SendBatch(s, bufs, sqe)) && CallFrame(s, SendBatch(s, bufs, sqe))
  {
    if !s.disconnecting && bufs != [] && !sqe {
      DisconnectKeepsCore(s.(inFlight := []));
    }
  }

  /** A first push leaves everything unsent in the queue. */
  lemma FirstPush<B>(s: Session<B>, buf: B)
    requires Core(s) && !s.disconnecting && Push(s.sendQueue, buf).needsRegister
    ensures Queued(s.(sendQueue := Push(s.sendQueue, buf).queue, accepted := s.accepted + [buf]))
  {
    assert s.completed + s.inFlight + s.sendQueue.pending == s.completed;
  }

  lemma SendKeepsCore<B>(s: Session<B>, buf: B, sqe: bool, overflow: seq<Call<B>>)
    requires Core(s) && s.started
    ensures Core(Send(s, buf, sqe, overflow)) && CallFrame(s, Send(s, buf, sqe, overflow))
    decreases overflow, 1
  {
    if !s.disconnecting {
      var r := Push(s.sendQueue, buf);
      if r.overflowed {
        CallsKeepCore(s, overflow);
        DisconnectKeepsCore(RunCalls(s, overflow));
      } else if r.needsRegister {
        var s' := s.(sendQueue := r.queue, accepted := s.accepted + [buf]);
        FirstPush(s, buf);
        BatchKeepsCore(s'.(sendQueue := r.queue.(pending := [])), r.queue.pending, sqe);
      }
    }
  }

  lemma CallKeepsCore<B>(s: Session<B>, c: Call<B>)
    requires Core(s) && s.started
    ensures Core(RunCall(s, c)) && CallFrame(s, RunCall(s, c))
    decreases c, 0
  {
    match c
    case CallSend(buf, sqe, overflow) => SendKeepsCore(s, buf, sqe, overflow);
    case CallDisconnect => DisconnectKeepsCore(s);
  }

  /** Whatever a callback calls, in whatever order, nested in overflow callbacks or not. */
  lemma {:induction false} CallsKeepCore<B>(s: Session<B>, calls: seq<Call<B>>)
    requires Core(s) && s.started
    ensures Core(RunCalls(s, calls)) && CallFrame(s, RunCalls(s, calls))
    decreases calls, 0
  {
    if calls != [] {
      CallKeepsCore(s, calls[0]);
      CallsKeepCore(RunCall(s, calls[0]), calls[1..]);
    }
  }

  /** Once a session is disconnecting, calls do nothing; so the callbacks of its release cannot disturb it. */
  lemma CallsAfterDisconnect<B>(s: Session<B>, calls: seq<Call<B>>)
    requires Core(s) && s.started && s.disconnecting
    ensures RunCalls(s, calls) == s
  {
    CallsKeepCore(s, calls);
  }

  lemma RegisterRecvKeepsOk<B>(s: Session<B>, sqe: bool)
    requires Core(s) && s.started && RecvsInFlight(s) == 0 && (s.disconnecting ==> s.pendingIo > 0)
    ensures Ok(RegisterRecv(s, sqe))
  {
  }

  /** Start leaves a session that receives, or is going down because a callback or a full ring said so. */
  lemma StartKeepsOk<B>(s: Session<B>, onConnected: seq<Call<B>>, sqe: bool)
    requires Ok(s) && !s.started
    ensures Ok(Start(s, onConnected, sqe))
  {
    var s1 := s.(started := true, selfRef := true);
    assert Core(s1);
    CallsKeepCore(s1, onConnected);
    RegisterRecvKeepsOk(RunCalls(s1, onConnected), sqe);
  }

  lemma CallKeepsOk<B>(s: Session<B>, c: Call<B>)
    requires Ok(s) && s.started
    ensures Ok(RunCall(s, c)) && CallFrame(s, RunCall(s, c))
  {
    CallKeepsCore(s, c);
  }

  // ---------------------------------------------------------------- completions keep it

  lemma CompleteKeepsMore<B>(s: Session<B>, c: Cqe)
    requires MoreFollows(s) && KernelMay(s, c)
    ensures MoreFollows(Complete(s, c))
  {
    var s' := Complete(s, c);
    forall i | 0 <= i < |s'.cq| && s'.cq[i].Received? && s'.cq[i].more
      ensures s'.recvOps + RecvEnds(s'.cq[i + 1..]) >= 1
    {
      if i < |s.cq| {
        assert s.cq[i] == s'.cq[i];
        assert s'.cq[i + 1..] == s.cq[i + 1..] + [c];
        EndsAppend(s.cq[i + 1..], c);
      }
    }
  }

  lemma CompleteKeepsOk<B>(s: Session<B>, c: Cqe)
    requires Ok(s) && KernelMay(s, c)
    ensures Ok(Complete(s, c)) && InFlight(Complete(s, c)) == InFlight(s)
  {
    EndsAppend(s.cq, c);
    CompleteKeepsMore(s, c);
  }

  /** The state in which a handler starts: its completion is off the queue, its operation no longer counted. */
  lemma TakeCompletion<B>(s: Session<B>)
    requires Ok(s) && s.cq != []
    ensures var c, s' := s.cq[0], s.(cq := s.cq[1..]);
            && MoreFollows(s') && s.started && s.selfRef && s.pendingIo > 0 && s.released == 0
            && (c.Received? ==> RecvsInFlight(s') == RecvsInFlight(s) - if c.more then 0 else 1)
            && (c.Sent? ==> SendsInFlight(s') == SendsInFlight(s) - 1)
            && (c.Shut? ==> ShutsInFlight(s') == ShutsInFlight(s) - 1 && s.disconnecting)
            && (c.Received? ==> RecvsInFlight(s) == 1)
  {
  }

  lemma AfterDataKeepsOk<B>(s: Session<B>, c: Cqe, sqe: bool)
    requires Core(s) && s.started && s.released == 0 && c.Received?
    requires RecvsInFlight(s) == (if c.more then 1 else 0) && (c.res == -ENOBUFS ==> !c.more)
    ensures Ok(AfterData(s, c, sqe)) && AfterData(s, c, sqe).cq == s.cq
  {
  }

  /** The state in which the data of a receive completion is handled. */
  lemma RecvTaken<B>(s: Session<B>)
    requires Ok(s) && s.cq != [] && s.cq[0].Received?
    ensures var s' := s.(cq := s.cq[1..], pendingIo := s.pendingIo - if s.cq[0].more then 0 else 1);
            Core(s') && s'.started && s'.released == 0 && RecvsInFlight(s') == if s.cq[0].more then 1 else 0
  {
    TakeCompletion(s);
  }

  /** A receive completion, step by step. */
  lemma RecvSteps<B>(s: Session<B>, s1: Session<B>, s2: Session<B>, onRecv: seq<Call<B>>, sqe: bool)
    requires Ok(s) && s.cq != [] && s.cq[0].Received?
    requires s1 == s.(cq := s.cq[1..], pendingIo := s.pendingIo - if s.cq[0].more then 0 else 1)
    requires s2 == if ShowsData(s, s.cq[0]) then RunCalls(s1, onRecv) else s1
    ensures Core(s2) && s2.started && s2.released == 0 && RecvsInFlight(s2) == if s.cq[0].more then 1 else 0
    ensures s2.cq == s.cq[1..] && Dispatch(s, onRecv, sqe) == AfterData(s2, s.cq[0], sqe)
  {
    RecvTaken(s);
    CallsKeepCore(s1, onRecv);
  }

  lemma OnRecvKeepsOk<B>(s: Session<B>, onRecv: seq<Call<B>>, sqe: bool)
    requires Ok(s) && s.cq != [] && s.cq[0].Received?
    requires s.cq[0].res == -ENOBUFS ==> !s.cq[0].more
    ensures Ok(Dispatch(s, onRecv, sqe)) && Dispatch(s, onRecv, sqe).cq == s.cq[1..]
  {
    var s1 := s.(cq := s.cq[1..], pendingIo := s.pendingIo - if s.cq[0].more then 0 else 1);
    var s2 := if ShowsData(s, s.cq[0]) then RunCalls(s1, onRecv) else s1;
    RecvSteps(s, s1, s2, onRecv, sqe);
    AfterDataKeepsOk(s2, s.cq[0], sqe);
  }

  /** The state after a send completion: what is queued by now is what has not been sent. */
  lemma SendTaken<B>(s: Session<B>, res: int)
    requires Ok(s) && s.cq != [] && s.cq[0] == Sent(res)
    ensures var s' := s.(cq := s.cq[1..], inFlight := [], pendingIo := s.pendingIo - 1,
                         completed := if res < 0 then s.completed else s.completed + s.inFlight);
            && Counted(s') && s'.started && s'.released == 0
            && (!s.disconnecting && res >= 0 ==> Queued(s'.(sendQueue := MarkSent(s.sendQueue))))
  {
    TakeCompletion(s);
  }

  lemma OnSendKeepsOk<B>(s: Session<B>, onRecv: seq<Call<B>>, sqe: bool)
    requires Ok(s) && s.cq != [] && s.cq[0].Sent?
    ensures Ok(Dispatch(s, onRecv, sqe)) && Dispatch(s, onRecv, sqe).cq == s.cq[1..]
  {
    TakeCompletion(s);
    SendTaken(s, s.cq[0].res);
  }

  lemma OnDisconnectKeepsOk<B>(s: Session<B>, onRecv: seq<Call<B>>, sqe: bool)
    requires Ok(s) && s.cq != [] && s.cq[0].Shut?
    ensures Ok(Dispatch(s, onRecv, sqe)) && Dispatch(s, onRecv, sqe).cq == s.cq[1..]
  {
    TakeCompletion(s);
  }

  lemma DispatchKeepsOk<B>(s: Session<B>, onRecv: seq<Call<B>>, sqe: bool)
    requires Ok(s) && s.cq != [] && (s.cq[0].Received? && s.cq[0].res == -ENOBUFS ==> !s.cq[0].more)
    ensures Ok(Dispatch(s, onRecv, sqe)) && Dispatch(s, onRecv, sqe).cq == s.cq[1..]
  {
    match s.cq[0]
    case Received(_, _, _) => OnRecvKeepsOk(s, onRecv, sqe);
    case Sent(_) => OnSendKeepsOk(s, onRecv, sqe);
    case Shut(_) => OnDisconnectKeepsOk(s, onRecv, sqe);
  }

  /** A closed peer, a failed receive or a failed send takes the session down. */
  lemma ErrorsDisconnect<B>(s: Session<B>, onRecv: seq<Call<B>>, sqe: bool)
    requires Ok(s) && s.cq != [] && (s.cq[0].Received? || s.cq[0].Sent?)
    requires s.cq[0].Received? ==> s.cq[0].res <= 0 && s.cq[0].res != -ENOBUFS
    requires s.cq[0].Sent? ==> s.cq[0].res < 0
    ensures Dispatch(s, onRecv, sqe).disconnecting
  {
  }

  // ---------------------------------------------------------------- what becomes of a session

  /** A session that stays up, with one more receive in flight. */
  function Receiving<B>(s: Session<B>): Session<B> {
    s.(pendingIo := s.pendingIo + 1, recvOps := s.recvOps + 1)
  }

  /**
   * What a receive completion leads to: data is shown first, then the session goes down if the callback said so, the
   * peer closed or the receive failed, or it ended and cannot be registered again. Otherwise it is as the callback
   * left it, with the receive in flight. Running out of buffers is no failure.
   */
  ghost predicate RecvOutcome<B>(s: Session<B>, s': Session<B>, onRecv: seq<Call<B>>, sqe: bool)
    requires s.cq != [] && s.cq[0].Received?
  {
    var Received(res, more, buf) := s.cq[0];
    var taken := s.(cq := s.cq[1..], pendingIo := if more then s.pendingIo else s.pendingIo - 1);
    var shown := if buf.Some? && res > 0 then RunCalls(taken, onRecv) else taken;
    && (s'.disconnecting <==> shown.disconnecting || (res <= 0 && res != -105) || (!more && !sqe))
    && (!s'.disconnecting ==> RecvsInFlight(s') == 1 && s' == if more then shown else Receiving(shown))
    && (s'.disconnecting && !shown.disconnecting ==> ShutsInFlight(s') == 1)
    && s'.accepted == shown.accepted && s'.completed == shown.completed
  }

  lemma AfterDataOutcome<B>(s: Session<B>, c: Cqe, sqe: bool)
    requires Core(s) && s.started && c.Received? && (c.res == -ENOBUFS ==> !c.more)
    requires RecvsInFlight(s) == if c.more then 1 else 0
    ensures var s' := AfterData(s, c, sqe);
            && (s'.disconnecting <==> s.disconnecting || (c.res <= 0 && c.res != -105) || (!c.more && !sqe))
            && (!s'.disconnecting ==> RecvsInFlight(s') == 1 && s' == if c.more then s else Receiving(s))
            && (s'.disconnecting && !s.disconnecting ==> ShutsInFlight(s') == 1)
            && s'.accepted == s.accepted && s'.completed == s.completed
  {
  }

  lemma OnRecvOutcome<B>(s: Session<B>, onRecv: seq<Call<B>>, sqe: bool)
    requires Ok(s) && !s.disconnecting && s.cq != [] && s.cq[0].Received?
    requires s.cq[0].res == -ENOBUFS ==> !s.cq[0].more
    ensures RecvOutcome(s, Dispatch(s, onRecv, sqe), onRecv, sqe)
  {
    var Received(res, more, buf) := s.cq[0];
    var taken := s.(cq := s.cq[1..], pendingIo := if more then s.pendingIo else s.pendingIo - 1);
    var shown := if buf.Some? && res > 0 then RunCalls(taken, onRecv) else taken;
    RecvSteps(s, taken, shown, onRecv, sqe);
    AfterDataOutcome(shown, s.cq[0], sqe);
  }

  /**
   * What a send completion leads to: the session goes down if the send failed or the queued buffers cannot be
   * submitted. Otherwise the batch counts as sent and exactly the queued buffers are the next one, if there are any.
   */
  ghost predicate SendOutcome<B>(s: Session<B>, s': Session<B>, res: int, sqe: bool) {
    && (s'.disconnecting <==> res < 0 || (s.sendQueue.pending != [] && !sqe))
    && s'.accepted == s.accepted && s'.completed == s.completed + (if res < 0 then [] else s.inFlight)
    && (!s'.disconnecting ==>
          && s'.inFlight == s.sendQueue.pending && s'.sendQueue.pending == []
          && SendsInFlight(s') == (if s.sendQueue.pending != [] then 1 else 0)
          && RecvsInFlight(s') == RecvsInFlight(s))
    && (s'.disconnecting ==> ShutsInFlight(s') == 1)
  }

  lemma OnSendOutcome<B>(s: Session<B>, onRecv: seq<Call<B>>, sqe: bool)
    requires Ok(s) && !s.disconnecting && s.cq != [] && s.cq[0].Sent?
    ensures SendOutcome(s, Dispatch(s, onRecv, sqe), s.cq[0].res, sqe)
  {
    TakeCompletion(s);
    SendTaken(s, s.cq[0].res);
  }

  /** Going down, a session only waits: it is released by the completion that leaves nothing in flight. */
  lemma GoingDownOutcome<B>(s: Session<B>, onRecv: seq<Call<B>>, sqe: bool)
    requires Ok(s) && s.disconnecting && s.cq != []
    ensures var s', final := Dispatch(s, onRecv, sqe), !(s.cq[0].Received? && s.cq[0].more);
            && s'.disconnecting && InFlight(s') == InFlight(s) - (if final then 1 else 0)
            && (s'.released == 1 <==> InFlight(s) == 1 && final)
            && s'.accepted == s.accepted && RecvsInFlight(s') <= RecvsInFlight(s)
  {
    TakeCompletion(s);
    if s.cq[0].Received? && s.cq[0].more {
      assert s.recvOps + RecvEnds(s.cq[1..]) >= 1;
    }
  }

  /** Start: the session receives unless a connected callback took it down or no entry was available. */
  lemma StartOutcome<B>(s: Session<B>, onConnected: seq<Call<B>>, sqe: bool)
    requires Ok(s) && !s.started
    ensures var s', up := Start(s, onConnected, sqe), RunCalls(s.(started := true, selfRef := true), onConnected);
            && (s'.disconnecting <==> up.disconnecting || !sqe)
            && (!s'.disconnecting ==> RecvsInFlight(s') == 1 && s' == Receiving(up))
            && (s'.disconnecting && !up.disconnecting ==> ShutsInFlight(s') == 1)
  {
    var s1 := s.(started := true, selfRef := true);
    assert Core(s1);
    CallsKeepCore(s1, onConnected);
  }

  /**
   * What Send leads to: a full queue, or no entry for the first buffer, takes the session down; the buffer is accepted
   * exactly if the queue was not full. It goes out at once if nothing is being sent, else it waits last in the queue.
   */
  ghost predicate SendCallOutcome<B>(s: Session<B>, s': Session<B>, buf: B, sqe: bool) {
    var full, idle := |s.sendQueue.pending| >= s.sendQueue.maxPending, SendsInFlight(s) == 0;
    && (s'.disconnecting <==> full || (idle && !sqe))
    && s'.accepted == s.accepted + (if full then [] else [buf]) && s'.completed == s.completed
    && (!s'.disconnecting ==>
          && SendsInFlight(s') == 1 && s'.inFlight == (if idle then [buf] else s.inFlight)
          && s'.sendQueue.pending == if idle then [] else s.sendQueue.pending + [buf])
    && (s'.disconnecting ==> ShutsInFlight(s') == 1)
  }

  lemma SendCallLeadsTo<B>(s: Session<B>, buf: B, sqe: bool, overflow: seq<Call<B>>)
    requires Core(s) && s.started && !s.disconnecting
    ensures SendCallOutcome(s, Send(s, buf, sqe, overflow), buf, sqe)
  {
    if |s.sendQueue.pending| >= s.sendQueue.maxPending {
      FullAcceptsNothing(s, overflow);
      CallsKeepCore(s, overflow);
    }
  }

  /** A callback's calls take effect one after the other; the first Disconnect among them takes the session down. */
  lemma {:induction false} CallsInTurn<B>(s: Session<B>, before: seq<Call<B>>, c: Call<B>, after: seq<Call<B>>)
    requires Core(s) && s.started
    ensures RunCalls(s, before + [c] + after) == RunCalls(RunCall(RunCalls(s, before), c), after)
    ensures c.CallDisconnect? ==> RunCalls(s, before + [c] + after).disconnecting
    decreases before
  {
    var all := before + [c] + after;
    if before == [] {
      assert all[0] == c && all[1..] == after;
      CallKeepsCore(s, c);
      CallsKeepCore(RunCall(s, c), after);
    } else {
      assert all[0] == before[0] && all[1..] == before[1..] + [c] + after;
      CallKeepsCore(s, before[0]);
      CallsInTurn(RunCall(s, before[0]), before[1..], c, after);
    }
  }

  /** While the queue is full, an overflow callback cannot get anything accepted, however it nests. */
  lemma {:induction false} FullAcceptsNothing<B>(s: Session<B>, calls: seq<Call<B>>)
    requires Core(s) && s.started && (s.disconnecting || |s.sendQueue.pending| >= s.sendQueue.maxPending)
    requires s.disconnecting ==> ShutsInFlight(s) == 1
    ensures var s' := RunCalls(s, calls);
            && s'.accepted == s.accepted && s'.completed == s.completed
            && (s'.disconnecting ==> ShutsInFlight(s') == 1) && (!s'.disconnecting ==> s' == s)
    decreases calls, 0
  {
    if calls != [] {
      FullCallAcceptsNothing(s, calls[0]);
      CallKeepsCore(s, calls[0]);
      FullAcceptsNothing(RunCall(s, calls[0]), calls[1..]);
    }
  }

  lemma FullCallAcceptsNothing<B>(s: Session<B>, c: Call<B>)
    requires Core(s) && s.started && (s.disconnecting || |s.sendQueue.pending| >= s.sendQueue.maxPending)
    requires s.disconnecting ==> ShutsInFlight(s) == 1
    ensures var s' := RunCall(s, c);
            && s'.accepted == s.accepted && s'.completed == s.completed && s'.disconnecting && ShutsInFlight(s') == 1
    decreases c, 0
  {
    if c.CallSend? && !s.disconnecting {
      FullAcceptsNothing(s, c.overflow);
      CallsKeepCore(s, c.overflow);
      assert RunCall(s, c) == Send(s, c.buf, c.sqe, c.overflow);
    }
  }

  // ---------------------------------------------------------------- the forced release

  /** The operations of a session are counted, and it lives while there is one. */
  predicate Safe<B>(s: Session<B>) { s.pendingIo == InFlight(s) && (InFlight(s) > 0 ==> s.selfRef) }

  /** When no submission entry is left, Disconnect releases the session at once: safe exactly if nothing was counted. */
  lemma ForcedReleaseSafeIff<B>(s: Session<B>)
    requires Core(s) && s.started && !s.disconnecting
    ensures Safe(Disconnect(s, false)) <==> s.pendingIo == 0
  {
  }

  /** Between handlers it never is: the receive is in flight. */
  lemma ForcedReleaseNeverSafe<B>(s: Session<B>)
    requires Ok(s) && s.started && !s.disconnecting
    ensures !Safe(Disconnect(s, false))
  {
  }

  /** When that receive ends, the session is released a second time. */
  lemma ForcedReleaseTwice<B>(s: Session<B>, c: Cqe, onRecv: seq<Call<B>>, sqe: bool)
    requires Ok(s) && s.started && !s.disconnecting && s.cq == [] && SendsInFlight(s) == 0
    requires KernelMay(s, c) && c.Received? && !c.more
    ensures KernelMay(Disconnect(s, false), c)
    ensures Dispatch(Complete(Disconnect(s, false), c), onRecv, sqe).released == 2
  {
  }

  /**
   * A session whose callbacks do nothing has its receive in flight once started, so a forced release leaves it
   * ownerless.
   */
  lemma ForcedReleaseExample<B>(s: Session<B>, none: seq<Call<B>>, maxPending: nat)
    requires |none| == 0 && s == Start(NewSession(maxPending), none, true)
    ensures var s' := Disconnect(s, false); !s'.selfRef && s'.pendingIo == 0 && InFlight(s') == 1
  {
  }
}
