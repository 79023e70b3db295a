/**
 * Many sessions on one ring thread, the provided buffers they share, and an adversarial kernel that completes
 * operations in any order. Completions of one session are first in, first out; between sessions any order is possible.
 */
module SessionWorld {
  import opened Options
  import opened SessionSpec

  /** What happens to a provided buffer: the kernel fills it, user code sees it, it goes back to the ring. */
  datatype BufEvent = Taken(id: nat) | Viewed(id: nat) | Returned(id: nat)

  datatype World<B> = World(
    bufCount: nat,               // buffers have ids 0 .. bufCount-1
    ring: set<nat>,              // ids the kernel may fill
    sessions: map<nat, Session<B>>,
    keepAlive: set<nat>,         // owners held until the end of the current batch of completions
    dead: set<nat>,              // destroyed sessions
    log: seq<BufEvent>)          // history

  datatype Action<B> =
    | DoStart(sid: nat, onConnected: seq<Call<B>>, sqe: bool)
    | DoCall(sid: nat, call: Call<B>)
    | DoComplete(sid: nat, cqe: Cqe)                             // kernel
    | DoDispatch(sid: nat, onRecv: seq<Call<B>>, sqe: bool)      // oldest completion of one session
    | EndBatch                                                   // keep_alive goes out of scope
    | Destroy(sid: nat)                                          // the last reference to a session is gone

  ghost predicate Init<B>(w: World<B>) {
    && (forall id: nat :: id in w.ring <==> id < w.bufCount)
    && (forall sid :: sid in w.sessions ==> w.sessions[sid] == NewSession(w.sessions[sid].sendQueue.maxPending))
    && w.keepAlive == {} && w.dead == {} && w.log == []
  }

  predicate Enabled<B>(w: World<B>, a: Action<B>) {
    match a
    case DoStart(sid, _, _) => sid in w.sessions && !w.sessions[sid].started && sid !in w.dead
    case DoCall(sid, _) => sid in w.sessions && w.sessions[sid].started && sid !in w.dead
    case DoComplete(sid, c) =>
      && sid in w.sessions && KernelMay(w.sessions[sid], c)
      && (c.Received? && c.buf.Some? ==> c.buf.value in w.ring)
    case DoDispatch(sid, _, _) => sid in w.sessions && w.sessions[sid].cq != []
    case EndBatch => true
    case Destroy(sid) => sid in w.sessions && w.sessions[sid].started && !w.sessions[sid].selfRef && sid !in w.keepAlive
  }

  function BufOf(c: Cqe): Option<nat> {
    if c.Received? then c.buf else None
  }

  /** Dispatch: look up the owner; a completion of a dead owner is dropped, buffer and all. */
  function DispatchStep<B>(w: World<B>, sid: nat, onRecv: seq<Call<B>>, sqe: bool): World<B>
    requires sid in w.sessions && w.sessions[sid].cq != []
  {
    var s := w.sessions[sid];
    var c := s.cq[0];
    if sid in w.dead then w.(sessions := w.sessions[sid := s.(cq := s.cq[1..])])
    else
      var w' := w.(sessions := w.sessions[sid := Dispatch(s, onRecv, sqe)], keepAlive := w.keepAlive + {sid});
      if BufOf(c).None? then w'
      else
        var id := BufOf(c).value;
        w'.(ring := if id < w.bufCount then w.ring + {id} else w.ring,
            log := w.log + (if ShowsData(s, c) then [Viewed(id)] else []) + [Returned(id)])
  }

  function Step<B>(w: World<B>, a: Action<B>): World<B>
    requires Enabled(w, a)
  {
    match a
    case DoStart(sid, calls, sqe) => w.(sessions := w.sessions[sid := Start(w.sessions[sid], calls, sqe)])
    case DoCall(sid, call) => w.(sessions := w.sessions[sid := RunCall(w.sessions[sid], call)])
    case DoComplete(sid, c) =>
      var w' := w.(sessions := w.sessions[sid := Complete(w.sessions[sid], c)]);
      if BufOf(c).None? then w' else w'.(ring := w.ring - {BufOf(c).value}, log := w.log + [Taken(BufOf(c).value)])
    case DoDispatch(sid, onRecv, sqe) => DispatchStep(w, sid, onRecv, sqe)
    case EndBatch => w.(keepAlive := {})
    case Destroy(sid) => w.(dead := w.dead + {sid})
  }

  // ---------------------------------------------------------------- the life of a buffer

  datatype BufState = Free | Held(viewed: bool) | Broken

  function After(st: BufState, e: BufEvent): BufState {
    match e
    case Taken(_) => if st.Free? then Held(false) else Broken
    case Viewed(_) => if st == Held(false) then Held(true) else Broken
    case Returned(_) => if st.Held? then Free else Broken
  }

  /** Where a buffer stands after a history; `Broken` if it was ever returned twice, seen while free, or the like. */
  function Life(log: seq<BufEvent>, id: nat): BufState {
    if log == [] then Free
    else
      var st := Life(log[..|log| - 1], id);
      if log[|log| - 1].id == id then After(st, log[|log| - 1]) else st
  }

  lemma LifeAppend(log: seq<BufEvent>, e: BufEvent, id: nat)
    ensures Life(log + [e], id) == if e.id == id then After(Life(log, id), e) else Life(log, id)
  {
    assert (log + [e])[..|log|] == log;
  }

  /** Completion number `i` of session `sid` carries buffer `id`. */
  ghost predicate Carries<B>(w: World<B>, sid: nat, i: nat, id: nat) {
    sid in w.sessions && i < |w.sessions[sid].cq| && BufOf(w.sessions[sid].cq[i]) == Some(id)
  }

  /** The ids in the ring and the ids carried by completions partition all ids; histories are clean. */
  ghost predicate BufsOk<B>(w: World<B>) {
    && (forall id :: id in w.ring ==> id < w.bufCount)
    && (forall id: nat :: id < w.bufCount ==> Life(w.log, id) == if id in w.ring then Free else Held(false))
    && (forall sid: nat, i: nat, id: nat {:trigger Carries(w, sid, i, id)} :: Carries(w, sid, i, id) ==>
          id < w.bufCount && id !in w.ring)
    && (forall sid: nat, i: nat, sid': nat, i': nat, id: nat
          {:trigger Carries(w, sid, i, id), Carries(w, sid', i', id)} ::
          Carries(w, sid, i, id) && Carries(w, sid', i', id) ==> sid == sid' && i == i')
    && (forall id: nat {:trigger id in w.ring} :: id < w.bufCount && id !in w.ring ==>
          exists sid: nat, i: nat :: Carries(w, sid, i, id))
  }

  ghost predicate SessionOk<B>(w: World<B>, sid: nat)
    requires sid in w.sessions
  {
    var s := w.sessions[sid];
    && Ok(s) && (sid in w.dead ==> s.started && !s.selfRef)
    && (forall i :: 0 <= i < |s.cq| && s.cq[i].Received? && s.cq[i].res == -ENOBUFS ==> !s.cq[i].more)
  }

  ghost predicate Inv<B>(w: World<B>) {
    && BufsOk(w) && w.keepAlive !! w.dead
    && forall sid {:trigger SessionOk(w, sid)} :: sid in w.sessions ==> SessionOk(w, sid)
  }

  // ---------------------------------------------------------------- steps

  /** A step that leaves buffers, the ring and the queues of completions alone. */
  lemma QuietStep<B>(w: World<B>, w': World<B>)
    requires BufsOk(w) && w'.bufCount == w.bufCount && w'.ring == w.ring && w'.log == w.log
    requires w'.sessions.Keys == w.sessions.Keys
    requires forall sid :: sid in w.sessions ==> w'.sessions[sid].cq == w.sessions[sid].cq
    ensures BufsOk(w')
  {
    forall sid: nat, i: nat, id: nat ensures Carries(w', sid, i, id) <==> Carries(w, sid, i, id) {
    }
    forall id: nat | id < w'.bufCount && id !in w'.ring ensures exists sid: nat, i: nat :: Carries(w', sid, i, id) {
      var sid: nat, i: nat :| Carries(w, sid, i, id);
      assert Carries(w', sid, i, id);
    }
  }

  lemma StartCallKeepsInv<B>(w: World<B>, a: Action<B>)
    requires Inv(w) && Enabled(w, a) && (a.DoStart? || a.DoCall?)
    ensures Inv(Step(w, a))
  {
    var w', sid := Step(w, a), a.sid;
    assert SessionOk(w, sid);
    if a.DoStart? {
      StartKeepsOk(w.sessions[sid], a.onConnected, a.sqe);
      StartKeepsQueue(w.sessions[sid], a.onConnected, a.sqe);
    } else {
      CallKeepsOk(w.sessions[sid], a.call);
    }
    QuietStep(w, w');
    forall o | o in w'.sessions ensures SessionOk(w', o) {
      assert SessionOk(w, o);
    }
  }

  lemma StartKeepsQueue<B>(s: Session<B>, calls: seq<Call<B>>, sqe: bool)
    requires Ok(s) && !s.started
    ensures Start(s, calls, sqe).cq == s.cq
  {
    var s1 := s.(started := true, selfRef := true);
    assert Core(s1);
    CallsKeepCore(s1, calls);
  }

  /** The session that a step changes, and what it needs of the others. */
  lemma OthersStayOk<B>(w: World<B>, w': World<B>, sid: nat)
    requires Inv(w) && sid in w.sessions && w'.sessions.Keys == w.sessions.Keys && w'.dead == w.dead
    requires forall o :: o in w.sessions && o != sid ==> w'.sessions[o] == w.sessions[o]
    requires SessionOk(w', sid) && BufsOk(w') && w'.keepAlive !! w'.dead
    ensures Inv(w')
  {
    forall o | o in w'.sessions ensures SessionOk(w', o) {
      assert SessionOk(w, o);
    }
  }

  lemma TakenKeepsBufsOk<B>(w: World<B>, w': World<B>, sid: nat, c: Cqe)
    requires BufsOk(w) && Enabled(w, DoComplete(sid, c)) && w' == Step(w, DoComplete(sid, c))
    ensures BufsOk(w')
  {
    var n := |w.sessions[sid].cq|;
    assert w'.sessions[sid].cq == w.sessions[sid].cq + [c];
    forall o: nat, i: nat, id: nat
      ensures Carries(w', o, i, id) <==> Carries(w, o, i, id) || (o == sid && i == n && BufOf(c) == Some(id))
    {
    }
    if BufOf(c).Some? {
      var b := BufOf(c).value;
      forall id: nat | id < w.bufCount ensures Life(w'.log, id) == if id in w'.ring then Free else Held(false) {
        LifeAppend(w.log, Taken(b), id);
      }
    }
    forall id: nat | id < w'.bufCount && id !in w'.ring ensures exists o: nat, i: nat :: Carries(w', o, i, id) {
      if BufOf(c) == Some(id) {
        assert Carries(w', sid, n, id);
      } else {
        var o: nat, i: nat :| Carries(w, o, i, id);
        assert Carries(w', o, i, id);
      }
    }
  }

  lemma CompletedSessionOk<B>(w: World<B>, w': World<B>, sid: nat, c: Cqe)
    requires sid in w.sessions && SessionOk(w, sid) && KernelMay(w.sessions[sid], c)
    requires sid in w'.sessions && w'.sessions[sid] == Complete(w.sessions[sid], c) && w'.dead == w.dead
    ensures SessionOk(w', sid)
  {
    CompleteKeepsOk(w.sessions[sid], c);
  }

  lemma CompleteKeepsInv<B>(w: World<B>, w': World<B>, sid: nat, c: Cqe)
    requires Inv(w) && Enabled(w, DoComplete(sid, c)) && w' == Step(w, DoComplete(sid, c))
    ensures Inv(w')
  {
    assert SessionOk(w, sid);
    CompletedSessionOk(w, w', sid, c);
    TakenKeepsBufsOk(w, w', sid, c);
    OthersStayOk(w, w', sid);
  }

  /** A held buffer is seen or not, and returned. */
  lemma LifeReturned(log: seq<BufEvent>, b: nat, view: bool, id: nat)
    requires Life(log, b) == Held(false)
    ensures Life(log + (if view then [Viewed(b)] else []) + [Returned(b)], id) ==
            if id == b then Free else Life(log, id)
  {
    var mid := log + if view then [Viewed(b)] else [];
    LifeAppend(log, Viewed(b), id);
    LifeAppend(mid, Returned(b), id);
    assert view || mid == log;
  }

  /** `w'` is `w` with the oldest completion of `sid` gone and its buffer, if any, back in the ring. */
  ghost predicate ReturnStep<B>(w: World<B>, w': World<B>, sid: nat, c: Cqe, view: bool) {
    && sid in w.sessions && w.sessions[sid].cq != [] && c == w.sessions[sid].cq[0]
    && w'.bufCount == w.bufCount && w'.sessions.Keys == w.sessions.Keys
    && (forall o :: o in w.sessions ==>
          w'.sessions[o].cq == if o == sid then w.sessions[o].cq[1..] else w.sessions[o].cq)
    && (BufOf(c).None? ==> w'.ring == w.ring && w'.log == w.log)
    && (BufOf(c).Some? ==>
          && w'.ring == (if BufOf(c).value < w.bufCount then w.ring + {BufOf(c).value} else w.ring)
          && w'.log == w.log + (if view then [Viewed(BufOf(c).value)] else []) + [Returned(BufOf(c).value)])
  }

  lemma ReturnedLife<B>(w: World<B>, w': World<B>, sid: nat, c: Cqe, view: bool, id: nat)
    requires BufsOk(w) && ReturnStep(w, w', sid, c, view) && id < w.bufCount
    ensures Life(w'.log, id) == if id in w'.ring then Free else Held(false)
  {
    if BufOf(c).Some? {
      assert Carries(w, sid, 0, BufOf(c).value);
      LifeReturned(w.log, BufOf(c).value, view, id);
    }
  }

  lemma StillCarried<B>(w: World<B>, w': World<B>, sid: nat, c: Cqe, view: bool, id: nat)
    requires BufsOk(w) && ReturnStep(w, w', sid, c, view) && id < w.bufCount && id !in w'.ring
    ensures exists o: nat, i: nat :: Carries(w', o, i, id)
  {
    var o: nat, i: nat :| Carries(w, o, i, id);
    assert o != sid || i != 0;
    assert Carries(w', o, if o == sid then i - 1 else i, id);
  }

  lemma ReturnedKeepsBufsOk<B>(w: World<B>, w': World<B>, sid: nat, c: Cqe, view: bool)
    requires BufsOk(w) && ReturnStep(w, w', sid, c, view)
    ensures BufsOk(w')
  {
    forall o: nat, i: nat, id: nat
      ensures Carries(w', o, i, id) <==> Carries(w, o, if o == sid then i + 1 else i, id)
    {
    }
    if BufOf(c).Some? {
      assert Carries(w, sid, 0, BufOf(c).value);
    }
    forall id: nat | id < w.bufCount ensures Life(w'.log, id) == if id in w'.ring then Free else Held(false) {
      ReturnedLife(w, w', sid, c, view, id);
    }
    forall id: nat | id < w'.bufCount && id !in w'.ring ensures exists o: nat, i: nat :: Carries(w', o, i, id) {
      StillCarried(w, w', sid, c, view, id);
    }
  }

  lemma DispatchKeepsInv<B>(w: World<B>, sid: nat, onRecv: seq<Call<B>>, sqe: bool)
    requires Inv(w) && Enabled(w, DoDispatch(sid, onRecv, sqe))
    ensures Inv(Step(w, DoDispatch(sid, onRecv, sqe))) && sid !in w.dead
  {
    var w', s := DispatchStep(w, sid, onRecv, sqe), w.sessions[sid];
    assert SessionOk(w, sid);
    TakeCompletion(s);
    DispatchedSessionOk(w, w', sid, onRecv, sqe);
    ReturnedKeepsBufsOk(w, w', sid, s.cq[0], ShowsData(s, s.cq[0]));
    OthersStayOk(w, w', sid);
  }

  lemma DispatchedSessionOk<B>(w: World<B>, w': World<B>, sid: nat, onRecv: seq<Call<B>>, sqe: bool)
    requires sid in w.sessions && SessionOk(w, sid) && w.sessions[sid].cq != []
    requires sid in w'.sessions && w'.sessions[sid] == Dispatch(w.sessions[sid], onRecv, sqe) && w'.dead == w.dead
    requires sid !in w.dead
    ensures SessionOk(w', sid) && w'.sessions[sid].cq == w.sessions[sid].cq[1..]
  {
    DispatchKeepsOk(w.sessions[sid], onRecv, sqe);
  }

  lemma StepKeepsInv<B>(w: World<B>, a: Action<B>)
    requires Inv(w) && Enabled(w, a)
    ensures Inv(Step(w, a))
  {
    match a
    case DoStart(_, _, _) => StartCallKeepsInv(w, a);
    case DoCall(_, _) => StartCallKeepsInv(w, a);
    case DoComplete(sid, c) => CompleteKeepsInv(w, Step(w, a), sid, c);
    case DoDispatch(sid, calls, sqe) => DispatchKeepsInv(w, sid, calls, sqe);
    case EndBatch => HousekeepingKeepsInv(w, a);
    case Destroy(_) => HousekeepingKeepsInv(w, a);
  }

  lemma HousekeepingKeepsInv<B>(w: World<B>, a: Action<B>)
    requires Inv(w) && Enabled(w, a) && (a.EndBatch? || a.Destroy?)
    ensures Inv(Step(w, a))
  {
    var w' := Step(w, a);
    QuietStep(w, w');
    forall o | o in w'.sessions ensures SessionOk(w', o) {
      assert SessionOk(w, o);
    }
  }

  // ---------------------------------------------------------------- runs

  ghost predicate StepTo<B(!new)>(w: World<B>, w': World<B>) {
    exists a: Action<B> :: Enabled(w, a) && w' == Step(w, a)
  }

  /** A step that does not end the current batch of completions. */
  ghost predicate StepInBatch<B(!new)>(w: World<B>, w': World<B>) {
    exists a: Action<B> :: !a.EndBatch? && Enabled(w, a) && w' == Step(w, a)
  }

  ghost predicate IsRun<B(!new)>(trace: seq<World<B>>) {
    && |trace| > 0 && Init(trace[0])
    && forall i {:trigger trace[i]} :: 0 < i < |trace| ==> StepTo(trace[i - 1], trace[i])
  }

  lemma InitInv<B>(w: World<B>)
    requires Init(w)
    ensures Inv(w)
  {
    forall sid: nat, i: nat, id: nat ensures !Carries(w, sid, i, id) {
    }
    forall sid | sid in w.sessions ensures SessionOk(w, sid) {
    }
  }

  lemma {:induction false} RunInv<B(!new)>(trace: seq<World<B>>, i: nat)
    requires IsRun(trace) && i < |trace|
    ensures Inv(trace[i])
  {
    if i == 0 {
      InitInv(trace[0]);
    } else {
      RunInv(trace, i - 1);
      assert StepTo(trace[i - 1], trace[i]);
      var a :| Enabled(trace[i - 1], a) && trace[i] == Step(trace[i - 1], a);
      StepKeepsInv(trace[i - 1], a);
    }
  }

  /**
   * In every run: the I/O counter is the number of operations in flight; while there is one the session keeps itself
   * alive; OnDisconnected has fired at most once, and if it has, nothing is in flight.
   */
  lemma PendingIoExact<B(!new)>(trace: seq<World<B>>, i: nat, sid: nat)
    requires IsRun(trace) && i < |trace| && sid in trace[i].sessions
    ensures var s := trace[i].sessions[sid];
            && s.pendingIo == InFlight(s)
            && (InFlight(s) > 0 ==> s.selfRef && s.released == 0)
            && s.released <= 1 && (s.released == 1 ==> InFlight(s) == 0 && s.cq == [] && !s.selfRef)
            && (s.disconnecting && InFlight(s) == 0 ==> s.released == 1)
            && (s.started && !s.disconnecting ==> RecvsInFlight(s) == 1)
  {
    RunInv(trace, i);
    assert SessionOk(trace[i], sid);
    var s := trace[i].sessions[sid];
    if s.cq != [] {
      TakeCompletion(s);
    }
  }

  /**
   * In every run, a session with operations or completions outstanding has not been destroyed: no completion is
   * dropped.
   */
  lemma NoCompletionDropped<B(!new)>(trace: seq<World<B>>, i: nat, sid: nat)
    requires IsRun(trace) && i < |trace| && sid in trace[i].sessions
    requires InFlight(trace[i].sessions[sid]) > 0 || trace[i].sessions[sid].cq != []
    ensures sid !in trace[i].dead
  {
    RunInv(trace, i);
    assert SessionOk(trace[i], sid);
    if trace[i].sessions[sid].cq != [] {
      TakeCompletion(trace[i].sessions[sid]);
    }
  }

  /** In every run, a session whose completion was dispatched in this batch is not destroyed before the batch ends. */
  lemma HeldThroughBatch<B(!new)>(trace: seq<World<B>>, i: nat, j: nat, sid: nat, onRecv: seq<Call<B>>, sqe: bool)
    requires IsRun(trace) && 0 < i <= j < |trace| && sid in trace[i - 1].sessions
    requires Enabled(trace[i - 1], DoDispatch(sid, onRecv, sqe))
    requires trace[i] == Step(trace[i - 1], DoDispatch(sid, onRecv, sqe))
    requires forall k {:trigger trace[k]} :: i < k <= j ==> StepInBatch(trace[k - 1], trace[k])
    ensures sid !in trace[j].dead
  {
    RunInv(trace, i - 1);
    DispatchKeepsInv(trace[i - 1], sid, onRecv, sqe);
    HeldSince(trace, i, j);
    RunInv(trace, j);
    assert sid in trace[j].keepAlive;
  }

  lemma {:induction false} HeldSince<B(!new)>(trace: seq<World<B>>, i: nat, j: nat)
    requires i <= j < |trace| && forall k {:trigger trace[k]} :: i < k <= j ==> StepInBatch(trace[k - 1], trace[k])
    ensures trace[i].keepAlive <= trace[j].keepAlive
  {
    if i < j {
      HeldSince(trace, i, j - 1);
      assert StepInBatch(trace[j - 1], trace[j]);
      var a: Action<B> :| !a.EndBatch? && Enabled(trace[j - 1], a) && trace[j] == Step(trace[j - 1], a);
      HeldByStep(trace[j - 1], a);
    }
  }

  lemma HeldByStep<B>(w: World<B>, a: Action<B>)
    requires Enabled(w, a) && !a.EndBatch?
    ensures w.keepAlive <= Step(w, a).keepAlive
  {
  }

  /** In every run, every buffer id is either in the ring or carried by exactly one undispatched completion. */
  lemma BuffersPartitioned<B(!new)>(trace: seq<World<B>>, i: nat, id: nat)
    requires IsRun(trace) && i < |trace| && id < trace[i].bufCount
    ensures id in trace[i].ring <==> !exists sid: nat, k: nat :: Carries(trace[i], sid, k, id)
    ensures forall sid: nat, k: nat, sid': nat, k': nat ::
              Carries(trace[i], sid, k, id) && Carries(trace[i], sid', k', id) ==> sid == sid' && k == k'
  {
    RunInv(trace, i);
  }

  /**
   * In every run, a buffer is returned once per time it was filled, is seen at most once in between and never while
   * free.
   */
  lemma BufferLifeClean<B(!new)>(trace: seq<World<B>>, i: nat, id: nat, n: nat)
    requires IsRun(trace) && i < |trace| && id < trace[i].bufCount && n <= |trace[i].log|
    ensures Life(trace[i].log[..n], id) != Broken
  {
    RunInv(trace, i);
    assert Life(trace[i].log, id) != Broken;
    if Life(trace[i].log[..n], id) == Broken {
      BrokenStays(trace[i].log, id, n);
    }
  }

  lemma {:induction false} BrokenStays(log: seq<BufEvent>, id: nat, n: nat)
    requires n <= |log| && Life(log[..n], id) == Broken
    ensures Life(log, id) == Broken
  {
    if n == |log| {
      assert log[..n] == log;
    } else {
      var front := log[..|log| - 1];
      assert front[..n] == log[..n];
      BrokenStays(front, id, n);
    }
  }

  /** In every run, while a session is not disconnecting its sends complete in order, one sendmsg at a time. */
  lemma SendsInOrder<B(!new)>(trace: seq<World<B>>, i: nat, sid: nat)
    requires IsRun(trace) && i < |trace| && sid in trace[i].sessions && !trace[i].sessions[sid].disconnecting
    ensures var s := trace[i].sessions[sid];
            && s.completed + s.inFlight + s.sendQueue.pending == s.accepted
            && SendsInFlight(s) <= 1 && (s.sendQueue.registered <==> SendsInFlight(s) == 1)
            && |s.sendQueue.pending| <= s.sendQueue.maxPending
  {
    RunInv(trace, i);
    assert SessionOk(trace[i], sid);
  }
}
