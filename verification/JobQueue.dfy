/**
 * Serialized job queues that hand one execution token around through a global queue. Any number of queues and
 * threads; every atomic access and every locked region is one step.
 */
module JobQueue {

  /** One JobQueue. `pushed` and `executed` are history: jobs in push_back order and in order of execution. */
  datatype Queue<J> = Queue(count: int, jobs: seq<J>, pushed: seq<J>, executed: seq<J>)

  /** Where a thread stands inside Push or Execute. Threads outside both are not listed. */
  datatype Thread<J> =
    | Counted(queue: nat, job: J, prev: int)                      // Push: counter raised, job not stored yet
    | Stored(queue: nat)                                          // Push: saw 0, job stored, about to register
    | Entered(queue: nat)                                         // Execute: about to take a batch
    | Running(queue: nat, batch: seq<J>, done: nat, late: bool)   // Execute: `done` jobs of the batch have run
    | Settling(queue: nat, done: nat)                             // Execute: about to lower the counter by `done`
    | Remaining(queue: nat)                                       // Execute: jobs remain, about to look at the deadline

  /** `registered` and `taken` are history: what was pushed into the global queue, and what workers popped from it. */
  datatype State<J> = State(queues: map<nat, Queue<J>>, global: seq<nat>, threads: map<nat, Thread<J>>,
                            registered: seq<nat>, taken: seq<nat>)

  datatype Action<J> =
    | Count(thread: nat, queue: nat, job: J)   // Push: fetch_add
    | Store(thread: nat)                       // Push: push_back
    | Register(thread: nat)                    // Push: GlobalQueue::Push
    | Pop(thread: nat)                         // worker: GlobalQueue::TryPop, then Execute
    | TakeBatch(thread: nat)                   // Execute: swap the jobs out
    | RunJob(thread: nat, late: bool)          // Execute: run the next job, then look at the deadline
    | PutBack(thread: nat)                     // Execute: re-insert what was not run at the front
    | Settle(thread: nat)                      // Execute: fetch_sub
    | Decide(thread: nat, late: bool)          // Execute: re-register at the deadline, else go round again

  /** All queues new and empty, no thread inside. */
  ghost predicate Init<J>(s: State<J>) {
    && s.global == [] && s.threads == map[] && s.registered == [] && s.taken == []
    && forall q :: q in s.queues ==> s.queues[q] == Queue(0, [], [], [])
  }

  predicate Enabled<J>(s: State<J>, a: Action<J>) {
    match a
    case Count(t, q, _) => t !in s.threads && q in s.queues
    case Store(t) => t in s.threads && s.threads[t].Counted? && s.threads[t].queue in s.queues
    case Register(t) => t in s.threads && s.threads[t].Stored?
    case Pop(t) => t !in s.threads && s.global != []
    case TakeBatch(t) => t in s.threads && s.threads[t].Entered? && s.threads[t].queue in s.queues
    case RunJob(t, _) =>
      && t in s.threads && s.threads[t].Running? && s.threads[t].queue in s.queues
      && !s.threads[t].late && s.threads[t].done < |s.threads[t].batch|
    case PutBack(t) =>
      && t in s.threads && s.threads[t].Running? && s.threads[t].queue in s.queues
      && s.threads[t].done <= |s.threads[t].batch| && (s.threads[t].late || s.threads[t].done == |s.threads[t].batch|)
    case Settle(t) => t in s.threads && s.threads[t].Settling? && s.threads[t].queue in s.queues
    case Decide(t, _) => t in s.threads && s.threads[t].Remaining?
  }

  function Set<J>(s: State<J>, q: nat, queue: Queue<J>): State<J> {
    s.(queues := s.queues[q := queue])
  }

  function Goto<J>(s: State<J>, t: nat, thread: Thread<J>): State<J> {
    s.(threads := s.threads[t := thread])
  }

  function Leave<J>(s: State<J>, t: nat): State<J> {
    s.(threads := s.threads - {t})
  }

  /** GlobalQueue::Push: at the back. */
  function Enlist<J>(s: State<J>, q: nat): State<J> {
    s.(global := s.global + [q], registered := s.registered + [q])
  }

  function Step<J>(s: State<J>, a: Action<J>): State<J>
    requires Enabled(s, a)
  {
    match a
    case Count(t, q, job) =>
      var queue := s.queues[q];
      Goto(Set(s, q, queue.(count := queue.count + 1)), t, Counted(q, job, queue.count))
    case Store(t) =>
      var Counted(q, job, prev) := s.threads[t];
      var queue := s.queues[q];
      var stored := Set(s, q, queue.(jobs := queue.jobs + [job], pushed := queue.pushed + [job]));
      if prev == 0 then Goto(stored, t, Stored(q)) else Leave(stored, t)
    case Register(t) => Leave(Enlist(s, s.threads[t].queue), t)
    case Pop(t) =>
      var q := s.global[0];
      Goto(s.(global := s.global[1..], taken := s.taken + [q]), t, Entered(q))
    case TakeBatch(t) =>
      var q := s.threads[t].queue;
      Goto(Set(s, q, s.queues[q].(jobs := [])), t, Running(q, s.queues[q].jobs, 0, false))
    case RunJob(t, late) =>
      var Running(q, batch, done, _) := s.threads[t];
      var queue := s.queues[q];
      Goto(Set(s, q, queue.(executed := queue.executed + [batch[done]])), t, Running(q, batch, done + 1, late))
    case PutBack(t) =>
      var Running(q, batch, done, _) := s.threads[t];
      var queue := s.queues[q];
      Goto(Set(s, q, queue.(jobs := batch[done..] + queue.jobs)), t, Settling(q, done))
    case Settle(t) =>
      var Settling(q, done) := s.threads[t];
      var remaining := s.queues[q].count - done;
      var settled := Set(s, q, s.queues[q].(count := remaining));
      if remaining <= 0 then Leave(settled, t) else Goto(settled, t, Remaining(q))
    case Decide(t, late) =>
      var q := s.threads[t].queue;
      if late then Leave(Enlist(s, q), t) else Goto(s, t, Entered(q))
  }

  // ---------------------------------------------------------------- the token

  /** Who is entitled to run a queue. */
  datatype Token = Nobody | Pusher(thread: nat) | Global | Worker(thread: nat)

  predicate IsWorker<J>(th: Thread<J>) {
    th.Entered? || th.Running? || th.Settling? || th.Remaining?
  }

  predicate IsPusher<J>(th: Thread<J>) {
    th.Stored? || (th.Counted? && th.prev == 0)
  }

  /** Pushes between raising the counter and storing their job. */
  ghost function Arriving<J>(s: State<J>, q: nat): set<nat> {
    set t | t in s.threads && s.threads[t].Counted? && s.threads[t].queue == q
  }

  /** Jobs of the worker's batch that the counter still includes. */
  function Unsettled<J>(th: Thread<J>): nat {
    if th.Running? then |th.batch| else if th.Settling? then th.done else 0
  }

  /** Jobs of the worker's batch that have not run. */
  function Rest<J>(th: Thread<J>): seq<J> {
    if th.Running? && th.done <= |th.batch| then th.batch[th.done..] else []
  }

  ghost predicate TokenOk<J>(s: State<J>, token: map<nat, Token>, q: nat)
    requires q in token
  {
    match token[q]
    case Nobody => true
    case Pusher(t) => t in s.threads && s.threads[t].queue == q && IsPusher(s.threads[t])
    case Global => true
    case Worker(t) => t in s.threads && s.threads[t].queue == q && IsWorker(s.threads[t])
  }

  function Unsettled'<J>(s: State<J>, token: Token): nat {
    if token.Worker? && token.thread in s.threads then Unsettled(s.threads[token.thread]) else 0
  }

  function Rest'<J>(s: State<J>, token: Token): seq<J> {
    if token.Worker? && token.thread in s.threads then Rest(s.threads[token.thread]) else []
  }

  /** What holds of a queue: token, counter and order of jobs. */
  ghost predicate QueueOk<J>(s: State<J>, token: map<nat, Token>, q: nat)
    requires q in s.queues && q in token
  {
    var queue := s.queues[q];
    && TokenOk(s, token, q)
    && (queue.count > 0 <==> token[q] != Nobody)
    && multiset(s.global)[q] == (if token[q] == Global then 1 else 0)
    && queue.count == |queue.jobs| + Unsettled'(s, token[q]) + |Arriving(s, q)|
    && queue.pushed == queue.executed + Rest'(s, token[q]) + queue.jobs
  }

  /** A thread inside Push with the duty to register, or inside Execute, has its queue's token. */
  ghost predicate ThreadOk<J>(s: State<J>, token: map<nat, Token>, t: nat)
    requires t in s.threads
  {
    var th := s.threads[t];
    && th.queue in s.queues && th.queue in token
    && (IsPusher(th) ==> token[th.queue] == Pusher(t))
    && (IsWorker(th) ==> token[th.queue] == Worker(t))
    && (th.Running? ==> th.done <= |th.batch|)
  }

  ghost predicate Inv<J>(s: State<J>, token: map<nat, Token>) {
    && token.Keys == s.queues.Keys
    && (forall q {:trigger QueueOk(s, token, q)} :: q in s.queues ==> QueueOk(s, token, q))
    && (forall t {:trigger ThreadOk(s, token, t)} :: t in s.threads ==> ThreadOk(s, token, t))
    && (forall i :: 0 <= i < |s.global| ==> s.global[i] in s.queues)
    && s.registered == s.taken + s.global
  }

  /** How a step moves the token of the queue it works on. */
  function TokenAfter<J>(s: State<J>, token: map<nat, Token>, a: Action<J>): map<nat, Token>
    requires Enabled(s, a)
  {
    match a
    case Count(t, q, _) => if s.queues[q].count == 0 then token[q := Pusher(t)] else token
    case Register(t) => token[s.threads[t].queue := Global]
    case Pop(t) => token[s.global[0] := Worker(t)]
    case Settle(t) =>
      var q := s.threads[t].queue;
      if s.queues[q].count - s.threads[t].done <= 0 then token[q := Nobody] else token
    case Decide(t, late) => if late then token[s.threads[t].queue := Global] else token
    case _ => token
  }

  // ---------------------------------------------------------------- what a step leaves alone

  /** The step works for thread `t` on queue `q` only. */
  ghost predicate LocalTo<J>(s: State<J>, s': State<J>, token: map<nat, Token>, token': map<nat, Token>, q: nat,
                             t: nat) {
    && q in s.queues && q in s'.queues && s'.queues == s.queues[q := s'.queues[q]]
    && s'.threads - {t} == s.threads - {t}
    && (t in s.threads ==> s.threads[t].queue == q) && (t in s'.threads ==> s'.threads[t].queue == q)
    && q in token && q in token' && token' == token[q := token'[q]]
    && (token'[q] == token[q] || (token[q].Pusher? || token[q].Worker? ==> token[q].thread == t))
    && (forall o :: o != q ==> multiset(s'.global)[o] == multiset(s.global)[o])
    && (forall i :: 0 <= i < |s'.global| ==> s'.global[i] in s'.queues)
    && s'.registered == s'.taken + s'.global
  }

  lemma OtherThread<J>(s: State<J>, s': State<J>, token: map<nat, Token>, token': map<nat, Token>, q: nat, t: nat,
                       o: nat)
    requires LocalTo(s, s', token, token', q, t) && o != t && o in s'.threads
    ensures o in s.threads && s'.threads[o] == s.threads[o]
    ensures ThreadOk(s, token, o) ==> ThreadOk(s', token', o)
  {
    assert o in s'.threads - {t};
    assert (s'.threads - {t})[o] == (s.threads - {t})[o];
  }

  lemma SameThread<J>(s: State<J>, s': State<J>, token: map<nat, Token>, token': map<nat, Token>, q: nat, t: nat,
                      o: nat)
    requires LocalTo(s, s', token, token', q, t) && o != t && o in s.threads
    ensures o in s'.threads && s'.threads[o] == s.threads[o]
  {
    assert o in s.threads - {t};
    assert (s.threads - {t})[o] == (s'.threads - {t})[o];
  }

  lemma OtherQueue<J>(s: State<J>, s': State<J>, token: map<nat, Token>, token': map<nat, Token>, q: nat, t: nat,
                      o: nat)
    requires LocalTo(s, s', token, token', q, t) && o != q && o in s.queues && o in token && QueueOk(s, token, o)
    ensures o in s'.queues && o in token' && QueueOk(s', token', o)
  {
    forall x ensures x in Arriving(s', o) <==> x in Arriving(s, o) {
      if x != t && x in s.threads { SameThread(s, s', token, token', q, t, x); }
      if x != t && x in s'.threads { OtherThread(s, s', token, token', q, t, x); }
    }
    assert Arriving(s', o) == Arriving(s, o);
    if token[o].Pusher? || token[o].Worker? {
      SameThread(s, s', token, token', q, t, token[o].thread);
    }
  }

  /** A local step that is right for its own queue and thread is right for all. */
  lemma LocalStep<J>(s: State<J>, s': State<J>, token: map<nat, Token>, token': map<nat, Token>, q: nat, t: nat)
    requires Inv(s, token) && LocalTo(s, s', token, token', q, t)
    requires QueueOk(s', token', q) && (t in s'.threads ==> ThreadOk(s', token', t))
    ensures Inv(s', token')
  {
    forall o | o in s'.queues ensures QueueOk(s', token', o) {
      if o != q {
        assert QueueOk(s, token, o);
        OtherQueue(s, s', token, token', q, t, o);
      }
    }
    forall o | o in s'.threads ensures ThreadOk(s', token', o) {
      if o != t {
        OtherThread(s, s', token, token', q, t, o);
        assert ThreadOk(s, token, o);
      }
    }
  }

  lemma ArrivingChange<J>(s: State<J>, s': State<J>, q: nat, t: nat)
    requires s'.threads - {t} == s.threads - {t}
    ensures t in Arriving(s, q) && t !in Arriving(s', q) ==> |Arriving(s', q)| == |Arriving(s, q)| - 1
    ensures t !in Arriving(s, q) && t in Arriving(s', q) ==> |Arriving(s', q)| == |Arriving(s, q)| + 1
    ensures t !in Arriving(s, q) && t !in Arriving(s', q) ==> Arriving(s', q) == Arriving(s, q)
  {
    forall x | x != t ensures x in Arriving(s', q) <==> x in Arriving(s, q) {
      assert x in s'.threads - {t} <==> x in s.threads - {t};
      assert x in s'.threads - {t} ==> (s'.threads - {t})[x] == (s.threads - {t})[x];
    }
    if t in Arriving(s, q) && t !in Arriving(s', q) {
      assert Arriving(s', q) == Arriving(s, q) - {t};
    } else if t !in Arriving(s, q) && t in Arriving(s', q) {
      assert Arriving(s, q) == Arriving(s', q) - {t};
    }
  }

  // ---------------------------------------------------------------- the steps

  lemma CountKeepsInv<J>(s: State<J>, token: map<nat, Token>, t: nat, q: nat, job: J)
    requires Inv(s, token) && Enabled(s, Count(t, q, job))
    ensures Inv(Step(s, Count(t, q, job)), TokenAfter(s, token, Count(t, q, job)))
  {
    var a := Count(t, q, job);
    var s', token' := Step(s, a), TokenAfter(s, token, a);
    assert QueueOk(s, token, q);
    assert s'.threads - {t} == s.threads - {t};
    ArrivingChange(s, s', q, t);
    assert t in Arriving(s', q);
    LocalStep(s, s', token, token', q, t);
  }

  lemma StoreKeepsInv<J>(s: State<J>, token: map<nat, Token>, t: nat)
    requires Inv(s, token) && Enabled(s, Store(t))
    ensures Inv(Step(s, Store(t)), token)
  {
    var s', q := Step(s, Store(t)), s.threads[t].queue;
    assert ThreadOk(s, token, t) && QueueOk(s, token, q);
    assert s'.threads - {t} == s.threads - {t};
    ArrivingChange(s, s', q, t);
    assert t in Arriving(s, q) && t !in Arriving(s', q);
    LocalStep(s, s', token, token, q, t);
  }

  lemma RegisterKeepsInv<J>(s: State<J>, token: map<nat, Token>, t: nat)
    requires Inv(s, token) && Enabled(s, Register(t))
    ensures Inv(Step(s, Register(t)), TokenAfter(s, token, Register(t)))
  {
    var s', q := Step(s, Register(t)), s.threads[t].queue;
    assert ThreadOk(s, token, t) && QueueOk(s, token, q);
    assert s'.threads - {t} == s.threads - {t};
    ArrivingChange(s, s', q, t);
    LocalStep(s, s', token, token[q := Global], q, t);
  }

  lemma PopKeepsInv<J>(s: State<J>, token: map<nat, Token>, t: nat)
    requires Inv(s, token) && Enabled(s, Pop(t))
    ensures Inv(Step(s, Pop(t)), TokenAfter(s, token, Pop(t)))
  {
    var s', q := Step(s, Pop(t)), s.global[0];
    assert s.global == [q] + s.global[1..];
    assert QueueOk(s, token, q);
    assert s'.threads - {t} == s.threads - {t};
    ArrivingChange(s, s', q, t);
    LocalStep(s, s', token, token[q := Worker(t)], q, t);
  }

  /** Taking a batch, running a job, putting the rest back: the worker keeps the token. */
  lemma TakeBatchKeepsInv<J>(s: State<J>, token: map<nat, Token>, t: nat)
    requires Inv(s, token) && Enabled(s, TakeBatch(t))
    ensures Inv(Step(s, TakeBatch(t)), token)
  {
    var s', q := Step(s, TakeBatch(t)), s.threads[t].queue;
    assert ThreadOk(s, token, t) && QueueOk(s, token, q);
    assert s'.threads - {t} == s.threads - {t};
    ArrivingChange(s, s', q, t);
    LocalStep(s, s', token, token, q, t);
  }

  lemma RunJobKeepsInv<J>(s: State<J>, token: map<nat, Token>, t: nat, late: bool)
    requires Inv(s, token) && Enabled(s, RunJob(t, late))
    ensures Inv(Step(s, RunJob(t, late)), token)
  {
    var s', q := Step(s, RunJob(t, late)), s.threads[t].queue;
    assert ThreadOk(s, token, t) && QueueOk(s, token, q);
    assert s'.threads - {t} == s.threads - {t};
    ArrivingChange(s, s', q, t);
    var th := s.threads[t];
    assert th.batch[th.done..] == [th.batch[th.done]] + th.batch[th.done + 1..];
    LocalStep(s, s', token, token, q, t);
  }

  lemma PutBackKeepsInv<J>(s: State<J>, token: map<nat, Token>, t: nat)
    requires Inv(s, token) && Enabled(s, PutBack(t))
    ensures Inv(Step(s, PutBack(t)), token)
  {
    var s', q := Step(s, PutBack(t)), s.threads[t].queue;
    assert ThreadOk(s, token, t) && QueueOk(s, token, q);
    assert s'.threads - {t} == s.threads - {t};
    ArrivingChange(s, s', q, t);
    LocalStep(s, s', token, token, q, t);
  }

  lemma SettleKeepsInv<J>(s: State<J>, token: map<nat, Token>, t: nat)
    requires Inv(s, token) && Enabled(s, Settle(t))
    ensures Inv(Step(s, Settle(t)), TokenAfter(s, token, Settle(t)))
  {
    var s', q := Step(s, Settle(t)), s.threads[t].queue;
    assert ThreadOk(s, token, t) && QueueOk(s, token, q);
    assert s'.threads - {t} == s.threads - {t};
    ArrivingChange(s, s', q, t);
    LocalStep(s, s', token, TokenAfter(s, token, Settle(t)), q, t);
  }

  lemma DecideKeepsInv<J>(s: State<J>, token: map<nat, Token>, t: nat, late: bool)
    requires Inv(s, token) && Enabled(s, Decide(t, late))
    ensures Inv(Step(s, Decide(t, late)), TokenAfter(s, token, Decide(t, late)))
  {
    var a: Action<J> := Decide(t, late);
    var s', q := Step(s, a), s.threads[t].queue;
    assert ThreadOk(s, token, t) && QueueOk(s, token, q);
    assert s'.threads - {t} == s.threads - {t};
    ArrivingChange(s, s', q, t);
    LocalStep(s, s', token, TokenAfter(s, token, a), q, t);
  }

  /** Every step, by any thread on any queue, keeps the invariant. */
  lemma StepKeepsInv<J>(s: State<J>, token: map<nat, Token>, a: Action<J>)
    requires Inv(s, token) && Enabled(s, a)
    ensures Inv(Step(s, a), TokenAfter(s, token, a))
  {
    match a
    case Count(t, q, job) => CountKeepsInv(s, token, t, q, job);
    case Store(t) => StoreKeepsInv(s, token, t);
    case Register(t) => RegisterKeepsInv(s, token, t);
    case Pop(t) => PopKeepsInv(s, token, t);
    case TakeBatch(t) => TakeBatchKeepsInv(s, token, t);
    case RunJob(t, late) => RunJobKeepsInv(s, token, t, late);
    case PutBack(t) => PutBackKeepsInv(s, token, t);
    case Settle(t) => SettleKeepsInv(s, token, t);
    case Decide(t, late) => DecideKeepsInv(s, token, t, late);
  }

  /**
   * The deadline, as a worker's choices. Inside a batch it runs the next job, until the deadline has passed or the
   * batch is used up: then it can only put the rest back, in front of what arrived meanwhile. Settled with jobs left,
   * it goes round again before the deadline, and past it leaves with its queue last in the global queue.
   */
  lemma DeadlineDecides<J>(s: State<J>, token: map<nat, Token>, a: Action<J>)
    requires Inv(s, token) && Enabled(s, a) && a.thread in s.threads
    ensures var th, s' := s.threads[a.thread], Step(s, a);
            && th.queue in s.queues && th.queue in s'.queues
            && (th.Running? && !th.late && th.done < |th.batch| ==>
                  && a.RunJob? && s'.threads == s.threads[a.thread := th.(done := th.done + 1, late := a.late)]
                  && s'.queues[th.queue].executed == s.queues[th.queue].executed + [th.batch[th.done]])
            && (th.Running? && (th.late || th.done == |th.batch|) ==>
                  && a.PutBack? && s'.queues[th.queue].executed == s.queues[th.queue].executed
                  && s'.queues[th.queue].jobs == th.batch[th.done..] + s.queues[th.queue].jobs)
            && (th.Remaining? ==>
                  && a.Decide? && s'.queues == s.queues
                  && (a.late ==> a.thread !in s'.threads && s'.global == s.global + [th.queue])
                  && (!a.late ==> s'.threads == s.threads[a.thread := Entered(th.queue)] && s'.global == s.global))
  {
    assert ThreadOk(s, token, a.thread);
  }

  /** Nobody else moves a thread: what it decided last stands until its own next step. */
  lemma OthersLeaveThreadAlone<J>(s: State<J>, a: Action<J>, t: nat)
    requires Enabled(s, a) && a.thread != t
    ensures t in s.threads <==> t in Step(s, a).threads
    ensures t in s.threads ==> Step(s, a).threads[t] == s.threads[t]
  {
    match a
    case Store(u) => assert t in s.threads - {u} <==> t in s.threads;
    case _ =>
  }

  // ---------------------------------------------------------------- every run

  ghost predicate StepTo<J(!new)>(s: State<J>, s': State<J>) {
    exists a :: Enabled(s, a) && s' == Step(s, a)
  }

  ghost predicate IsRun<J(!new)>(trace: seq<State<J>>) {
    trace != [] && Init(trace[0]) && forall i :: 0 < i < |trace| ==> StepTo(trace[i - 1], trace[i])
  }

  lemma InitInv<J>(s: State<J>) returns (token: map<nat, Token>)
    requires Init(s)
    ensures Inv(s, token)
  {
    token := map q | q in s.queues :: Nobody;
    forall q | q in s.queues ensures QueueOk(s, token, q) {
      assert Arriving(s, q) == {};
    }
  }

  lemma {:induction false} RunInv<J(!new)>(trace: seq<State<J>>, i: nat) returns (token: map<nat, Token>)
    requires IsRun(trace) && i < |trace|
    ensures Inv(trace[i], token)
  {
    if i == 0 {
      token := InitInv(trace[0]);
    } else {
      var before := RunInv(trace, i - 1);
      assert StepTo(trace[i - 1], trace[i]);
      var a :| Enabled(trace[i - 1], a) && trace[i] == Step(trace[i - 1], a);
      StepKeepsInv(trace[i - 1], before, a);
      token := TokenAfter(trace[i - 1], before, a);
    }
  }

  /** The threads that hold a queue's token: a pusher that saw 0 and has not registered yet, or a worker in Execute. */
  ghost function Holders<J>(s: State<J>, q: nat): set<nat> {
    set t | t in s.threads && s.threads[t].queue == q && (IsPusher(s.threads[t]) || IsWorker(s.threads[t]))
  }

  /** One token exists exactly while the counter is positive: a pusher, a global entry or a worker has it, never two. */
  lemma OneToken<J(!new)>(trace: seq<State<J>>, i: nat, q: nat)
    requires IsRun(trace) && i < |trace| && q in trace[i].queues
    ensures |Holders(trace[i], q)| + multiset(trace[i].global)[q] == (if trace[i].queues[q].count > 0 then 1 else 0)
  {
    var s := trace[i];
    var token := RunInv(trace, i);
    assert QueueOk(s, token, q);
    forall t | t in Holders(s, q) ensures (token[q].Pusher? || token[q].Worker?) && token[q].thread == t {
      assert ThreadOk(s, token, t);
    }
    if token[q].Pusher? || token[q].Worker? {
      assert Holders(s, q) == {token[q].thread};
    } else {
      assert Holders(s, q) == {};
    }
  }

  /** No two workers are inside Execute of the same queue. */
  lemma ExecuteIsExclusive<J(!new)>(trace: seq<State<J>>, i: nat, t: nat, u: nat)
    requires IsRun(trace) && i < |trace| && t in trace[i].threads && u in trace[i].threads
    requires IsWorker(trace[i].threads[t]) && IsWorker(trace[i].threads[u])
    requires trace[i].threads[t].queue == trace[i].threads[u].queue
    ensures t == u
  {
    var token := RunInv(trace, i);
    assert ThreadOk(trace[i], token, t) && ThreadOk(trace[i], token, u);
  }

  /** A queue with jobs in it is never forgotten: somebody will register it, has it, or finds it in the global queue. */
  lemma NoQueueForgotten<J(!new)>(trace: seq<State<J>>, i: nat, q: nat)
    requires IsRun(trace) && i < |trace| && q in trace[i].queues && trace[i].queues[q].jobs != []
    ensures Holders(trace[i], q) != {} || q in trace[i].global
  {
    var token := RunInv(trace, i);
    assert QueueOk(trace[i], token, q);
    OneToken(trace, i, q);
    if Holders(trace[i], q) == {} {
      assert q in multiset(trace[i].global);
    }
  }

  /** The history only grows, and each step that reaches the global queue extends it by its own queue. */
  lemma HistoryStep<J>(s: State<J>, a: Action<J>)
    requires Enabled(s, a)
    ensures var s' := Step(s, a);
            && s'.registered == s.registered + (if a.Register? || (a.Decide? && a.late) then [s.threads[a.thread].queue]
                                                else [])
            && (a.Pop? ==> a.thread in s'.threads && s'.threads[a.thread].Entered?
                           && s'.taken == s.taken + [s'.threads[a.thread].queue])
            && (!a.Pop? ==> s'.taken == s.taken)
  {
  }

  /** At every state of a run, what workers took is the front of what was registered, and the rest waits in order. */
  lemma FirstInFirstOut<J(!new)>(trace: seq<State<J>>, i: nat)
    requires IsRun(trace) && i < |trace|
    ensures trace[i].registered == trace[i].taken + trace[i].global
  {
    var _ := RunInv(trace, i);
  }

  lemma {:induction false} HistoryGrows<J(!new)>(trace: seq<State<J>>, i: nat, j: nat)
    requires IsRun(trace) && i <= j < |trace|
    ensures trace[i].registered <= trace[j].registered && trace[i].taken <= trace[j].taken
  {
    if i < j {
      HistoryGrows(trace, i, j - 1);
      assert StepTo(trace[j - 1], trace[j]);
      var a :| Enabled(trace[j - 1], a) && trace[j] == Step(trace[j - 1], a);
      HistoryStep(trace[j - 1], a);
    }
  }

  /**
   * No queue is overtaken: the one with `n` others ahead of it in the global queue is the one that the pop after `n`
   * more hands out, whatever is registered meanwhile.
   */
  lemma NoOvertaking<J(!new)>(trace: seq<State<J>>, i: nat, j: nat, n: nat)
    requires IsRun(trace) && i <= j < |trace| && n < |trace[i].global|
    ensures var before, after := trace[i], trace[j];
            if |after.taken| > |before.taken| + n then after.taken[|before.taken| + n] == before.global[n]
            else n - (|after.taken| - |before.taken|) < |after.global|
                 && 0 <= |after.taken| - |before.taken| <= n
                 && after.global[n - (|after.taken| - |before.taken|)] == before.global[n]
  {
    var before, after := trace[i], trace[j];
    FirstInFirstOut(trace, i);
    FirstInFirstOut(trace, j);
    HistoryGrows(trace, i, j);
    assert before.registered[|before.taken| + n] == before.global[n];
    assert after.registered[|before.taken| + n] == before.global[n];
  }

  /** A worker that pops enters the queue registered longest ago among those not taken yet. */
  lemma PopTakesOldest<J(!new)>(trace: seq<State<J>>, i: nat, t: nat)
    requires IsRun(trace) && i < |trace| && Enabled(trace[i], Pop(t))
    ensures var s := trace[i];
            && |s.taken| < |s.registered|
            && Step(s, Pop(t)).threads == s.threads[t := Entered(s.registered[|s.taken|])]
  {
    FirstInFirstOut(trace, i);
  }

  ghost function Workers<J>(s: State<J>, q: nat): set<nat> {
    set t | t in s.threads && s.threads[t].queue == q && IsWorker(s.threads[t])
  }

  /**
   * Jobs run in the order of their push_backs: executed, then the rest of the running batch, then the stored jobs,
   * whatever yields and front re-insertions happened.
   */
  lemma JobsRunInOrder<J(!new)>(trace: seq<State<J>>, i: nat, q: nat)
    requires IsRun(trace) && i < |trace| && q in trace[i].queues
    ensures var s, queue := trace[i], trace[i].queues[q];
            && (Workers(s, q) == {} ==> queue.pushed == queue.executed + queue.jobs)
            && (forall t :: t in Workers(s, q) ==> queue.pushed == queue.executed + Rest(s.threads[t]) + queue.jobs)
  {
    var s := trace[i];
    var token := RunInv(trace, i);
    assert QueueOk(s, token, q);
    assert token[q].Worker? ==> token[q].thread in Workers(s, q);
    forall t | t in Workers(s, q) ensures token[q] == Worker(t) {
      assert ThreadOk(s, token, t);
    }
  }

  /** The counter is what is stored, plus what the running batch has not settled, plus pushes not stored yet. */
  lemma CounterExact<J(!new)>(trace: seq<State<J>>, i: nat, q: nat)
    requires IsRun(trace) && i < |trace| && q in trace[i].queues
    ensures var s, queue := trace[i], trace[i].queues[q];
            && (Workers(s, q) == {} ==> queue.count == |queue.jobs| + |Arriving(s, q)|)
            && (forall t :: t in Workers(s, q) ==>
                  queue.count == |queue.jobs| + Unsettled(s.threads[t]) + |Arriving(s, q)|)
  {
    var s := trace[i];
    var token := RunInv(trace, i);
    assert QueueOk(s, token, q);
    assert token[q].Worker? ==> token[q].thread in Workers(s, q);
    forall t | t in Workers(s, q) ensures token[q] == Worker(t) {
      assert ThreadOk(s, token, t);
    }
  }

  /** When all threads have left and the global queue is empty, every pushed job has run, in order. */
  lemma QuietMeansAllRan<J(!new)>(trace: seq<State<J>>, i: nat, q: nat)
    requires IsRun(trace) && i < |trace| && q in trace[i].queues
    requires trace[i].threads == map[] && trace[i].global == []
    ensures trace[i].queues[q].executed == trace[i].queues[q].pushed && trace[i].queues[q].count == 0
  {
    var s := trace[i];
    JobsRunInOrder(trace, i, q);
    CounterExact(trace, i, q);
    OneToken(trace, i, q);
    assert Workers(s, q) == {} && Holders(s, q) == {} && Arriving(s, q) == {};
    assert multiset(s.global)[q] == 0;
  }
}
