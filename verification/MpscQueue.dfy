/**
 * The lock-free queue with many producers and one consumer, as a machine whose steps are the atomic accesses
 * of PushNode and TryPop, interleaved in any order under sequential consistency.
 */
module MpscQueue {
  import opened Options

  /** A node address; the stub that lives inside the queue has address 0. */
  type Ptr = nat

  const STUB: Ptr := 0

  /** Where the consumer stands inside TryPop; `Idle` is between calls. */
  datatype Consumer =
    | Idle
    | LoadFirst(node: Ptr)                 // node->next is about to be loaded
    | SkipStub(next: Ptr)                  // the stub has a successor: consume_end is about to move past it
    | LoadSecond(node: Ptr)                // next of the node behind the stub is about to be loaded
    | Advance(node: Ptr, next: Ptr)        // a successor exists: consume_end is about to move to it
    | Take(node: Ptr)                      // the value is about to be moved out
    | Delete(node: Ptr)                    // the node is about to be deleted
    | LoadTail(node: Ptr)                  // produce_end is about to be loaded
    | ResetStub(node: Ptr)                 // stub.next is about to be cleared
    | ExchangeStub(node: Ptr)              // the stub is about to be exchanged into produce_end
    | LinkStub(node: Ptr, prev: Ptr)       // prev->next is about to be set to the stub
    | LoadThird(node: Ptr)                 // node->next is about to be loaded for the last time

  /** A producer between its exchange and its link. */
  datatype Push = Push(prev: Ptr, node: Ptr)

  /**
   * Memory and thread positions. `next` maps exactly the nodes that are allocated. The last four fields are history:
   * values in exchange order, values popped, the last result of TryPop, and whether some push was under way at any
   * moment of the current (or last) call of TryPop.
   */
  datatype State<T> = State(
    next: map<Ptr, Option<Ptr>>, value: map<Ptr, T>, consumeEnd: Ptr, produceEnd: Ptr,
    producers: map<nat, Push>, consumer: Consumer,
    pushed: seq<T>, popped: seq<T>, result: Option<bool>, overlapped: bool)

  datatype Action<T> =
    | Exchange(producer: nat, item: T, node: Ptr)  // a new node is exchanged into produce_end
    | Link(producer: nat)                          // the previous node is linked to it
    | Consume                                      // the consumer's next access

  function Init<T>(): State<T> {
    State(map[STUB := None], map[], STUB, STUB, map[], Idle, [], [], None, false)
  }

  /** A new node can have any address that is not in use, including one that was freed before. */
  predicate Enabled<T>(s: State<T>, a: Action<T>) {
    match a
    case Exchange(p, _, n) => p !in s.producers && n !in s.next
    case Link(p) => p in s.producers
    case Consume => true
  }

  function Load<T>(s: State<T>, p: Ptr): Option<Ptr> {
    if p in s.next then s.next[p] else None
  }

  function Store<T>(s: State<T>, p: Ptr, q: Option<Ptr>): State<T> {
    s.(next := s.next[p := q])
  }

  function Return<T>(s: State<T>, ok: bool): State<T> {
    s.(consumer := Idle, result := Some(ok))
  }

  /** After a load of `node`'s next pointer, for a node that is not the stub. */
  function Inspect<T>(s: State<T>, node: Ptr, next: Option<Ptr>): State<T> {
    if next.Some? then s.(consumer := Advance(node, next.value)) else s.(consumer := LoadTail(node))
  }

  function ConsumerStep<T>(s: State<T>): State<T> {
    match s.consumer
    case Idle => s.(consumer := LoadFirst(s.consumeEnd), overlapped := s.producers != map[])
    case LoadFirst(node) =>
      var next := Load(s, node);
      if node == STUB then
        if next.None? then Return(s, false) else s.(consumer := SkipStub(next.value))
      else Inspect(s, node, next)
    case SkipStub(next) => s.(consumeEnd := next, consumer := LoadSecond(next))
    case LoadSecond(node) => Inspect(s, node, Load(s, node))
    case Advance(node, next) => s.(consumeEnd := next, consumer := Take(node))
    case Take(node) =>
      s.(popped := s.popped + (if node in s.value then [s.value[node]] else []), value := s.value - {node},
         consumer := Delete(node))
    case Delete(node) => Return(s.(next := s.next - {node}), true)
    case LoadTail(node) => if node != s.produceEnd then Return(s, false) else s.(consumer := ResetStub(node))
    case ResetStub(node) => Store(s, STUB, None).(consumer := ExchangeStub(node))
    case ExchangeStub(node) => s.(produceEnd := STUB, consumer := LinkStub(node, s.produceEnd))
    case LinkStub(node, prev) => Store(s, prev, Some(STUB)).(consumer := LoadThird(node))
    case LoadThird(node) =>
      var next := Load(s, node);
      if next.Some? then s.(consumer := Advance(node, next.value)) else Return(s, false)
  }

  function Step<T>(s: State<T>, a: Action<T>): State<T>
    requires Enabled(s, a)
  {
    match a
    case Exchange(p, item, n) =>
      s.(next := s.next[n := None], value := s.value[n := item], produceEnd := n,
         producers := s.producers[p := Push(s.produceEnd, n)], pushed := s.pushed + [item],
         overlapped := s.overlapped || !s.consumer.Idle?)
    case Link(p) =>
      Store(s, s.producers[p].prev, Some(s.producers[p].node)).(producers := s.producers - {p})
    case Consume => ConsumerStep(s)
  }

  /** The nodes whose memory a step reads or writes. */
  function Touched<T>(s: State<T>, a: Action<T>): set<Ptr>
    requires Enabled(s, a)
  {
    match a
    case Exchange(_, _, _) => {}
    case Link(p) => {s.producers[p].prev}
    case Consume =>
      match s.consumer
      case Idle | SkipStub(_) | Advance(_, _) | LoadTail(_) | ExchangeStub(_) => {}
      case LoadFirst(node) => {node}
      case LoadSecond(node) => {node}
      case Take(node) => {node}
      case Delete(node) => {node}
      case ResetStub(_) => {STUB}
      case LinkStub(_, prev) => {prev}
      case LoadThird(node) => {node}
  }

  // ---------------------------------------------------------------- the chain

  ghost predicate Distinct(chain: seq<Ptr>) {
    forall i, j :: 0 <= i < j < |chain| ==> chain[i] != chain[j]
  }

  /** Items of a chain in order, the stub left out. */
  function Items<T>(value: map<Ptr, T>, chain: seq<Ptr>): seq<T> {
    if chain == [] then []
    else (if chain[0] != STUB && chain[0] in value then [value[chain[0]]] else []) + Items(value, chain[1..])
  }

  /** `prev` and `node` are consecutive in the chain and not linked yet. */
  ghost predicate Unlinked(next: map<Ptr, Option<Ptr>>, chain: seq<Ptr>, prev: Ptr, node: Ptr) {
    exists i :: 0 < i < |chain| && chain[i - 1] == prev && chain[i] == node && prev in next && next[prev] == None
  }

  /** Somebody is going to set `p`'s next pointer. */
  ghost predicate Owed<T>(s: State<T>, p: Ptr) {
    || (exists q :: q in s.producers && s.producers[q].prev == p)
    || (s.consumer.LinkStub? && s.consumer.prev == p)
  }

  /** The `i`-th node of the chain is linked from the one before it, or somebody still owes that link. */
  ghost predicate LinkAt<T>(s: State<T>, chain: seq<Ptr>, i: int)
    requires 0 < i < |chain|
  {
    var prev := chain[i - 1];
    prev in s.next && (s.next[prev] == Some(chain[i]) || (s.next[prev] == None && Owed(s, prev)))
  }

  ghost predicate LinksOk<T>(s: State<T>, chain: seq<Ptr>) {
    forall i {:trigger LinkAt(s, chain, i)} :: 0 < i < |chain| ==> LinkAt(s, chain, i)
  }

  ghost predicate PushesOk<T>(s: State<T>, chain: seq<Ptr>) {
    && (forall p {:trigger s.producers[p]} :: p in s.producers ==>
          Unlinked(s.next, chain, s.producers[p].prev, s.producers[p].node))
    && (forall p, q {:trigger s.producers[p], s.producers[q]} :: p in s.producers && q in s.producers && p != q ==>
          s.producers[p].prev != s.producers[q].prev)
    && (s.consumer.LinkStub? ==>
          && Unlinked(s.next, chain, s.consumer.prev, STUB)
          && forall p :: p in s.producers ==> s.producers[p].prev != s.consumer.prev)
  }

  /** The node the consumer has taken out of the chain but not deleted yet. */
  function Held(c: Consumer): set<Ptr> {
    if c.Take? || c.Delete? then {c.node} else {}
  }

  /** What the consumer knows at each point of TryPop. */
  ghost predicate ConsumerOk<T>(s: State<T>, chain: seq<Ptr>)
    requires chain != []
  {
    match s.consumer
    case Idle => true
    case LoadFirst(node) => node == chain[0]
    case SkipStub(next) => chain[0] == STUB && |chain| > 1 && chain[1] == next && Load(s, STUB) == Some(next)
    case LoadSecond(node) => node == chain[0] != STUB
    case Advance(node, next) =>
      node == chain[0] != STUB && |chain| > 1 && chain[1] == next && Load(s, node) == Some(next)
    case Take(_) => ConsumerOkTake(s, chain)
    case Delete(node) => node != STUB && node !in chain && node in s.next
    case LoadTail(node) => node == chain[0] != STUB && (|chain| > 1 ==> s.overlapped)
    case ResetStub(node) => node == chain[0] && STUB !in chain && (|chain| > 1 ==> s.overlapped)
    case ExchangeStub(node) =>
      node == chain[0] && STUB !in chain && (|chain| > 1 ==> s.overlapped) && Load(s, STUB) == None
    case LinkStub(node, prev) => node == chain[0] != STUB && (prev != node ==> s.overlapped)
    case LoadThird(node) => node == chain[0] != STUB && |chain| > 1 && (Load(s, node) == None ==> s.overlapped)
  }

  /** Exactly the stub, the chained nodes and the held node are allocated; exactly the unpopped ones carry a value. */
  ghost predicate MemoryOk<T>(s: State<T>, chain: seq<Ptr>) {
    forall p: Ptr {:trigger MemoryAt(s, chain, p)} :: MemoryAt(s, chain, p)
  }

  ghost predicate MemoryAt<T>(s: State<T>, chain: seq<Ptr>, p: Ptr) {
    && (p in s.next <==> p == STUB || p in chain || p in Held(s.consumer))
    && (p in s.value <==> p != STUB && (p in chain || (s.consumer.Take? && p == s.consumer.node)))
  }

  lemma ChainAllocated<T>(s: State<T>, chain: seq<Ptr>)
    requires MemoryOk(s, chain)
    ensures forall p :: p in chain ==> p in s.next && (p != STUB ==> p in s.value)
  {
    forall p | p in chain ensures p in s.next && (p != STUB ==> p in s.value) {
      assert MemoryAt(s, chain, p);
    }
  }

  /** Allocation stays exact when a step adds or removes exactly what it does to the chain. */
  lemma MemoryKept<T>(s: State<T>, s': State<T>, chain: seq<Ptr>, chain': seq<Ptr>)
    requires MemoryOk(s, chain)
    requires forall p: Ptr :: MemoryAt(s, chain, p) ==> MemoryAt(s', chain', p)
    ensures MemoryOk(s', chain')
  {
  }

  /** A value moved out of the chain but not handed over yet. */
  function InHand<T>(s: State<T>): seq<T> {
    if s.consumer.Take? && s.consumer.node in s.value then [s.value[s.consumer.node]] else []
  }

  /** The invariant; `chain` lists the nodes from consume_end to produce_end in exchange order. */
  ghost predicate Inv<T>(s: State<T>, chain: seq<Ptr>) {
    && chain != [] && Distinct(chain) && chain[0] == s.consumeEnd && chain[|chain| - 1] == s.produceEnd
    && Load(s, s.produceEnd) == None
    && MemoryOk(s, chain) && LinksOk(s, chain) && PushesOk(s, chain) && ConsumerOk(s, chain)
    && s.pushed == s.popped + InHand(s) + Items(s.value, chain)
    && (!s.consumer.Idle? && s.producers != map[] ==> s.overlapped)
  }

  /** How a step changes the chain: exchanges append, the consumer drops the first node. */
  function ChainAfter<T>(s: State<T>, chain: seq<Ptr>, a: Action<T>): seq<Ptr>
    requires chain != []
  {
    match a
    case Exchange(_, _, n) => chain + [n]
    case Link(_) => chain
    case Consume =>
      match s.consumer
      case SkipStub(_) => chain[1..]
      case Advance(_, _) => chain[1..]
      case ExchangeStub(_) => chain + [STUB]
      case _ => chain
  }

  // ---------------------------------------------------------------- small facts

  lemma {:induction false} ItemsAppend<T>(value: map<Ptr, T>, chain: seq<Ptr>, n: Ptr)
    ensures Items(value, chain + [n]) == Items(value, chain) + Items(value, [n])
  {
    if chain != [] {
      assert (chain + [n])[1..] == chain[1..] + [n];
      ItemsAppend(value, chain[1..], n);
    } else {
      assert chain + [n] == [n];
    }
  }

  lemma {:induction false} ItemsFrame<T>(value: map<Ptr, T>, value': map<Ptr, T>, chain: seq<Ptr>)
    requires forall p :: p in chain ==> (p in value <==> p in value') && (p in value ==> value[p] == value'[p])
    ensures Items(value, chain) == Items(value', chain)
  {
    if chain != [] {
      ItemsFrame(value, value', chain[1..]);
    }
  }

  lemma UnlinkedDrop(next: map<Ptr, Option<Ptr>>, next': map<Ptr, Option<Ptr>>, chain: seq<Ptr>, prev: Ptr, node: Ptr)
    requires Unlinked(next, chain, prev, node) && prev in next' && next'[prev] == next[prev] && prev != chain[0]
    ensures Unlinked(next', chain[1..], prev, node)
  {
  }

  /** A node that is owed a link is in the chain, but not its last. */
  lemma UnlinkedPlace(next: map<Ptr, Option<Ptr>>, chain: seq<Ptr>, prev: Ptr, node: Ptr)
    requires Unlinked(next, chain, prev, node) && Distinct(chain)
    ensures prev in chain && prev in next && next[prev] == None && prev != chain[|chain| - 1]
  {
  }

  // ---------------------------------------------------------------- links under change

  /** `x` is still owed a link by whoever owed it before. */
  ghost predicate StillOwed<T>(s: State<T>, s': State<T>, x: Ptr) {
    && (forall q :: q in s.producers && s.producers[q].prev == x ==> q in s'.producers && s'.producers[q].prev == x)
    && (s.consumer.LinkStub? && s.consumer.prev == x ==> s'.consumer.LinkStub? && s'.consumer.prev == x)
  }

  lemma LinkAtKept<T>(s: State<T>, s': State<T>, chain: seq<Ptr>, i: int, chain': seq<Ptr>, i': int)
    requires 0 < i < |chain| && 0 < i' < |chain'| && chain[i - 1] == chain'[i' - 1] && chain[i] == chain'[i']
    requires LinkAt(s, chain, i) && StillOwed(s, s', chain[i - 1])
    requires chain[i - 1] in s'.next && s'.next[chain[i - 1]] == s.next[chain[i - 1]]
    ensures LinkAt(s', chain', i')
  {
  }

  /** A node is appended behind the old last node, and somebody owes the link. */
  lemma LinksAppend<T>(s: State<T>, s': State<T>, chain: seq<Ptr>, n: Ptr)
    requires chain != [] && LinksOk(s, chain)
    requires forall i {:trigger chain[i]} :: 0 <= i < |chain| - 1 ==>
      chain[i] in s'.next && s'.next[chain[i]] == Load(s, chain[i]) && StillOwed(s, s', chain[i])
    requires var last := chain[|chain| - 1]; last in s'.next && s'.next[last] == None && Owed(s', last)
    ensures LinksOk(s', chain + [n])
  {
    forall i | 0 < i < |chain + [n]| ensures LinkAt(s', chain + [n], i) {
      if i < |chain| {
        assert LinkAt(s, chain, i);
        LinkAtKept(s, s', chain, i, chain + [n], i);
      }
    }
  }

  /** The first node is dropped. */
  lemma LinksDrop<T>(s: State<T>, s': State<T>, chain: seq<Ptr>)
    requires chain != [] && LinksOk(s, chain)
    requires forall i {:trigger chain[i]} :: 0 < i < |chain| - 1 ==>
      chain[i] in s'.next && s'.next[chain[i]] == Load(s, chain[i]) && StillOwed(s, s', chain[i])
    ensures LinksOk(s', chain[1..])
  {
    forall i | 0 < i < |chain[1..]| ensures LinkAt(s', chain[1..], i) {
      assert LinkAt(s, chain, i + 1);
      assert chain[i] == chain[1..][i - 1];
      LinkAtKept(s, s', chain, i + 1, chain[1..], i);
    }
  }

  /** One owed link is made. */
  lemma LinksSet<T>(s: State<T>, s': State<T>, chain: seq<Ptr>, prev: Ptr, node: Ptr)
    requires Distinct(chain) && LinksOk(s, chain) && Unlinked(s.next, chain, prev, node)
    requires s'.next == s.next[prev := Some(node)]
    requires forall x :: x != prev ==> StillOwed(s, s', x)
    ensures LinksOk(s', chain)
  {
    forall i | 0 < i < |chain| ensures LinkAt(s', chain, i) {
      assert LinkAt(s, chain, i);
      if chain[i - 1] == prev {
        var k :| 0 < k < |chain| && chain[k - 1] == prev && chain[k] == node;
        assert k == i;
      } else {
        LinkAtKept(s, s', chain, i, chain, i);
      }
    }
  }

  lemma LinksSame<T>(s: State<T>, s': State<T>, chain: seq<Ptr>)
    requires LinksOk(s, chain)
    requires forall x :: x in chain ==> (x in s.next ==> x in s'.next && s'.next[x] == s.next[x]) && StillOwed(s, s', x)
    ensures LinksOk(s', chain)
  {
    forall i | 0 < i < |chain| ensures LinkAt(s', chain, i) {
      assert LinkAt(s, chain, i);
      assert chain[i - 1] in chain;
      LinkAtKept(s, s', chain, i, chain, i);
    }
  }

  // ---------------------------------------------------------------- pushes under change

  /** No push, and not the consumer's own, is about to write to `p`. */
  ghost predicate NotOwed<T>(s: State<T>, p: Ptr) {
    && (forall q {:trigger s.producers[q]} :: q in s.producers ==> s.producers[q].prev != p)
    && (s.consumer.LinkStub? ==> s.consumer.prev != p)
  }

  lemma LastNotOwed<T>(s: State<T>, chain: seq<Ptr>)
    requires chain != [] && Distinct(chain) && PushesOk(s, chain)
    ensures NotOwed(s, chain[|chain| - 1])
  {
  }

  lemma LinkedNotOwed<T>(s: State<T>, chain: seq<Ptr>, p: Ptr)
    requires Distinct(chain) && PushesOk(s, chain) && (p in chain ==> Load(s, p) != None)
    ensures NotOwed(s, p)
  {
  }

  /** The pushes under way keep their places when the nodes they are about to write to stay as they are. */
  lemma PushKept<T>(s: State<T>, next': map<Ptr, Option<Ptr>>, chain: seq<Ptr>, chain': seq<Ptr>, push: Push)
    requires Distinct(chain) && Unlinked(s.next, chain, push.prev, push.node)
    requires push.prev in next' && next'[push.prev] == None
    requires || chain' == chain || (exists n :: chain' == chain + [n])
             || (chain != [] && chain' == chain[1..] && push.prev != chain[0])
    ensures Unlinked(next', chain', push.prev, push.node)
  {
    var i :| 0 < i < |chain| && chain[i - 1] == push.prev && chain[i] == push.node;
    if chain' == chain || exists n :: chain' == chain + [n] {
      assert chain'[i - 1] == push.prev && chain'[i] == push.node;
    } else {
      UnlinkedDrop(s.next, next', chain, push.prev, push.node);
    }
  }

  // ---------------------------------------------------------------- producer steps

  lemma ExchangeKeepsPushes<T>(s: State<T>, s': State<T>, chain: seq<Ptr>, p: nat, item: T, n: Ptr)
    requires chain != [] && Distinct(chain) && PushesOk(s, chain) && chain[|chain| - 1] == s.produceEnd
    requires Load(s, s.produceEnd) == None && s.produceEnd in s.next
    requires Enabled(s, Exchange(p, item, n)) && s' == Step(s, Exchange(p, item, n))
    ensures PushesOk(s', chain + [n])
  {
    LastNotOwed(s, chain);
    var chain' := chain + [n];
    forall q | q in s.producers ensures Unlinked(s'.next, chain', s.producers[q].prev, s.producers[q].node) {
      UnlinkedPlace(s.next, chain, s.producers[q].prev, s.producers[q].node);
      PushKept(s, s'.next, chain, chain', s.producers[q]);
    }
    if s.consumer.LinkStub? {
      UnlinkedPlace(s.next, chain, s.consumer.prev, STUB);
      PushKept(s, s'.next, chain, chain', Push(s.consumer.prev, STUB));
    }
    assert chain'[|chain| - 1] == s.produceEnd && chain'[|chain|] == n;
    assert Unlinked(s'.next, chain', s.produceEnd, n);
  }

  lemma ExchangeKeepsLinks<T>(s: State<T>, s': State<T>, chain: seq<Ptr>, p: nat, item: T, n: Ptr)
    requires chain != [] && Distinct(chain) && LinksOk(s, chain) && chain[|chain| - 1] == s.produceEnd
    requires Load(s, s.produceEnd) == None && forall x :: x in chain ==> x in s.next
    requires Enabled(s, Exchange(p, item, n)) && s' == Step(s, Exchange(p, item, n))
    ensures LinksOk(s', chain + [n])
  {
    assert s'.producers[p].prev == s.produceEnd;
    assert Owed(s', s.produceEnd);
    forall i | 0 <= i < |chain| ensures chain[i] in s'.next && s'.next[chain[i]] == Load(s, chain[i]) {
      assert chain[i] in chain;
    }
    LinksAppend(s, s', chain, n);
  }

  lemma ExchangeKeepsItems<T>(s: State<T>, s': State<T>, chain: seq<Ptr>, item: T, n: Ptr)
    requires n != STUB && n !in chain && s'.value == s.value[n := item]
    ensures Items(s'.value, chain + [n]) == Items(s.value, chain) + [item]
  {
    ItemsAppend(s'.value, chain, n);
    ItemsFrame(s.value, s'.value, chain);
    assert Items(s'.value, [n]) == [item] + Items(s'.value, []);
  }

  lemma ExchangeKeepsMemory<T>(s: State<T>, s': State<T>, chain: seq<Ptr>, p: nat, item: T, n: Ptr)
    requires MemoryOk(s, chain) && Enabled(s, Exchange(p, item, n)) && s' == Step(s, Exchange(p, item, n))
    ensures MemoryOk(s', chain + [n]) && n !in chain && n != STUB && n !in Held(s.consumer)
  {
    assert MemoryAt(s, chain, n) && MemoryAt(s, chain, STUB);
    forall x: Ptr ensures MemoryAt(s', chain + [n], x) {
      assert MemoryAt(s, chain, x);
    }
  }

  lemma ExchangeKeepsConsumer<T>(s: State<T>, s': State<T>, chain: seq<Ptr>, p: nat, item: T, n: Ptr)
    requires chain != [] && ConsumerOk(s, chain) && n !in chain && n != STUB && n !in Held(s.consumer)
    requires Enabled(s, Exchange(p, item, n)) && s' == Step(s, Exchange(p, item, n))
    ensures ConsumerOk(s', chain + [n]) && InHand(s') == InHand(s)
  {
  }

  lemma ExchangeKeepsInv<T>(s: State<T>, chain: seq<Ptr>, p: nat, item: T, n: Ptr)
    requires Inv(s, chain) && Enabled(s, Exchange(p, item, n))
    ensures Inv(Step(s, Exchange(p, item, n)), chain + [n])
  {
    var s', chain' := Step(s, Exchange(p, item, n)), chain + [n];
    ChainAllocated(s, chain);
    ExchangeKeepsMemory(s, s', chain, p, item, n);
    assert chain[|chain| - 1] in chain;
    ExchangeKeepsPushes(s, s', chain, p, item, n);
    ExchangeKeepsLinks(s, s', chain, p, item, n);
    ExchangeKeepsItems(s, s', chain, item, n);
    ExchangeKeepsConsumer(s, s', chain, p, item, n);
  }

  lemma LinkKeepsPushes<T>(s: State<T>, s': State<T>, chain: seq<Ptr>, p: nat)
    requires Distinct(chain) && PushesOk(s, chain) && p in s.producers && s' == Step(s, Link(p))
    ensures PushesOk(s', chain)
  {
  }

  lemma LinkKeepsInv<T>(s: State<T>, chain: seq<Ptr>, p: nat)
    requires Inv(s, chain) && Enabled(s, Link(p))
    ensures Inv(Step(s, Link(p)), chain)
  {
    var s' := Step(s, Link(p));
    var push := s.producers[p];
    UnlinkedPlace(s.next, chain, push.prev, push.node);
    LinkKeepsPushes(s, s', chain, p);
    forall x | x != push.prev ensures StillOwed(s, s', x) {
    }
    LinksSet(s, s', chain, push.prev, push.node);
    MemoryKept(s, s', chain, chain);
  }

  // ---------------------------------------------------------------- consumer steps

  /** A linked first node has the second node of the chain behind it; an unlinked one is the last or is owed a link. */
  lemma FirstLink<T>(s: State<T>, chain: seq<Ptr>)
    requires Inv(s, chain)
    ensures Load(s, chain[0]).Some? ==> |chain| > 1 && Load(s, chain[0]) == Some(chain[1])
    ensures Load(s, chain[0]).None? && |chain| > 1 ==> Owed(s, chain[0])
  {
    if |chain| > 1 {
      assert LinkAt(s, chain, 1);
    }
  }

  /** Memory, chain and pushes do not depend on where the consumer stands, away from taking, deleting and linking. */
  lemma PositionOnly<T>(s: State<T>, s': State<T>, chain: seq<Ptr>)
    requires Inv(s, chain)
    requires s' == s.(consumer := s'.consumer, result := s'.result, overlapped := s'.overlapped)
    requires !s.consumer.Take? && !s.consumer.Delete? && !s.consumer.LinkStub?
    requires !s'.consumer.Take? && !s'.consumer.Delete? && !s'.consumer.LinkStub?
    requires ConsumerOk(s', chain) && (!s'.consumer.Idle? && s'.producers != map[] ==> s'.overlapped)
    ensures Inv(s', chain)
  {
    ChainAllocated(s, chain);
    LinksSame(s, s', chain);
    MemoryKept(s, s', chain, chain);
  }

  /** A successor that is owed to the first node comes from a push under way, so the call overlaps with one. */
  lemma MissingSuccessor<T>(s: State<T>, chain: seq<Ptr>)
    requires Inv(s, chain) && !s.consumer.LinkStub? && Load(s, chain[0]).None? && |chain| > 1
    ensures s.producers != map[]
  {
    FirstLink(s, chain);
    var q :| q in s.producers && s.producers[q].prev == chain[0];
  }

  /** Steps that only move the consumer's position. */
  lemma MoveKeepsInv<T>(s: State<T>, chain: seq<Ptr>)
    requires Inv(s, chain)
    requires || s.consumer.Idle? || s.consumer.LoadFirst? || s.consumer.LoadSecond?
             || s.consumer.LoadTail? || s.consumer.LoadThird?
    ensures Inv(ConsumerStep(s), chain)
  {
    FirstLink(s, chain);
    if Load(s, chain[0]).None? && |chain| > 1 {
      MissingSuccessor(s, chain);
    }
    match s.consumer
    case Idle => PositionOnly(s, ConsumerStep(s), chain);
    case LoadFirst(_) => PositionOnly(s, ConsumerStep(s), chain);
    case LoadSecond(_) => PositionOnly(s, ConsumerStep(s), chain);
    case LoadTail(_) => PositionOnly(s, ConsumerStep(s), chain);
    case LoadThird(_) => PositionOnly(s, ConsumerStep(s), chain);
  }

  lemma TailMembers(chain: seq<Ptr>)
    requires chain != [] && Distinct(chain)
    ensures Distinct(chain[1..]) && forall p :: p in chain[1..] <==> p in chain && p != chain[0]
  {
  }

  lemma DropKeepsPushes<T>(s: State<T>, s': State<T>, chain: seq<Ptr>)
    requires chain != [] && Distinct(chain) && PushesOk(s, chain) && NotOwed(s, chain[0]) && !s.consumer.LinkStub?
    requires s'.next == s.next && s'.producers == s.producers && !s'.consumer.LinkStub?
    ensures PushesOk(s', chain[1..])
  {
  }

  lemma DropKeepsLinks<T>(s: State<T>, s': State<T>, chain: seq<Ptr>)
    requires chain != [] && LinksOk(s, chain) && MemoryOk(s, chain) && !s.consumer.LinkStub?
    requires s'.next == s.next && s'.producers == s.producers
    ensures LinksOk(s', chain[1..])
  {
    ChainAllocated(s, chain);
    forall i | 0 <= i < |chain| ensures chain[i] in s.next && StillOwed(s, s', chain[i]) {
      assert chain[i] in chain;
    }
    LinksDrop(s, s', chain);
  }

  /** Moving past the stub: the chain loses the stub and no value. */
  lemma SkipKeepsInv<T>(s: State<T>, chain: seq<Ptr>)
    requires Inv(s, chain) && s.consumer.SkipStub?
    ensures Inv(ConsumerStep(s), chain[1..])
  {
    var s' := ConsumerStep(s);
    LinkedNotOwed(s, chain, chain[0]);
    DropKeepsPushes(s, s', chain);
    DropKeepsLinks(s, s', chain);
    TailMembers(chain);
    MemoryKept(s, s', chain, chain[1..]);
  }

  lemma AdvanceMemory<T>(s: State<T>, s': State<T>, chain: seq<Ptr>)
    requires chain != [] && Distinct(chain) && MemoryOk(s, chain) && s.consumer.Advance?
    requires s.consumer.node == chain[0] != STUB
    requires s'.next == s.next && s'.value == s.value && s'.consumer == Take(chain[0])
    ensures MemoryOk(s', chain[1..]) && ConsumerOkTake(s', chain[1..])
    ensures Items(s.value, chain) == InHand(s') + Items(s.value, chain[1..])
  {
    TailMembers(chain);
    ChainAllocated(s, chain);
    assert chain[0] in chain;
    MemoryKept(s, s', chain, chain[1..]);
  }

  ghost predicate ConsumerOkTake<T>(s: State<T>, chain: seq<Ptr>) {
    && s.consumer.Take? && s.consumer.node != STUB && s.consumer.node !in chain
    && s.consumer.node in s.next && s.consumer.node in s.value
  }

  /** Moving past a node whose value is about to be taken: the chain loses that node, the consumer holds it. */
  lemma AdvanceKeepsInv<T>(s: State<T>, chain: seq<Ptr>)
    requires Inv(s, chain) && s.consumer.Advance?
    ensures Inv(ConsumerStep(s), chain[1..])
  {
    var s' := ConsumerStep(s);
    LinkedNotOwed(s, chain, chain[0]);
    DropKeepsPushes(s, s', chain);
    DropKeepsLinks(s, s', chain);
    AdvanceMemory(s, s', chain);
    TailMembers(chain);
  }

  /** Writes outside the chain disturb no push. */
  lemma SamePushes<T>(s: State<T>, s': State<T>, chain: seq<Ptr>)
    requires Distinct(chain) && PushesOk(s, chain) && s'.producers == s.producers
    requires !s.consumer.LinkStub? && !s'.consumer.LinkStub?
    requires forall x :: x in chain && x in s.next ==> x in s'.next && s'.next[x] == s.next[x]
    ensures PushesOk(s', chain)
  {
  }

  lemma TakeKeepsInv<T>(s: State<T>, chain: seq<Ptr>)
    requires Inv(s, chain) && s.consumer.Take?
    ensures Inv(ConsumerStep(s), chain)
  {
    var s' := ConsumerStep(s);
    LinksSame(s, s', chain);
    ItemsFrame(s.value, s'.value, chain);
    MemoryKept(s, s', chain, chain);
  }

  lemma DeleteKeepsInv<T>(s: State<T>, chain: seq<Ptr>)
    requires Inv(s, chain) && s.consumer.Delete?
    ensures Inv(ConsumerStep(s), chain)
  {
    var s' := ConsumerStep(s);
    assert chain[|chain| - 1] in chain;
    LinksSame(s, s', chain);
    SamePushes(s, s', chain);
    MemoryKept(s, s', chain, chain);
  }

  lemma ResetKeepsInv<T>(s: State<T>, chain: seq<Ptr>)
    requires Inv(s, chain) && s.consumer.ResetStub?
    ensures Inv(ConsumerStep(s), chain)
  {
    var s' := ConsumerStep(s);
    assert chain[|chain| - 1] in chain;
    LinksSame(s, s', chain);
    SamePushes(s, s', chain);
    MemoryKept(s, s', chain, chain);
  }

  lemma ExchangeStubKeepsPushes<T>(s: State<T>, s': State<T>, chain: seq<Ptr>)
    requires Inv(s, chain) && s.consumer.ExchangeStub? && s' == ConsumerStep(s)
    ensures PushesOk(s', chain + [STUB])
  {
    LastNotOwed(s, chain);
    var chain' := chain + [STUB];
    forall q | q in s'.producers ensures Unlinked(s'.next, chain', s'.producers[q].prev, s'.producers[q].node) {
      UnlinkedPlace(s.next, chain, s.producers[q].prev, s.producers[q].node);
      PushKept(s, s'.next, chain, chain', s.producers[q]);
    }
    ChainAllocated(s, chain);
    assert chain[|chain| - 1] in chain;
    assert chain'[|chain| - 1] == s.produceEnd && chain'[|chain|] == STUB;
    assert Unlinked(s'.next, chain', s.produceEnd, STUB);
  }

  /** The stub re-enters the queue, only ever when it is not in it. */
  lemma ExchangeStubKeepsInv<T>(s: State<T>, chain: seq<Ptr>)
    requires Inv(s, chain) && s.consumer.ExchangeStub?
    ensures Inv(ConsumerStep(s), chain + [STUB])
  {
    var s' := ConsumerStep(s);
    ChainAllocated(s, chain);
    ExchangeStubKeepsPushes(s, s', chain);
    assert Owed(s', s.produceEnd);
    forall i | 0 <= i < |chain| ensures chain[i] in s'.next && chain[i] in chain && StillOwed(s, s', chain[i]) {
    }
    LinksAppend(s, s', chain, STUB);
    ItemsAppend(s.value, chain, STUB);
    assert Items(s.value, [STUB]) == [];
    assert MemoryAt(s, chain, STUB);
    MemoryKept(s, s', chain, chain + [STUB]);
  }

  lemma LinkStubKeepsInv<T>(s: State<T>, chain: seq<Ptr>)
    requires Inv(s, chain) && s.consumer.LinkStub?
    ensures Inv(ConsumerStep(s), chain)
  {
    var s' := ConsumerStep(s);
    UnlinkedPlace(s.next, chain, s.consumer.prev, STUB);
    forall x | x != s.consumer.prev ensures StillOwed(s, s', x) {
    }
    LinksSet(s, s', chain, s.consumer.prev, STUB);
    MemoryKept(s, s', chain, chain);
    forall q | q in s'.producers ensures Unlinked(s'.next, chain, s'.producers[q].prev, s'.producers[q].node) {
      UnlinkedPlace(s.next, chain, s.producers[q].prev, s.producers[q].node);
      PushKept(s, s'.next, chain, chain, s.producers[q]);
    }
  }

  /** Every step, by any thread, keeps the invariant. */
  lemma StepKeepsInv<T>(s: State<T>, chain: seq<Ptr>, a: Action<T>)
    requires Inv(s, chain) && Enabled(s, a)
    ensures Inv(Step(s, a), ChainAfter(s, chain, a))
  {
    match a
    case Exchange(p, item, n) => ExchangeKeepsInv(s, chain, p, item, n);
    case Link(p) => LinkKeepsInv(s, chain, p);
    case Consume =>
      match s.consumer
      case SkipStub(_) => SkipKeepsInv(s, chain);
      case Advance(_, _) => AdvanceKeepsInv(s, chain);
      case Take(_) => TakeKeepsInv(s, chain);
      case Delete(_) => DeleteKeepsInv(s, chain);
      case ResetStub(_) => ResetKeepsInv(s, chain);
      case ExchangeStub(_) => ExchangeStubKeepsInv(s, chain);
      case LinkStub(_, _) => LinkStubKeepsInv(s, chain);
      case _ => MoveKeepsInv(s, chain);
  }

  // ---------------------------------------------------------------- every run

  ghost predicate StepTo<T(!new)>(s: State<T>, s': State<T>) {
    exists a :: Enabled(s, a) && s' == Step(s, a)
  }

  ghost predicate IsRun<T(!new)>(trace: seq<State<T>>) {
    trace != [] && trace[0] == Init() && forall i :: 0 < i < |trace| ==> StepTo(trace[i - 1], trace[i])
  }

  lemma InitInv<T>()
    ensures Inv<T>(Init(), [STUB])
  {
  }

  lemma {:induction false} RunInv<T(!new)>(trace: seq<State<T>>, i: nat) returns (chain: seq<Ptr>)
    requires IsRun(trace) && i < |trace|
    ensures Inv(trace[i], chain)
  {
    if i == 0 {
      InitInv<T>();
      chain := [STUB];
    } else {
      var before := RunInv(trace, i - 1);
      assert StepTo(trace[i - 1], trace[i]);
      var a :| Enabled(trace[i - 1], a) && trace[i] == Step(trace[i - 1], a);
      StepKeepsInv(trace[i - 1], before, a);
      chain := ChainAfter(trace[i - 1], before, a);
    }
  }

  /** What was popped is the first part of what was pushed, in the order of the exchanges on produce_end. */
  lemma PoppedInExchangeOrder<T(!new)>(trace: seq<State<T>>, i: nat)
    requires IsRun(trace) && i < |trace|
    ensures trace[i].popped <= trace[i].pushed
  {
    var chain := RunInv(trace, i);
    var s := trace[i];
    assert s.pushed == s.popped + (InHand(s) + Items(s.value, chain));
  }

  /** Nothing is lost or made up: pushed items are the popped ones, the one in hand and those still chained. */
  lemma ItemsConserved<T(!new)>(trace: seq<State<T>>, i: nat)
    requires IsRun(trace) && i < |trace|
    ensures exists chain: seq<Ptr> ::
      && chain != [] && chain[0] == trace[i].consumeEnd && chain[|chain| - 1] == trace[i].produceEnd && Distinct(chain)
      && trace[i].pushed == trace[i].popped + InHand(trace[i]) + Items(trace[i].value, chain)
      && trace[i].next.Keys == (set p | p in chain) + {STUB} + Held(trace[i].consumer)
  {
    var s := trace[i];
    var chain := RunInv(trace, i);
    forall p: Ptr ensures p in s.next.Keys <==> p in (set p | p in chain) + {STUB} + Held(s.consumer) {
      assert MemoryAt(s, chain, p);
    }
    assert s.next.Keys == (set p | p in chain) + {STUB} + Held(s.consumer);
  }

  /** No step of any run reads or writes a node that is not allocated. */
  lemma NoUseAfterFree<T(!new)>(trace: seq<State<T>>, i: nat, a: Action<T>)
    requires IsRun(trace) && i < |trace| && Enabled(trace[i], a)
    ensures Touched(trace[i], a) <= trace[i].next.Keys
  {
    var s := trace[i];
    var chain := RunInv(trace, i);
    ChainAllocated(s, chain);
    assert MemoryAt(s, chain, STUB);
    assert chain[0] in chain;
    match a
    case Exchange(_, _, _) =>
    case Link(p) => UnlinkedPlace(s.next, chain, s.producers[p].prev, s.producers[p].node);
    case Consume =>
      if s.consumer.LinkStub? {
        UnlinkedPlace(s.next, chain, s.consumer.prev, STUB);
      }
  }

  /** In every run the stub is exchanged into the queue only while it is not in the chain, so it never occurs twice. */
  lemma StubRecycledOnce<T(!new)>(trace: seq<State<T>>, i: nat) returns (chain: seq<Ptr>)
    requires IsRun(trace) && i < |trace|
    ensures Inv(trace[i], chain) && chain[0] == trace[i].consumeEnd && chain[|chain| - 1] == trace[i].produceEnd
    ensures multiset(chain)[STUB] <= 1
    ensures trace[i].consumer.ResetStub? || trace[i].consumer.ExchangeStub? ==> STUB !in chain
  {
    chain := RunInv(trace, i);
    DistinctMultiplicity(chain, STUB);
  }

  lemma {:induction false} DistinctMultiplicity(chain: seq<Ptr>, p: Ptr)
    requires Distinct(chain)
    ensures multiset(chain)[p] <= 1 && (p !in chain ==> multiset(chain)[p] == 0)
  {
    if chain != [] {
      TailMembers(chain);
      DistinctMultiplicity(chain[1..], p);
      assert chain == [chain[0]] + chain[1..];
    }
  }

  // ---------------------------------------------------------------- what a failed TryPop means

  /** The step that makes TryPop return false. */
  predicate Fails<T>(s: State<T>) {
    !s.consumer.Idle? && ConsumerStep(s).consumer.Idle? && ConsumerStep(s).result == Some(false)
  }

  lemma EmptyOrOverlapped<T>(s: State<T>, chain: seq<Ptr>)
    requires Inv(s, chain) && Fails(s)
    ensures s.overlapped || (chain == [STUB] && s.popped == s.pushed)
  {
    FirstLink(s, chain);
    if s.consumer.LoadFirst? {
      if |chain| > 1 {
        MissingSuccessor(s, chain);
      } else {
        assert Items(s.value, chain) == [];
      }
    }
  }

  /** In every run TryPop fails only on an empty queue or when some push was under way at some moment of the call. */
  lemma FailsOnlyEmptyOrOverlapped<T(!new)>(trace: seq<State<T>>, i: nat)
    requires IsRun(trace) && i < |trace| && Fails(trace[i])
    ensures trace[i].overlapped || trace[i].popped == trace[i].pushed
  {
    var chain := RunInv(trace, i);
    EmptyOrOverlapped(trace[i], chain);
  }

  /**
   * In every run, at a step at which TryPop fails while no push is between its exchange and its link, the queue is
   * empty exactly when it is not the load of produce_end that fails.
   */
  lemma FailureHonestIff<T(!new)>(trace: seq<State<T>>, i: nat)
    requires IsRun(trace) && i < |trace| && Fails(trace[i])
    ensures trace[i].producers == map[] ==> (trace[i].popped == trace[i].pushed <==> !trace[i].consumer.LoadTail?)
  {
    var s := trace[i];
    var chain := RunInv(trace, i);
    if s.producers == map[] {
      if s.consumer.LoadTail? {
        ChainAllocated(s, chain);
        assert chain[0] in chain;
      } else if |chain| > 1 {
        MissingSuccessor(s, chain);
      } else {
        assert Items(s.value, chain) == [];
      }
    }
  }

  /** Every call of TryPop ends after a bounded number of its own steps, whatever the producers do. */
  function StepsLeft(c: Consumer): nat {
    match c
    case Idle => 0
    case Delete(_) => 1
    case Take(_) => 2
    case Advance(_, _) => 3
    case LoadThird(_) => 4
    case LinkStub(_, _) => 5
    case ExchangeStub(_) => 6
    case ResetStub(_) => 7
    case LoadTail(_) => 8
    case LoadSecond(_) => 9
    case SkipStub(_) => 10
    case LoadFirst(_) => 11
  }

  lemma TryPopWaitFree<T>(s: State<T>, a: Action<T>)
    requires Enabled(s, a) && !s.consumer.Idle?
    ensures a.Consume? ==> StepsLeft(Step(s, a).consumer) < StepsLeft(s.consumer)
    ensures !a.Consume? ==> Step(s, a).consumer == s.consumer
  {
  }

  /** A run of steps, one action after the other. */
  function Exec<T>(s: State<T>, actions: seq<Action<T>>): Option<State<T>>
    decreases |actions|
  {
    if actions == [] then Some(s)
    else if Enabled(s, actions[0]) then Exec(Step(s, actions[0]), actions[1..])
    else None
  }

  /**
   * TryPop can fail although the queue holds items and no push is under way at that moment: the push started and
   * finished between the consumer's load of the next pointer and its load of produce_end.
   */
  lemma FailsBetweenPushes()
    ensures exists actions: seq<Action<int>> :: var s := Exec(Init(), actions);
      s.Some? && Fails(s.value) && s.value.producers == map[] && s.value.popped == [] && s.value.pushed == [7, 8]
  {
    var s0: State<int> := Init();
    var s1 := Step(s0, Exchange(0, 7, 1));
    var s2 := Step(s1, Link(0));
    var s3 := ConsumerStep(s2);
    var s4 := ConsumerStep(s3);
    var s5 := ConsumerStep(s4);
    var s6 := ConsumerStep(s5);
    assert s6.consumer == LoadTail(1);
    var s7 := Step(s6, Exchange(0, 8, 2));
    var s8 := Step(s7, Link(0));
    var l8: seq<Action<int>> := [];
    var l7 := ExecStep(s7, Link(0), l8);
    var l6 := ExecStep(s6, Exchange(0, 8, 2), l7);
    var l5 := ExecStep(s5, Consume, l6);
    var l4 := ExecStep(s4, Consume, l5);
    var l3 := ExecStep(s3, Consume, l4);
    var l2 := ExecStep(s2, Consume, l3);
    var l1 := ExecStep(s1, Link(0), l2);
    var l0 := ExecStep(s0, Exchange(0, 7, 1), l1);
    assert Exec(s0, l0) == Some(s8);
  }

  lemma ExecStep<T>(s: State<T>, a: Action<T>, rest: seq<Action<T>>) returns (actions: seq<Action<T>>)
    requires Enabled(s, a)
    ensures Exec(s, actions) == Exec(Step(s, a), rest)
  {
    actions := [a] + rest;
    assert actions[1..] == rest;
  }

  // ---------------------------------------------------------------- draining without producers

  /**
   * One call of TryPop while no push is under way: it fails exactly when the queue is empty, else pops the oldest item.
   */
  method TryPopAlone<T>(s: State<T>, ghost chain: seq<Ptr>) returns (s': State<T>, ok: bool, ghost chain': seq<Ptr>)
    requires Inv(s, chain) && s.consumer.Idle? && s.producers == map[]
    ensures Inv(s', chain') && s'.consumer.Idle? && s'.producers == map[] && s'.pushed == s.pushed
    ensures ok <==> |s.popped| < |s.pushed|
    ensures if ok then s'.popped == s.pushed[..|s.popped| + 1]
            else s'.popped == s.popped == s.pushed && chain' == [STUB]
  {
    s', chain' := ConsumerStep(s), chain;
    StepKeepsInv(s, chain, Consume);
    while !s'.consumer.Idle?
      invariant Inv(s', chain') && s'.producers == map[] && s'.pushed == s.pushed && !s'.overlapped
      invariant s'.consumer.Idle? ==>
                s'.result.Some? && (!s'.result.value ==> chain' == [STUB] && s'.popped == s'.pushed)
      invariant s'.consumer.Delete? || (s'.consumer.Idle? && s'.result == Some(true)) ==>
        |s'.popped| == |s.popped| + 1
      invariant !s'.consumer.Delete? && !(s'.consumer.Idle? && s'.result == Some(true)) ==> s'.popped == s.popped
      decreases StepsLeft(s'.consumer)
    {
      TryPopWaitFree(s', Consume);
      if Fails(s') {
        EmptyOrOverlapped(s', chain');
      }
      StepKeepsInv(s', chain', Consume);
      s', chain' := ConsumerStep(s'), ChainAfter(s', chain', Consume);
    }
    ok := s'.result == Some(true);
  }

  /** A Drain during which no push is under way ends, having handed over every item in order, and frees every node. */
  method DrainAlone<T>(s: State<T>, ghost chain: seq<Ptr>) returns (s': State<T>, count: nat, ghost chain': seq<Ptr>)
    requires Inv(s, chain) && s.consumer.Idle? && s.producers == map[]
    ensures Inv(s', chain') && s'.pushed == s.pushed && s'.popped == s.pushed && count == |s.pushed| - |s.popped|
    ensures s'.next.Keys == {STUB} && s'.value == map[]
  {
    s', count, chain' := s, 0, chain;
    var ok := true;
    while ok
      invariant Inv(s', chain') && s'.consumer.Idle? && s'.producers == map[] && s'.pushed == s.pushed
      invariant |s'.popped| == |s.popped| + count && |s'.popped| <= |s'.pushed|
      invariant !ok ==> s'.popped == s'.pushed && chain' == [STUB]
      decreases |s'.pushed| - |s'.popped|, ok
    {
      s', ok, chain' := TryPopAlone(s', chain');
      if ok {
        count := count + 1;
      }
    }
    forall p: Ptr ensures (p in s'.next <==> p == STUB) && p !in s'.value {
      assert MemoryAt(s', chain', p);
    }
    assert s'.value.Keys == {};
  }
}
