/** The matchmaking queue: greedy grouping of tickets, expiry and removal. */
module Matchmaker {

  /** A ticket; its query and properties matter only through which tickets accept which. */
  datatype Ticket = Ticket(id: nat, player: nat, handler: string, minCount: nat, maxCount: nat,
                           submittedAt: int, timeout: int, query: string)

  /** Whether the first ticket's query accepts the second one's properties. */
  type Accepts = (Ticket, Ticket) -> bool

  predicate Compatible(t: seq<Ticket>, acc: Accepts, i: nat, j: nat)
    requires i < |t| && j < |t|
  {
    t[j].handler == t[i].handler && acc(t[i], t[j]) && acc(t[j], t[i])
  }

  /** Tickets in [lo, hi) that are free and compatible with ticket `i`. */
  function Fitting(t: seq<Ticket>, used: seq<bool>, acc: Accepts, i: nat, lo: nat, hi: nat): nat
    requires |used| == |t| && i < |t| && lo <= hi <= |t|
  {
    if hi == lo then 0
    else Fitting(t, used, acc, i, lo, hi - 1) + if !used[hi - 1] && Compatible(t, acc, i, hi - 1) then 1 else 0
  }

  lemma {:induction false} FewerFit(t: seq<Ticket>, used: seq<bool>, used': seq<bool>, acc: Accepts, i: nat, lo: nat,
                                    hi: nat)
    requires |used| == |used'| == |t| && i < |t| && lo <= hi <= |t|
    requires forall k :: 0 <= k < |t| && used[k] ==> used'[k]
    ensures Fitting(t, used', acc, i, lo, hi) <= Fitting(t, used, acc, i, lo, hi)
  {
    if hi > lo { FewerFit(t, used, used', acc, i, lo, hi - 1); }
  }

  // ---------------------------------------------------------------- what a round of matching achieves

  /**
   * Lowest ticket first; the others are compatible with it; the size is within its bounds, except that two are not too
   * many: the upper bound is only looked at once a second ticket has been added.
   */
  ghost predicate GroupOk(t: seq<Ticket>, acc: Accepts, g: seq<nat>) {
    && |g| > 0 && (forall k :: 0 <= k < |g| ==> g[k] < |t|)
    && (forall a, b :: 0 <= a < b < |g| ==> g[a] < g[b])
    && (forall k :: 0 < k < |g| ==> Compatible(t, acc, g[0], g[k]))
    && t[g[0]].minCount <= |g| && (|g| <= 2 || |g| <= t[g[0]].maxCount)
  }

  /** Collecting stops at the upper bound, but not before there is a second ticket. */
  predicate Full(t: seq<Ticket>, g: seq<nat>)
    requires |g| > 0 && g[0] < |t|
  {
    |g| >= 2 && |g| >= t[g[0]].maxCount
  }

  /** No compatible ticket behind the leader is passed over, unless an earlier group has it or the group was full. */
  ghost predicate Earliest(t: seq<Ticket>, acc: Accepts, earlier: seq<seq<nat>>, g: seq<nat>) {
    && |g| > 0 && g[0] < |t|
    && forall k :: g[0] < k < |t| && Compatible(t, acc, g[0], k) && !InSome(earlier, k) ==>
         k in g || (Full(t, g) && k > g[|g| - 1])
  }

  ghost predicate InSome(groups: seq<seq<nat>>, k: nat) { exists a :: 0 <= a < |groups| && k in groups[a] }

  /** Groups do not share tickets, come in the order of their leaders, and each has the earliest partners. */
  ghost predicate GroupsOk(t: seq<Ticket>, acc: Accepts, creates: nat -> bool, groups: seq<seq<nat>>) {
    && (forall a :: 0 <= a < |groups| ==> GroupOk(t, acc, groups[a]) && creates(groups[a][0]))
    && (forall a :: 0 <= a < |groups| ==> Earliest(t, acc, groups[..a], groups[a]))
    && (forall a, b :: 0 <= a < b < |groups| ==> groups[a][0] < groups[b][0])
    && (forall a, b, k: nat :: 0 <= a < b < |groups| && k in groups[a] ==> k !in groups[b])
  }

  ghost predicate UsedExactly(t: seq<Ticket>, groups: seq<seq<nat>>, used: seq<bool>) {
    |used| == |t| && forall k :: 0 <= k < |t| ==> (used[k] <==> InSome(groups, k))
  }

  /** No match can be made for ticket `i` with the tickets that are free: too few, bounds that clash, or a failure. */
  ghost predicate Unmatchable(t: seq<Ticket>, acc: Accepts, creates: nat -> bool, used: seq<bool>, i: nat)
    requires |used| == |t| && i < |t|
  {
    || used[i] || !creates(i) || (t[i].minCount > 2 && t[i].minCount > t[i].maxCount)
    || 1 + Fitting(t, used, acc, i, i + 1, |t|) < t[i].minCount
  }

  /** No match could be made for ticket `i` when its turn came, after the groups with earlier leaders. */
  ghost predicate TurnedDown(t: seq<Ticket>, acc: Accepts, creates: nat -> bool, groups: seq<seq<nat>>, i: nat)
    requires i < |t| && forall a :: 0 <= a < |groups| ==> |groups[a]| > 0
  {
    exists n: nat, used: seq<bool> :: AtTurn(t, groups, i, n, used) && Unmatchable(t, acc, creates, used, i)
  }

  /** The first `n` groups are those with a leader before ticket `i`, and `used` is what they hold. */
  ghost predicate AtTurn(t: seq<Ticket>, groups: seq<seq<nat>>, i: nat, n: nat, used: seq<bool>)
    requires i < |t| && forall a :: 0 <= a < |groups| ==> |groups[a]| > 0
  {
    && n <= |groups| && (forall a :: 0 <= a < |groups| ==> (groups[a][0] < i <==> a < n))
    && UsedExactly(t, groups[..n], used) && !used[i]
  }

  /** The group holds ticket `i` and, in order, exactly the free tickets behind it and before `j` that fit. */
  ghost predicate Partners(t: seq<Ticket>, used: seq<bool>, acc: Accepts, i: nat, group: seq<nat>, j: nat)
    requires |used| == |t| && i < |t|
  {
    && i < j <= |t| && |group| == 1 + Fitting(t, used, acc, i, i + 1, j) && group[0] == i
    && (forall k :: 0 <= k < |group| ==> group[k] < j && !used[group[k]])
    && (forall a, b :: 0 <= a < b < |group| ==> group[a] < group[b])
    && (forall k :: 0 < k < |group| ==> Compatible(t, acc, i, group[k]))
    && (forall k :: i < k < j && !used[k] && Compatible(t, acc, i, k) ==> k in group)
  }

  lemma PartnersStep(t: seq<Ticket>, used: seq<bool>, acc: Accepts, i: nat, group: seq<nat>, j: nat)
    requires |used| == |t| && i < |t| && Partners(t, used, acc, i, group, j) && j < |t|
    ensures Partners(t, used, acc, i, group + if !used[j] && Compatible(t, acc, i, j) then [j] else [], j + 1)
  {
    var group' := group + if !used[j] && Compatible(t, acc, i, j) then [j] else [];
    forall k | i < k < j + 1 && !used[k] && Compatible(t, acc, i, k) ensures k in group' {
      if k < j {
        assert k in group;
      }
    }
  }

  /** The group that ticket `i` leads: the earliest free tickets that fit, up to its upper bound. */
  ghost predicate Leads(t: seq<Ticket>, used: seq<bool>, acc: Accepts, i: nat, group: seq<nat>)
    requires |used| == |t| && i < |t|
  {
    && |group| > 0 && group[0] == i && (forall k :: 0 <= k < |group| ==> group[k] < |t| && !used[group[k]])
    && (forall a, b :: 0 <= a < b < |group| ==> group[a] < group[b])
    && (forall k :: 0 < k < |group| ==> Compatible(t, acc, i, group[k]))
    && (|group| <= 2 || |group| <= t[i].maxCount)
    && (Full(t, group) || |group| == 1 + Fitting(t, used, acc, i, i + 1, |t|))
    && (forall k :: i < k < |t| && !used[k] && Compatible(t, acc, i, k) ==>
          k in group || (Full(t, group) && k > group[|group| - 1]))
  }

  /** Collecting ends with the last ticket, or when the one just added fills the group. */
  lemma PartnersLead(t: seq<Ticket>, used: seq<bool>, acc: Accepts, i: nat, group: seq<nat>, j: nat)
    requires |used| == |t| && i < |t| && Partners(t, used, acc, i, group, j)
    requires |group| <= 2 || |group| <= t[i].maxCount
    requires j == |t| || (Full(t, group) && group[|group| - 1] == j - 1)
    ensures Leads(t, used, acc, i, group)
  {
  }

  lemma PartnersStart(t: seq<Ticket>, used: seq<bool>, acc: Accepts, i: nat)
    requires |used| == |t| && i < |t| && !used[i]
    ensures Partners(t, used, acc, i, [i], i + 1)
  {
  }

  /** Collects the group that ticket `i` would lead. */
  method FormGroup(t: seq<Ticket>, used: seq<bool>, acc: Accepts, i: nat) returns (group: seq<nat>)
    requires |used| == |t| && i < |t| && !used[i]
    ensures Leads(t, used, acc, i, group)
  {
    group := [i];
    PartnersStart(t, used, acc, i);
    var j := i + 1;
    while j < |t|
      invariant Partners(t, used, acc, i, group, j) && (|group| < 2 || |group| < t[i].maxCount)
    {
      PartnersStep(t, used, acc, i, group, j);
      if !used[j] && t[j].handler == t[i].handler && acc(t[i], t[j]) && acc(t[j], t[i]) {
        group := group + [j];
        if |group| >= t[i].maxCount {
          PartnersLead(t, used, acc, i, group, j + 1);
          return;
        }
      } else {
        assert group + [] == group;
      }
      j := j + 1;
    }
    PartnersLead(t, used, acc, i, group, j);
  }

  method MarkUsed(used: seq<bool>, group: seq<nat>) returns (used': seq<bool>)
    requires forall k :: 0 <= k < |group| ==> group[k] < |used|
    ensures |used'| == |used| && forall k :: 0 <= k < |used| ==> (used'[k] <==> used[k] || k in group)
  {
    used' := used;
    for a := 0 to |group|
      invariant |used'| == |used| && forall k :: 0 <= k < |used| ==> (used'[k] <==> used[k] || k in group[..a])
    {
      used' := used'[group[a] := true];
    }
    assert group[..|group|] == group;
  }

  /** A group is added: the groups stay good, apart and in order. */
  lemma AddGroup(t: seq<Ticket>, acc: Accepts, creates: nat -> bool, groups: seq<seq<nat>>, used: seq<bool>,
                 g: seq<nat>)
    requires GroupsOk(t, acc, creates, groups) && UsedExactly(t, groups, used) && GroupOk(t, acc, g) && creates(g[0])
    requires Leads(t, used, acc, g[0], g)
    requires forall a :: 0 <= a < |groups| ==> groups[a][0] < g[0]
    ensures GroupsOk(t, acc, creates, groups + [g])
  {
    var all := groups + [g];
    forall a, k: nat | 0 <= a < |groups| && k in groups[a] ensures k !in g {
      if k in g {
        assert GroupOk(t, acc, groups[a]) && InSome(groups, k);
      }
    }
    forall a | 0 <= a < |all| ensures Earliest(t, acc, all[..a], all[a]) {
      assert all[..a] == groups[..a];
      assert groups[..|groups|] == groups;
    }
  }

  lemma AddUsed(t: seq<Ticket>, groups: seq<seq<nat>>, used: seq<bool>, g: seq<nat>, used': seq<bool>)
    requires UsedExactly(t, groups, used)
    requires |used'| == |used| && forall k :: 0 <= k < |used| ==> (used'[k] <==> used[k] || k in g)
    ensures UsedExactly(t, groups + [g], used')
  {
    var all := groups + [g];
    forall k | 0 <= k < |t| ensures used'[k] <==> InSome(all, k) {
      if InSome(groups, k) {
        var a :| 0 <= a < |groups| && k in groups[a];
        assert k in all[a];
      }
      if k in g { assert k in all[|groups|]; }
      if InSome(all, k) {
        var a :| 0 <= a < |all| && k in all[a];
        assert a < |groups| ==> k in groups[a];
      }
    }
  }

  /** A ticket that was turned down stays so when a later leader gets a group. */
  lemma StillTurnedDown(t: seq<Ticket>, acc: Accepts, creates: nat -> bool, groups: seq<seq<nat>>, g: seq<nat>, i: nat)
    requires i < |t| && (forall a :: 0 <= a < |groups| ==> |groups[a]| > 0) && |g| > 0 && i <= g[0]
    requires TurnedDown(t, acc, creates, groups, i)
    ensures TurnedDown(t, acc, creates, groups + [g], i)
  {
    var n: nat, used: seq<bool> :| AtTurn(t, groups, i, n, used) && Unmatchable(t, acc, creates, used, i);
    assert (groups + [g])[..n] == groups[..n];
    assert AtTurn(t, groups + [g], i, n, used);
  }

  lemma StillUnmatchable(t: seq<Ticket>, acc: Accepts, creates: nat -> bool, used: seq<bool>, used': seq<bool>, i: nat)
    requires |used| == |used'| == |t| && i < |t| && Unmatchable(t, acc, creates, used, i)
    requires forall k :: 0 <= k < |t| && used[k] ==> used'[k]
    ensures Unmatchable(t, acc, creates, used', i)
  {
    FewerFit(t, used, used', acc, i, i + 1, |t|);
  }

  /** Tickets before `i` have had their turn as leaders. */
  ghost predicate Served(t: seq<Ticket>, acc: Accepts, creates: nat -> bool, groups: seq<seq<nat>>, used: seq<bool>,
                         i: nat) {
    && i <= |t| && GroupsOk(t, acc, creates, groups) && UsedExactly(t, groups, used)
    && (forall a :: 0 <= a < |groups| ==> groups[a][0] < i)
    && (forall k :: 0 <= k < i ==> Unmatchable(t, acc, creates, used, k))
    && (forall k :: 0 <= k < i && !used[k] ==> TurnedDown(t, acc, creates, groups, k))
  }

  lemma ServeWithGroup(t: seq<Ticket>, acc: Accepts, creates: nat -> bool, groups: seq<seq<nat>>, used: seq<bool>,
                       i: nat, g: seq<nat>, used': seq<bool>)
    requires Served(t, acc, creates, groups, used, i) && GroupsOk(t, acc, creates, groups + [g])
    requires i < |t| && |g| > 0 && g[0] == i && UsedExactly(t, groups + [g], used')
    requires forall k :: 0 <= k < |used| ==> (used'[k] <==> used[k] || k in g)
    ensures Served(t, acc, creates, groups + [g], used', i + 1)
  {
    assert g[0] in g;
    AllStillUnmatchable(t, acc, creates, used, used', i);
    AllStillTurnedDown(t, acc, creates, groups, g, used, i);
  }

  lemma AllStillTurnedDown(t: seq<Ticket>, acc: Accepts, creates: nat -> bool, groups: seq<seq<nat>>, g: seq<nat>,
                           used: seq<bool>, i: nat)
    requires i <= |t| == |used| && (forall a :: 0 <= a < |groups| ==> |groups[a]| > 0) && |g| > 0 && i <= g[0]
    requires forall k :: 0 <= k < i && !used[k] ==> TurnedDown(t, acc, creates, groups, k)
    ensures forall k :: 0 <= k < i && !used[k] ==> TurnedDown(t, acc, creates, groups + [g], k)
  {
    forall k | 0 <= k < i && !used[k] ensures TurnedDown(t, acc, creates, groups + [g], k) {
      StillTurnedDown(t, acc, creates, groups, g, k);
    }
  }

  lemma AllStillUnmatchable(t: seq<Ticket>, acc: Accepts,
                            creates: nat -> bool, used: seq<bool>, used': seq<bool>, i: nat)
    requires |used| == |used'| == |t| && i <= |t|
    requires forall k :: 0 <= k < i ==> Unmatchable(t, acc, creates, used, k)
    requires forall k :: 0 <= k < |t| && used[k] ==> used'[k]
    ensures forall k :: 0 <= k < i ==> Unmatchable(t, acc, creates, used', k)
  {
    forall k | 0 <= k < i ensures Unmatchable(t, acc, creates, used', k) {
      StillUnmatchable(t, acc, creates, used, used', k);
    }
  }

  lemma ServeWithout(t: seq<Ticket>, acc: Accepts, creates: nat -> bool, groups: seq<seq<nat>>, used: seq<bool>, i: nat)
    requires Served(t, acc, creates, groups, used, i) && i < |t| && Unmatchable(t, acc, creates, used, i)
    ensures Served(t, acc, creates, groups, used, i + 1)
  {
    if !used[i] {
      assert groups[..|groups|] == groups;
      assert AtTurn(t, groups, i, |groups|, used);
    }
  }

  /** A whole round over at least two tickets; `creates(i)` says whether a match for leader `i` can be created. */
  method MatchRound(t: seq<Ticket>, acc: Accepts, creates: nat -> bool) returns (groups: seq<seq<nat>>, used: seq<bool>)
    ensures GroupsOk(t, acc, creates, groups) && UsedExactly(t, groups, used)
    ensures forall i :: 0 <= i < |t| ==> Unmatchable(t, acc, creates, used, i)
    ensures RoundOf(t, acc, creates, groups)
  {
    groups, used := [], seq(|t|, _ => false);
    var i := 0;
    while i < |t|
      invariant Served(t, acc, creates, groups, used, i)
    {
      if used[i] {
        ServeWithout(t, acc, creates, groups, used, i);
      } else {
        var group := FormGroup(t, used, acc, i);
        if |group| >= t[i].minCount && creates(i) {
          var used' := MarkUsed(used, group);
          AddGroup(t, acc, creates, groups, used, group);
          AddUsed(t, groups, used, group, used');
          ServeWithGroup(t, acc, creates, groups, used, i, group, used');
          groups, used := groups + [group], used';
        } else {
          ServeWithout(t, acc, creates, groups, used, i);
        }
      }
      i := i + 1;
    }
  }

  // ---------------------------------------------------------------- a round has one outcome

  /** The outcome of a round: good groups, and every ticket in none of them was turned down. */
  ghost predicate RoundOf(t: seq<Ticket>, acc: Accepts, creates: nat -> bool, groups: seq<seq<nat>>) {
    && GroupsOk(t, acc, creates, groups)
    && forall i: nat :: i < |t| && !InSome(groups, i) ==> TurnedDown(t, acc, creates, groups, i)
  }

  /** A group has no more members than tickets that fit its leader. */
  lemma {:induction false} MembersFit(t: seq<Ticket>, used: seq<bool>, acc: Accepts, g: seq<nat>, hi: nat)
    requires |used| == |t| && |g| > 0 && g[0] < hi <= |t|
    requires forall a, b :: 0 <= a < b < |g| ==> g[a] < g[b]
    requires forall k :: 0 <= k < |g| ==> g[k] < hi && !used[g[k]]
    requires forall k :: 0 < k < |g| ==> Compatible(t, acc, g[0], g[k])
    ensures |g| <= 1 + Fitting(t, used, acc, g[0], g[0] + 1, hi)
    decreases hi
  {
    var n := |g| - 1;
    if n > 0 {
      MembersFit(t, used, acc, if g[n] == hi - 1 then g[..n] else g, hi - 1);
    }
  }

  lemma {:induction false} SamePrefix(t: seq<Ticket>, acc: Accepts, earlier: seq<seq<nat>>, g: seq<nat>, h: seq<nat>,
                                      n: nat)
    requires GroupOk(t, acc, g) && GroupOk(t, acc, h) && g[0] == h[0] && n <= |g| && n <= |h|
    requires Earliest(t, acc, earlier, g) && Earliest(t, acc, earlier, h)
    requires forall k :: 0 <= k < |g| ==> !InSome(earlier, g[k])
    requires forall k :: 0 <= k < |h| ==> !InSome(earlier, h[k])
    ensures forall k :: 0 <= k < n ==> g[k] == h[k]
  {
    if n > 1 {
      SamePrefix(t, acc, earlier, g, h, n - 1);
      NextNotLater(t, acc, earlier, g, h, n - 1);
      NextNotLater(t, acc, earlier, h, g, n - 1);
    }
  }

  lemma NextNotLater(t: seq<Ticket>, acc: Accepts, earlier: seq<seq<nat>>, g: seq<nat>, h: seq<nat>, n: nat)
    requires GroupOk(t, acc, g) && GroupOk(t, acc, h) && 0 < n < |g| && n < |h|
    requires Earliest(t, acc, earlier, h) && !InSome(earlier, g[n])
    requires forall k :: 0 <= k < n ==> g[k] == h[k]
    ensures h[n] <= g[n]
  {
    assert Compatible(t, acc, g[0], g[n]);
    assert forall k :: 0 <= k < n ==> h[k] == g[k] < g[n];
    if g[n] in h {
      var m :| 0 <= m < |h| && h[m] == g[n];
      assert m >= n;
    }
  }

  /** If one collection goes on where the other stopped, the other was full. */
  lemma ShorterIsFull(t: seq<Ticket>, acc: Accepts, earlier: seq<seq<nat>>, g: seq<nat>, h: seq<nat>)
    requires Earliest(t, acc, earlier, g) && |g| < |h| && h[|g|] < |t| && h[0] < |t|
    requires (forall k :: 0 <= k < |g| ==> g[k] == h[k]) && forall a, b :: 0 <= a < b < |h| ==> h[a] < h[b]
    requires Compatible(t, acc, h[0], h[|g|]) && !InSome(earlier, h[|g|])
    ensures Full(t, g)
  {
    assert forall k :: 0 <= k < |g| ==> g[k] < h[|g|];
  }

  lemma NotLonger(t: seq<Ticket>, acc: Accepts, earlier: seq<seq<nat>>, g: seq<nat>, h: seq<nat>)
    requires GroupOk(t, acc, g) && GroupOk(t, acc, h) && Earliest(t, acc, earlier, g) && g[0] == h[0]
    requires forall k :: 0 <= k < |g| && k < |h| ==> g[k] == h[k]
    requires forall k :: 0 <= k < |h| ==> !InSome(earlier, h[k])
    ensures |h| <= |g|
  {
    if |g| < |h| {
      ShorterIsFull(t, acc, earlier, g, h);
    }
  }

  lemma SameGroup(t: seq<Ticket>, acc: Accepts, earlier: seq<seq<nat>>, g: seq<nat>, h: seq<nat>)
    requires GroupOk(t, acc, g) && GroupOk(t, acc, h) && g[0] == h[0]
    requires Earliest(t, acc, earlier, g) && Earliest(t, acc, earlier, h)
    requires forall k :: 0 <= k < |g| ==> !InSome(earlier, g[k])
    requires forall k :: 0 <= k < |h| ==> !InSome(earlier, h[k])
    ensures g == h
  {
    SamePrefix(t, acc, earlier, g, h, if |g| < |h| then |g| else |h|);
    NotLonger(t, acc, earlier, g, h);
    NotLonger(t, acc, earlier, h, g);
  }

  lemma MembersFree(t: seq<Ticket>, acc: Accepts, creates: nat -> bool, groups: seq<seq<nat>>, n: nat, k: nat)
    requires GroupsOk(t, acc, creates, groups) && n < |groups| && k < |groups[n]|
    ensures !InSome(groups[..n], groups[n][k])
  {
    var x := groups[n][k];
    assert x in groups[n];
    forall a | 0 <= a < n ensures x !in groups[..n][a] {
      assert groups[..n][a] == groups[a];
    }
  }

  /** Whoever leads a group could be matched when its turn came. */
  lemma LeaderMatchable(t: seq<Ticket>, acc: Accepts, creates: nat -> bool, groups: seq<seq<nat>>, n: nat,
                        used: seq<bool>)
    requires GroupsOk(t, acc, creates, groups) && n < |groups| && UsedExactly(t, groups[..n], used)
    requires GroupOk(t, acc, groups[n])
    ensures !Unmatchable(t, acc, creates, used, groups[n][0])
  {
    var g := groups[n];
    forall k | 0 <= k < |g| ensures !used[g[k]] {
      MembersFree(t, acc, creates, groups, n, k);
    }
    MembersFit(t, used, acc, g, |t|);
  }

  /** The leader of a group could not have been passed over in another outcome with the same groups before. */
  lemma NotPassedOver(t: seq<Ticket>, acc: Accepts, creates: nat -> bool, groups: seq<seq<nat>>, other: seq<seq<nat>>,
                      n: nat)
    requires RoundOf(t, acc, creates, groups) && RoundOf(t, acc, creates, other) && n < |groups| && n <= |other|
    requires groups[..n] == other[..n]
    ensures n < |other| && other[n][0] <= groups[n][0]
  {
    var i := groups[n][0];
    assert GroupOk(t, acc, groups[n]);
    if n == |other| || other[n][0] > i {
      NotInOther(t, acc, creates, groups, other, n);
      assert TurnedDown(t, acc, creates, other, i);
      var m: nat, used: seq<bool> :| AtTurn(t, other, i, m, used) && Unmatchable(t, acc, creates, used, i);
      SameTurn(t, acc, creates, groups, other, n, m, used);
      LeaderMatchable(t, acc, creates, groups, n, used);
    }
  }

  lemma NotInOther(t: seq<Ticket>, acc: Accepts, creates: nat -> bool, groups: seq<seq<nat>>, other: seq<seq<nat>>,
                   n: nat)
    requires GroupsOk(t, acc, creates, groups) && GroupsOk(t, acc, creates, other) && n < |groups| && n <= |other|
    requires groups[..n] == other[..n] && (n == |other| || other[n][0] > groups[n][0])
    ensures !InSome(other, groups[n][0])
  {
    var i := groups[n][0];
    MembersFree(t, acc, creates, groups, n, 0);
    forall a | 0 <= a < |other| ensures i !in other[a] {
      if a < n {
        assert other[a] == other[..n][a];
      } else {
        assert GroupOk(t, acc, other[a]) && other[n][0] <= other[a][0];
      }
    }
  }

  lemma SameTurn(t: seq<Ticket>, acc: Accepts, creates: nat -> bool, groups: seq<seq<nat>>, other: seq<seq<nat>>,
                 n: nat, m: nat, used: seq<bool>)
    requires GroupsOk(t, acc, creates, groups) && GroupsOk(t, acc, creates, other) && n < |groups| && n <= |other|
    requires groups[..n] == other[..n] && (n == |other| || other[n][0] > groups[n][0])
    requires AtTurn(t, other, groups[n][0], m, used)
    ensures UsedExactly(t, groups[..n], used)
  {
    if n > 0 {
      assert other[..n][n - 1] == groups[..n][n - 1];
      assert other[n - 1][0] < groups[n][0];
    }
    assert m == n;
  }

  lemma {:induction false} SameGroups(t: seq<Ticket>, acc: Accepts, creates: nat -> bool, groups: seq<seq<nat>>,
                                      other: seq<seq<nat>>, n: nat)
    requires RoundOf(t, acc, creates, groups) && RoundOf(t, acc, creates, other) && n <= |groups|
    ensures n <= |other| && groups[..n] == other[..n]
  {
    if n > 0 {
      var k := n - 1;
      SameGroups(t, acc, creates, groups, other, k);
      NotPassedOver(t, acc, creates, groups, other, k);
      NotPassedOver(t, acc, creates, other, groups, k);
      forall m | 0 <= m < |groups[k]| ensures !InSome(groups[..k], groups[k][m]) {
        MembersFree(t, acc, creates, groups, k, m);
      }
      forall m | 0 <= m < |other[k]| ensures !InSome(groups[..k], other[k][m]) {
        MembersFree(t, acc, creates, other, k, m);
      }
      SameGroup(t, acc, groups[..k], groups[k], other[k]);
      assert groups[..n] == groups[..k] + [groups[k]] && other[..n] == other[..k] + [other[k]];
    }
  }

  /** What a round promises leaves no choice: there is only one outcome. */
  lemma RoundDetermined(t: seq<Ticket>, acc: Accepts, creates: nat -> bool, groups: seq<seq<nat>>,
                        other: seq<seq<nat>>)
    requires RoundOf(t, acc, creates, groups) && RoundOf(t, acc, creates, other)
    ensures groups == other
  {
    SameGroups(t, acc, creates, groups, other, |groups|);
    SameGroups(t, acc, creates, other, groups, |other|);
    assert groups[..|groups|] == groups && other[..|other|] == other;
  }

  // ---------------------------------------------------------------- when matching cannot succeed

  /** A ticket that asks for more players than it stops collecting at never leads a group. */
  lemma NeverLeads(t: seq<Ticket>, acc: Accepts, creates: nat -> bool, groups: seq<seq<nat>>, a: nat)
    requires GroupsOk(t, acc, creates, groups) && a < |groups|
    ensures groups[a][0] < |t|
    ensures t[groups[a][0]].minCount <= 2 || t[groups[a][0]].minCount <= t[groups[a][0]].maxCount
  {
  }

  lemma {:induction false} AllFit(t: seq<Ticket>, used: seq<bool>, acc: Accepts, i: nat, lo: nat, hi: nat)
    requires |used| == |t| && i < |t| && lo <= hi <= |t|
    requires forall k :: 0 <= k < |t| ==> !used[k] && Compatible(t, acc, i, k)
    ensures Fitting(t, used, acc, i, lo, hi) == hi - lo
  {
    if hi > lo { AllFit(t, used, acc, i, lo, hi - 1); }
  }

  /**
   * Why the bounds matter: tickets that all go together but ask for more than they collect are all left over, although
   * the first has all the partners it asks for.
   */
  lemma BoundsMatter(t: seq<Ticket>, acc: Accepts, creates: nat -> bool, groups: seq<seq<nat>>, used: seq<bool>)
    requires |t| > 0 && GroupsOk(t, acc, creates, groups) && UsedExactly(t, groups, used)
    requires forall k :: 0 <= k < |t| ==>
               Compatible(t, acc, 0, k) && 2 < t[k].minCount <= |t| && t[k].maxCount < t[k].minCount
    ensures groups == [] && 1 + Fitting(t, used, acc, 0, 1, |t|) >= t[0].minCount
  {
    if groups != [] {
      NeverLeads(t, acc, creates, groups, 0);
    }
    AllFit(t, used, acc, 0, 1, |t|);
  }

  /** A lone ticket is left over in any case: rightly so exactly when it asks for company. */
  lemma LoneTicketIff(t: seq<Ticket>, acc: Accepts, creates: nat -> bool)
    requires |t| == 1 && creates(0) && (t[0].minCount <= 2 || t[0].minCount <= t[0].maxCount)
    ensures Unmatchable(t, acc, creates, [false], 0) <==> t[0].minCount >= 2
  {
  }

  // ---------------------------------------------------------------- the queue

  /** The tickets that are not flagged, in order. */
  function Kept(t: seq<Ticket>, flags: seq<bool>): seq<Ticket>
    requires |flags| == |t|
  {
    if t == [] then []
    else
      var n := |t| - 1;
      Kept(t[..n], flags[..n]) + if flags[n] then [] else [t[n]]
  }

  ghost predicate IdsIncrease(t: seq<Ticket>, below: nat) {
    && (forall i :: 0 <= i < |t| ==> t[i].id < below)
    && forall i, j :: 0 <= i < j < |t| ==> t[i].id < t[j].id
  }

  /** Dropping tickets keeps the order of their ids. */
  lemma {:induction false} KeptIdsIncrease(t: seq<Ticket>, flags: seq<bool>, below: nat)
    requires |flags| == |t| && IdsIncrease(t, below)
    ensures IdsIncrease(Kept(t, flags), below)
  {
    if t != [] {
      var n := |t| - 1;
      KeptIdsIncrease(t[..n], flags[..n], t[n].id);
    }
  }

  /** A ticket is kept exactly when its flag is not set (ids tell tickets apart). */
  lemma {:induction false} KeptExactly(t: seq<Ticket>, flags: seq<bool>, k: nat, below: nat)
    requires |flags| == |t| && k < |t| && IdsIncrease(t, below)
    ensures t[k] in Kept(t, flags) <==> !flags[k]
    decreases |t|
  {
    var n := |t| - 1;
    if k < n {
      KeptExactly(t[..n], flags[..n], k, below);
    } else {
      KeptIdsIncrease(t[..n], flags[..n], t[n].id);
    }
  }

  /** Leader and partner have the same handler and accept each other. */
  ghost predicate Suit(acc: Accepts, leader: Ticket, partner: Ticket) {
    leader.handler == partner.handler && acc(leader, partner) && acc(partner, leader)
  }

  /** Partners suit their leader, and a ticket that suits it went to an earlier group, is in, or came too late. */
  lemma PartnersSuit(t: seq<Ticket>, acc: Accepts, creates: nat -> bool, groups: seq<seq<nat>>)
    requires GroupsOk(t, acc, creates, groups)
    ensures forall a, k :: 0 <= a < |groups| && 0 < k < |groups[a]| ==> Suit(acc, t[groups[a][0]], t[groups[a][k]])
    ensures forall a, k :: 0 <= a < |groups| && groups[a][0] < k < |t| && Suit(acc, t[groups[a][0]], t[k]) ==>
              k in groups[a] || InSome(groups[..a], k) || (Full(t, groups[a]) && k > groups[a][|groups[a]| - 1])
  {
    forall a, k | 0 <= a < |groups| && groups[a][0] < k < |t| && Suit(acc, t[groups[a][0]], t[k])
      ensures k in groups[a] || InSome(groups[..a], k) || (Full(t, groups[a]) && k > groups[a][|groups[a]| - 1])
    {
      assert Earliest(t, acc, groups[..a], groups[a]) && Compatible(t, acc, groups[a][0], k);
    }
    forall a, k | 0 <= a < |groups| && 0 < k < |groups[a]| ensures Suit(acc, t[groups[a][0]], t[groups[a][k]]) {
      assert GroupOk(t, acc, groups[a]) && Compatible(t, acc, groups[a][0], groups[a][k]);
    }
  }

  /** Where the bounds make sense, so does the size of every group. */
  lemma WithinBounds(t: seq<Ticket>, acc: Accepts, creates: nat -> bool, groups: seq<seq<nat>>)
    requires GroupsOk(t, acc, creates, groups)
    ensures forall a :: 0 <= a < |groups| ==>
              var leader := t[groups[a][0]];
              2 <= leader.minCount <= leader.maxCount ==> leader.minCount <= |groups[a]| <= leader.maxCount
  {
    forall a | 0 <= a < |groups|
      ensures var leader := t[groups[a][0]];
              2 <= leader.minCount <= leader.maxCount ==> leader.minCount <= |groups[a]| <= leader.maxCount
    {
      assert GroupOk(t, acc, groups[a]);
    }
  }

  lemma TooFewTickets(t: seq<Ticket>, acc: Accepts, creates: nat -> bool, used: seq<bool>)
    requires |t| < 2 && |used| == |t| && forall k :: 0 <= k < |t| ==> !used[k]
    ensures GroupsOk(t, acc, creates, []) && UsedExactly(t, [], used) && Kept(t, used) == t
    ensures forall i :: 0 <= i < |t| && t[i].minCount >= 2 ==> Unmatchable(t, acc, creates, used, i)
  {
    NoneFlagged(t, used);
  }

  class MatchmakerQueue {
    var tickets: seq<Ticket>
    var nextTicketId: nat

    ghost predicate Valid()
      reads this
    {
      IdsIncrease(tickets, nextTicketId)
    }

    constructor ()
      ensures Valid() && tickets == [] && nextTicketId == 1
    {
      tickets, nextTicketId := [], 1;
    }

    /** A ticket gets the next id, and the time of arrival if it carries none. */
    method HandleAddTicket(ticket: Ticket, now: int)
      requires Valid()
      modifies this
      ensures Valid() && nextTicketId == old(nextTicketId) + 1
      ensures var at := if ticket.submittedAt == 0 then now else ticket.submittedAt;
              tickets == old(tickets) + [ticket.(id := old(nextTicketId), submittedAt := at)]
    {
      var t := ticket.(id := nextTicketId);
      nextTicketId := nextTicketId + 1;
      if t.submittedAt == 0 {
        t := t.(submittedAt := now);
      }
      tickets := tickets + [t];
    }

    /** Keeps what is not flagged; the flags are what the removal loops test. */
    method Drop(flags: seq<bool>) returns (dropped: seq<Ticket>)
      requires Valid() && |flags| == |tickets|
      modifies this`tickets
      ensures Valid() && tickets == Kept(old(tickets), flags)
      ensures dropped == Kept(old(tickets), seq(|flags|, k requires 0 <= k < |flags| => !flags[k]))
    {
      var remaining: seq<Ticket> := [];
      dropped := [];
      ghost var inverse := seq(|flags|, k requires 0 <= k < |flags| => !flags[k]);
      var i := 0;
      while i < |tickets|
        invariant i <= |tickets| && tickets == old(tickets)
        invariant remaining == Kept(tickets[..i], flags[..i]) && dropped == Kept(tickets[..i], inverse[..i])
      {
        assert tickets[..i + 1][..i] == tickets[..i];
        assert flags[..i + 1][..i] == flags[..i] && inverse[..i + 1][..i] == inverse[..i];
        if flags[i] {
          dropped := dropped + [tickets[i]];
        } else {
          remaining := remaining + [tickets[i]];
        }
        i := i + 1;
      }
      assert tickets[..i] == tickets && flags[..i] == flags && inverse[..i] == inverse;
      KeptIdsIncrease(tickets, flags, nextTicketId);
      tickets := remaining;
    }

    method HandleRemoveTicket(ticketId: nat)
      requires Valid()
      modifies this`tickets
      ensures Valid()
      ensures var t := old(tickets); tickets == Kept(t, seq(|t|, k requires 0 <= k < |t| => t[k].id == ticketId))
    {
      var t := tickets;
      var _ := Drop(seq(|t|, k requires 0 <= k < |t| => t[k].id == ticketId));
    }

    method HandleRemoveByPlayer(player: nat)
      requires Valid()
      modifies this`tickets
      ensures Valid()
      ensures var t := old(tickets); tickets == Kept(t, seq(|t|, k requires 0 <= k < |t| => t[k].player == player))
    {
      var t := tickets;
      var _ := Drop(seq(|t|, k requires 0 <= k < |t| => t[k].player == player));
    }

    /** Tickets whose time is up are taken out and reported, each in order. */
    method ExpireTimeouts(now: int) returns (expired: seq<Ticket>)
      requires Valid()
      modifies this`tickets
      ensures Valid()
      ensures tickets == Kept(old(tickets), Late(old(tickets), now, true))
      ensures expired == Kept(old(tickets), Late(old(tickets), now, false))
      ensures forall t :: t in old(tickets) ==>
                && (t in tickets <==> now - t.submittedAt < t.timeout)
                && (t in expired <==> now - t.submittedAt >= t.timeout)
    {
      forall t | t in tickets
        ensures t in Kept(tickets, Late(tickets, now, true)) <==> now - t.submittedAt < t.timeout
        ensures t in Kept(tickets, Late(tickets, now, false)) <==> now - t.submittedAt >= t.timeout
      {
        var k :| 0 <= k < |tickets| && tickets[k] == t;
        KeptExactly(tickets, Late(tickets, now, true), k, nextTicketId);
        KeptExactly(tickets, Late(tickets, now, false), k, nextTicketId);
      }
      var flags := Late(tickets, now, true);
      assert Late(tickets, now, false) == seq(|flags|, k requires 0 <= k < |flags| => !flags[k]);
      expired := Drop(flags);
    }

    /** One round of matching; the groups are positions in the queue as it was. */
    method TryMatch(acc: Accepts, creates: nat -> bool) returns (groups: seq<seq<nat>>, ghost used: seq<bool>)
      requires Valid()
      modifies this`tickets
      ensures Valid() && GroupsOk(old(tickets), acc, creates, groups) && UsedExactly(old(tickets), groups, used)
      ensures forall a :: 0 <= a < |groups| ==>
                var leader := old(tickets)[groups[a][0]];
                2 <= leader.minCount <= leader.maxCount ==> leader.minCount <= |groups[a]| <= leader.maxCount
      ensures forall a, k :: 0 <= a < |groups| && 0 < k < |groups[a]| ==>
                Suit(acc, old(tickets)[groups[a][0]], old(tickets)[groups[a][k]])
      ensures tickets == Kept(old(tickets), used)
      ensures |old(tickets)| < 2 ==> groups == []
      ensures forall i :: 0 <= i < |old(tickets)| && (|old(tickets)| >= 2 || old(tickets)[i].minCount >= 2) ==>
                Unmatchable(old(tickets), acc, creates, used, i)
      ensures |old(tickets)| >= 2 ==> RoundOf(old(tickets), acc, creates, groups)
    {
      if |tickets| < 2 {
        groups, used := [], seq(|tickets|, _ => false);
        TooFewTickets(tickets, acc, creates, used);
        return;
      }
      var taken;
      groups, taken := MatchRound(tickets, acc, creates);
      used := taken;
      WithinBounds(tickets, acc, creates, groups);
      PartnersSuit(tickets, acc, creates, groups);
      var _ := Drop(taken);
    }
  }

  /** For each ticket, whether its time is up, or not up. */
  function Late(t: seq<Ticket>, now: int, up: bool): (flags: seq<bool>)
    ensures |flags| == |t|
  {
    seq(|t|, k requires 0 <= k < |t| => (now - t[k].submittedAt >= t[k].timeout) == up)
  }

  lemma {:induction false} NoneFlagged(t: seq<Ticket>, flags: seq<bool>)
    requires |flags| == |t| && forall k :: 0 <= k < |t| ==> !flags[k]
    ensures Kept(t, flags) == t
  {
    if t != [] {
      var n := |t| - 1;
      NoneFlagged(t[..n], flags[..n]);
      assert t == t[..n] + [t[n]];
    }
  }
}
