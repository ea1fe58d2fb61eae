/** The pass end to end: a deferring greedy, then improving swaps in place. */
module Ordering {
  import opened Common
  import opened Adjacency
  import opened Constrain
  import opened Deferral
  import opened SwapSearch

  // ---- specification -------------------------------------------------------

  ghost function BlockedIn(p: Pass): Block {
    (out: seq<nat>, cand: nat) => p.Valid() && p.Indexes(out) && cand < |p.items| && p.Blocked(out, cand)
  }

  ghost function CountIn(p: Pass): Objective {
    (order: seq<nat>) => if p.Valid() && p.Indexes(order) then p.Violations(order) else 0
  }

  ghost function MarkedIn(p: Pass): Marked {
    (order: seq<nat>, i: nat) => p.Valid() && p.Indexes(order) && i < |order| && p.Violating(order, i)
  }

  /** The order the greedy leaves. */
  ghost function GreedyOrder(p: Pass): seq<nat> {
    Greedy(BlockedIn(p), [], Range(|p.items|))
  }

  /** The order the whole pass leaves. */
  ghost function Ordered(p: Pass): seq<nat> {
    if Bound(p.limits).Unconstrained() || |p.items| == 0 then Range(|p.items|)
    else Repaired(CountIn(p), MarkedIn(p), GreedyOrder(p), MAX_REPAIR_ROUNDS)
  }

  lemma IndexesTransfer(p: Pass, a: seq<nat>, b: seq<nat>)
    requires p.Indexes(a) && multiset(a) == multiset(b)
    ensures p.Indexes(b)
  {
    forall k | 0 <= k < |b|
      ensures b[k] < |p.items|
    {
      assert b[k] in multiset(b);
      assert b[k] in a;
    }
  }

  // ---- methods -------------------------------------------------------------

  method PickNext(p: Pass, bound: Reach, out: seq<nat>, pending: seq<nat>) returns (pick: nat)
    requires p.Valid() && p.Indexes(out) && p.Indexes(pending) && pending != []
    requires Bounds(bound, p.limits)
    ensures pick == Pick(BlockedIn(p), out, pending)
  {
    for k := 0 to |pending|
      invariant Scan(BlockedIn(p), out, pending, 0) == Scan(BlockedIn(p), out, pending, k)
    {
      var blocked := Violates(p, bound, out, pending[k]);
      if !blocked {
        return k;
      }
    }
    return 0;
  }

  /** Repeatedly takes the first pending candidate that clashes with nothing before it. */
  method DeferringGreedy(p: Pass, bound: Reach) returns (out: seq<nat>)
    requires p.Valid() && Bounds(bound, p.limits)
    ensures p.Indexes(out)
    ensures out == GreedyOrder(p)
  {
    var pending := Range(|p.items|);
    out := [];
    while pending != []
      invariant p.Indexes(out) && p.Indexes(pending)
      invariant Greedy(BlockedIn(p), out, pending) == GreedyOrder(p)
      decreases |pending|
    {
      var pick := PickNext(p, bound, out, pending);
      out, pending := out + [pending[pick]], Without(pending, pick);
    }
  }

  method SwapInPlace(order: array<nat>, i: nat, j: nat)
    requires i < order.Length && j < order.Length
    modifies order
    ensures order[..] == Swap(old(order[..]), i, j)
  {
    order[i], order[j] := order[j], order[i];
  }

  /** Swapping twice is no swap, and a swap keeps the order's indices in range. */
  lemma SwapBack(p: Pass, order: seq<nat>, i: nat, j: nat)
    requires i < |order| && j < |order| && p.Indexes(order)
    ensures p.Indexes(Swap(order, i, j)) && Swap(Swap(order, i, j), i, j) == order
  {
  }

  /** What the search does next at a clashing position `i` and partner `j`. */
  ghost function SearchAt(p: Pass, order: seq<nat>, i: nat, j: nat): Option<(nat, nat)>
    requires i <= |order| && j <= |order|
  {
    FirstSwap(CountIn(p), MarkedIn(p), order, i, j)
  }

  /** Swapping `i` and `j` lowers the count. */
  ghost predicate Gains(p: Pass, order: seq<nat>, i: nat, j: nat)
    requires p.Valid() && p.Indexes(order) && i < |order| && j < |order|
  {
    SwapBack(p, order, i, j);
    i != j && p.Violations(Swap(order, i, j)) < p.Violations(order)
  }

  lemma SearchPartners(p: Pass, order: seq<nat>, i: nat, partner: nat)
    requires p.Valid() && p.Indexes(order) && i < |order| && p.Violating(order, i)
    requires partner <= |order|
    requires forall x: nat | x < partner :: !Gains(p, order, i, x)
    ensures partner == |order| ==> SearchAt(p, order, i, 0) == SearchAt(p, order, i + 1, 0)
    ensures partner < |order| && Gains(p, order, i, partner) ==> SearchAt(p, order, i, 0) == Some((i, partner))
  {
    forall x: nat | x < |order|
      ensures Gain(CountIn(p), order, i, x) == Gains(p, order, i, x)
    {
      SwapBack(p, order, i, x);
    }
    PartnersPassed(CountIn(p), MarkedIn(p), order, i, 0, partner);
  }

  /** Swaps `i` and `j`, keeping the swap only when it lowers the count. */
  method TrySwap(p: Pass, bound: Reach, order: array<nat>, i: nat, j: nat, best: nat)
    returns (improved: bool, count: nat)
    requires p.Valid() && p.Indexes(order[..]) && Bounds(bound, p.limits)
    requires i < order.Length && j < order.Length && i != j
    requires best == p.Violations(order[..])
    modifies order
    ensures p.Indexes(order[..]) && count == p.Violations(order[..])
    ensures improved <==> Gains(p, old(order[..]), i, j)
    ensures order[..] == if improved then Swap(old(order[..]), i, j) else old(order[..])
  {
    SwapBack(p, order[..], i, j);
    SwapInPlace(order, i, j);
    count := ViolationCount(p, bound, order[..]);
    improved := count < best;
    if !improved {
      SwapInPlace(order, i, j);
      count := best;
    }
  }

  /** Tries every partner for position `i`; the array is left as found when none improves. */
  method TryPartners(p: Pass, bound: Reach, order: array<nat>, i: nat, best: nat)
    returns (improved: bool, count: nat, ghost partner: nat)
    requires p.Valid() && p.Indexes(order[..]) && Bounds(bound, p.limits)
    requires i < order.Length
    requires best == p.Violations(order[..])
    modifies order
    ensures p.Indexes(order[..]) && count == p.Violations(order[..])
    ensures partner <= order.Length && improved == (partner < order.Length)
    ensures forall j: nat | j < partner :: !Gains(p, old(order[..]), i, j)
    ensures improved ==> Gains(p, old(order[..]), i, partner)
    ensures order[..] == if improved then Swap(old(order[..]), i, partner) else old(order[..])
  {
    ghost var was := order[..];
    for j := 0 to order.Length
      invariant order[..] == was
      invariant forall x: nat | x < j :: !Gains(p, was, i, x)
    {
      if i != j {
        improved, count := TrySwap(p, bound, order, i, j, best);
        if improved {
          return true, count, j;
        }
      }
    }
    return false, best, order.Length;
  }

  /** One round of the repair: the first improving swap, or none. */
  method ImproveOnce(p: Pass, bound: Reach, order: array<nat>, best: nat) returns (improved: bool, count: nat)
    requires p.Valid() && p.Indexes(order[..]) && Bounds(bound, p.limits)
    requires best == p.Violations(order[..])
    modifies order
    ensures p.Indexes(order[..]) && count == p.Violations(order[..])
    ensures match SearchAt(p, old(order[..]), 0, 0)
            case None => !improved && order[..] == old(order[..])
            case Some((i, j)) => improved && order[..] == Swap(old(order[..]), i, j)
  {
    ghost var was := order[..];
    ghost var first := SearchAt(p, was, 0, 0);
    var clashing := ViolatingPositions(p, bound, order[..]);
    SkipQuiet(p, was, clashing, 0, 0);
    for x := 0 to |clashing|
      invariant order[..] == was
      invariant first == SearchAt(p, was, NextListed(was, clashing, x), 0)
    {
      ghost var partner;
      improved, count, partner := TryPartners(p, bound, order, clashing[x], best);
      SearchPartners(p, was, clashing[x], partner);
      if improved {
        return;
      }
      SkipQuiet(p, was, clashing, clashing[x] + 1, x + 1);
    }
    return false, best;
  }

  ghost function NextListed(order: seq<nat>, list: seq<nat>, x: nat): nat
    requires x <= |list|
  {
    if x == |list| then |order| else list[x]
  }

  lemma UnlistedAreQuiet(p: Pass, order: seq<nat>, list: seq<nat>, lo: nat, x: nat)
    requires p.Valid() && p.Indexes(order) && ListsViolating(p, order, list, |order|)
    requires x <= |list| && lo == if x == 0 then 0 else list[x - 1] + 1
    ensures lo <= NextListed(order, list, x) <= |order|
    ensures forall i: nat | lo <= i < NextListed(order, list, x) :: !p.Violating(order, i)
  {
    hide ClashesAround, ClashesAhead, ClashesBack;
    forall i: nat | lo <= i < NextListed(order, list, x)
      ensures !p.Violating(order, i)
    {
    }
  }

  /** Positions that do not clash are passed over, so the search moves from one listed position to the next. */
  lemma SkipQuiet(p: Pass, order: seq<nat>, list: seq<nat>, lo: nat, x: nat)
    requires p.Valid() && p.Indexes(order) && ListsViolating(p, order, list, |order|)
    requires x <= |list| && lo == if x == 0 then 0 else list[x - 1] + 1
    ensures lo <= NextListed(order, list, x) <= |order|
    ensures SearchAt(p, order, lo, 0) == SearchAt(p, order, NextListed(order, list, x), 0)
  {
    UnlistedAreQuiet(p, order, list, lo, x);
    hide FirstSwap;
    SkipUnmarked(CountIn(p), MarkedIn(p), order, lo, NextListed(order, list, x));
  }

  lemma RepairedStep(p: Pass, order: seq<nat>, rounds: nat)
    requires p.Valid() && p.Indexes(order) && p.Violations(order) != 0 && rounds > 0
    ensures Repaired(CountIn(p), MarkedIn(p), order, rounds)
         == match SearchAt(p, order, 0, 0)
            case None => order
            case Some((i, j)) => Repaired(CountIn(p), MarkedIn(p), Swap(order, i, j), rounds - 1)
  {
  }

  method Repair(p: Pass, bound: Reach, order: array<nat>) returns (best: nat)
    requires p.Valid() && p.Indexes(order[..]) && Bounds(bound, p.limits)
    modifies order
    ensures p.Indexes(order[..])
    ensures order[..] == Repaired(CountIn(p), MarkedIn(p), old(order[..]), MAX_REPAIR_ROUNDS)
    ensures best == p.Violations(order[..])
  {
    ghost var goal := Repaired(CountIn(p), MarkedIn(p), order[..], MAX_REPAIR_ROUNDS);
    best := ViolationCount(p, bound, order[..]);
    for round := 0 to MAX_REPAIR_ROUNDS
      invariant p.Indexes(order[..])
      invariant best == p.Violations(order[..])
      invariant goal == Repaired(CountIn(p), MarkedIn(p), order[..], MAX_REPAIR_ROUNDS - round)
    {
      if best == 0 {
        return;
      }
      RepairedStep(p, order[..], MAX_REPAIR_ROUNDS - round);
      var improved;
      improved, best := ImproveOnce(p, bound, order, best);
      if !improved {
        return;
      }
    }
  }

  method OrderConstrained(p: Pass) returns (order: seq<nat>, unresolved: nat)
    requires p.Valid()
    ensures p.Indexes(order) && order == Ordered(p)
    ensures unresolved == p.Violations(order)
  {
    var total := |p.items|;
    var bound := Reach(0, 0);
    for k := 0 to |p.limits|
      invariant bound == Bound(p.limits[..k])
    {
      assert p.limits[..k + 1][..k] == p.limits[..k];
      bound := bound.Widen(p.limits[k].ReachOf());
    }
    assert p.limits[..|p.limits|] == p.limits;
    if bound.Unconstrained() || total == 0 {
      UnconstrainedIsClear(p, Range(total));
      return Range(total), 0;
    }
    var out := DeferringGreedy(p, bound);
    var a := new nat[|out|](i requires 0 <= i < |out| => out[i]);
    assert a[..] == out;
    unresolved := Repair(p, bound, a);
    order := a[..];
  }

  /** With every axis off, nothing can clash. */
  lemma UnconstrainedIsClear(p: Pass, order: seq<nat>)
    requires p.Valid() && p.Indexes(order)
    requires Bound(p.limits).Unconstrained()
    ensures p.Violations(order) == 0
  {
    var s := p.Stream(order);
    StreamBounded(p, order, Bound(p.limits));
    forall i: nat, j: nat | i < j < |s| && p.Seam() <= j
      ensures !Clash(s, i, j)
    {
    }
    assert ClashingPairs(s, p.Seam()) == {};
  }
}
