/** What the pass promises about every list: nothing is lost, nothing gets worse,
    and whenever the greedy is never forced its order is the least legal one. */
module OrderingLaws {
  import opened Adjacency
  import opened Constrain
  import opened Deferral
  import opened SwapSearch
  import opened Ordering

  ghost predicate Permutes(order: seq<nat>, n: nat) {
    multiset(order) == multiset(Range(n))
  }

  lemma PermutationIndexes(p: Pass, order: seq<nat>)
    requires Permutes(order, |p.items|)
    ensures p.Indexes(order) && |order| == |p.items|
  {
    IndexesTransfer(p, Range(|p.items|), order);
    assert |order| == |multiset(order)| == |multiset(Range(|p.items|))| == |Range(|p.items|)|;
  }

  lemma OrderedPermutes(p: Pass)
    ensures Permutes(GreedyOrder(p), |p.items|) && Permutes(Ordered(p), |p.items|)
    ensures p.Indexes(GreedyOrder(p)) && p.Indexes(Ordered(p))
  {
    GreedyPermutes(BlockedIn(p), [], Range(|p.items|));
    PermutationIndexes(p, GreedyOrder(p));
    PermutationIndexes(p, Ordered(p));
  }

  /** The pass airs exactly the items it was given, never leaves more clashes than the greedy did, and
      stops only where no swap of a clashing position helps, unless the greedy left so many clashes
      that the round limit ended the search. */
  lemma PassKeepsAndSettles(p: Pass)
    requires p.Valid()
    ensures Permutes(Ordered(p), |p.items|)
    ensures p.Indexes(Ordered(p)) && p.Indexes(GreedyOrder(p))
    ensures p.Violations(Ordered(p)) <= p.Violations(GreedyOrder(p))
    ensures p.Violations(GreedyOrder(p)) < MAX_REPAIR_ROUNDS ==>
      forall i: nat, j: nat | i < |p.items| && j < |p.items| && i != j ::
        |Ordered(p)| == |p.items| && p.Indexes(Swap(Ordered(p), i, j))
        && (p.Violating(Ordered(p), i) ==> p.Violations(Swap(Ordered(p), i, j)) >= p.Violations(Ordered(p)))
  {
    OrderedPermutes(p);
    var r := Ordered(p);
    PermutationIndexes(p, r);
    if Bound(p.limits).Unconstrained() || |p.items| == 0 {
      UnconstrainedIsClear(p, r);
    } else {
      RepairSettles(CountIn(p), MarkedIn(p), GreedyOrder(p), MAX_REPAIR_ROUNDS);
    }
    if p.Violations(GreedyOrder(p)) < MAX_REPAIR_ROUNDS {
      forall i: nat, j: nat | i < |p.items| && j < |p.items| && i != j
        ensures p.Indexes(Swap(r, i, j))
        ensures p.Violating(r, i) ==> p.Violations(Swap(r, i, j)) >= p.Violations(r)
      {
        SwapBack(p, r, i, j);
        if p.Violations(r) != 0 {
          assert NoGain(CountIn(p), MarkedIn(p), r, i, j);
        }
      }
    }
  }

  // ---- zero violations is clash-freedom ------------------------------------

  /** The count is zero exactly when nothing clashes, and exactly when no position is listed as clashing. */
  lemma ZeroIsClashFree(p: Pass, order: seq<nat>)
    requires p.Valid() && p.Indexes(order)
    ensures p.Violations(order) == 0 <==> ClashFree(p.Stream(order), p.Seam())
    ensures p.Violations(order) == 0 <==> forall i: nat | i < |order| :: !p.Violating(order, i)
  {
    var s, seam := p.Stream(order), p.Seam();
    var pairs := ClashingPairs(s, seam);
    if ClashFree(s, seam) {
      assert pairs == {};
    } else {
      var i: nat, j: nat :| i < j < |s| && seam <= j && Clash(s, i, j);
      assert (i as int, j as int) in pairs;
      assert p.Violating(order, if i < seam then j - seam else i - seam);
    }
  }

  /** What has been placed keeps its clashes whatever is placed after it. */
  lemma PrefixClashes(p: Pass, order: seq<nat>, k: nat, i: nat, j: nat)
    requires p.Valid() && p.Indexes(order) && k <= |order|
    requires i < j < p.Seam() + k
    ensures Clash(p.Stream(order[..k]), i, j) == Clash(p.Stream(order), i, j)
  {
    hide Clash, Pass.Stream;
    var s, t := p.Stream(order[..k]), p.Stream(order);
    forall x | i <= x <= j
      ensures s[x] == t[x + 0]
    {
    }
    ClashLocal(s, t, i, j, 0);
  }

  lemma FreeMeansNoClashBack(p: Pass, order: seq<nat>, k: nat)
    requires p.Valid() && p.Indexes(order) && k < |order|
    ensures FreeAt(BlockedIn(p), order, k) <==> !ClashesBack(p.Stream(order), 0, p.Seam() + k, p.Seam() + k)
  {
    var at := p.Seam() + k;
    var head := order[..k + 1];
    assert order[..k] + [order[k]] == head;
    forall i: nat | i < at
      ensures Clash(p.Stream(head), i, at) == Clash(p.Stream(order), i, at)
    {
      PrefixClashes(p, order, k + 1, i, at);
    }
    assert ClashesBack(p.Stream(head), 0, at, at) == ClashesBack(p.Stream(order), 0, at, at);
  }

  /** A list is clash-free exactly when every position was free to be placed after those before it. */
  lemma ClashFreeStepwise(p: Pass, order: seq<nat>)
    requires p.Valid() && p.Indexes(order)
    ensures ClashFree(p.Stream(order), p.Seam()) <==> forall k: nat | k < |order| :: FreeAt(BlockedIn(p), order, k)
  {
    var s := p.Stream(order);
    forall k: nat | k < |order|
      ensures FreeAt(BlockedIn(p), order, k) <==> !ClashesBack(s, 0, p.Seam() + k, p.Seam() + k)
    {
      FreeMeansNoClashBack(p, order, k);
    }
    if forall k: nat | k < |order| :: FreeAt(BlockedIn(p), order, k) {
      forall i: nat, j: nat | i < j < |s| && p.Seam() <= j
        ensures !Clash(s, i, j)
      {
        assert FreeAt(BlockedIn(p), order, j - p.Seam());
      }
    }
  }

  // ---- the least legal order -----------------------------------------------

  /** The greedy runs from end to end without ever taking a blocked candidate. */
  ghost predicate Unforced(p: Pass) {
    NeverForced(BlockedIn(p), [], Range(|p.items|))
  }

  /** Being forced even once always costs a clash: nothing placed later can undo it. */
  lemma UnforcedIsClashFree(p: Pass)
    requires p.Valid()
    ensures p.Indexes(GreedyOrder(p))
    ensures Unforced(p) <==> p.Violations(GreedyOrder(p)) == 0
  {
    OrderedPermutes(p);
    NeverForcedIsFree(BlockedIn(p), [], Range(|p.items|));
    ClashFreeStepwise(p, GreedyOrder(p));
    ZeroIsClashFree(p, GreedyOrder(p));
  }

  /** Wherever `a` first departs from `b`, it takes the smaller index. */
  ghost predicate LexLeast(a: seq<nat>, b: seq<nat>) {
    |a| == |b| && forall k: nat | k < |a| && a[..k] == b[..k] :: a[k] <= b[k]
  }

  /** An arrangement of the items with no clash anywhere, the seam included. */
  ghost predicate Legal(p: Pass, order: seq<nat>)
    requires p.Valid()
  {
    Permutes(order, |p.items|) && p.Indexes(order) && ClashFree(p.Stream(order), p.Seam())
  }

  /** When the greedy never runs out of free candidates, nothing is left unresolved, the repair changes
      nothing, and the order returned is the lexicographically least of all legal ones. */
  lemma UnforcedIsLeastLegal(p: Pass)
    requires p.Valid() && Unforced(p)
    ensures Ordered(p) == GreedyOrder(p) && Legal(p, Ordered(p))
    ensures p.Violations(Ordered(p)) == 0
    ensures forall legal | Legal(p, legal) :: LexLeast(Ordered(p), legal)
  {
    UnforcedIsClashFree(p);
    OrderedPermutes(p);
    if Bound(p.limits).Unconstrained() || |p.items| == 0 {
      UnconstrainedIsClear(p, Range(|p.items|));
      LegalIsUntouched(p);
    }
    ZeroIsClashFree(p, Ordered(p));
    forall legal | Legal(p, legal)
      ensures LexLeast(Ordered(p), legal)
    {
      GreedyBelowLegal(p, legal);
    }
  }

  lemma GreedyBelowLegal(p: Pass, legal: seq<nat>)
    requires p.Valid() && Unforced(p) && Legal(p, legal)
    ensures LexLeast(GreedyOrder(p), legal)
  {
    var r := GreedyOrder(p);
    OrderedPermutes(p);
    PermutationIndexes(p, legal);
    PermutationIndexes(p, r);
    ClashFreeStepwise(p, legal);
    forall k: nat | k < |r| && r[..k] == legal[..k]
      ensures r[k] <= legal[k]
    {
      GreedyTakesLeast(BlockedIn(p), [], Range(|p.items|), legal, k);
    }
  }

  /** An already legal list comes back as it went in. */
  lemma LegalIsUntouched(p: Pass)
    requires p.Valid() && p.Violations(Range(|p.items|)) == 0
    ensures Ordered(p) == Range(|p.items|) == GreedyOrder(p)
  {
    var r := Range(|p.items|);
    ZeroIsClashFree(p, r);
    ClashFreeStepwise(p, r);
    GreedyWalksLegal(BlockedIn(p), r, 0);
    assert r[..0] == [] && r[0..] == r;
  }

  // ---- the whole pass, step by step ------------------------------------------

  /** The item at `k` can follow `order[..k]` without a clash. */
  ghost predicate Fits(p: Pass, order: seq<nat>, k: nat, c: nat)
    requires p.Valid() && k <= |order| && p.Indexes(order[..k])
  {
    c < |p.items| && !p.Blocked(order[..k], c)
  }

  /** At `k`, where something not yet placed fits, the first in list order that does is taken; where nothing does, the
      first there is. */
  ghost predicate FirstThatFits(p: Pass, order: seq<nat>, k: nat)
    requires p.Valid() && p.Indexes(order) && k < |order|
  {
    && order[k] !in order[..k]
    && if Fits(p, order, k, order[k]) then
         forall c: nat | c < order[k] && c !in order[..k] :: !Fits(p, order, k, c)
       else
         forall c: nat | c < |p.items| && c !in order[..k] :: !Fits(p, order, k, c) && order[k] <= c
  }

  /** Each item is placed, once. */
  ghost predicate TakesFirstThatFits(p: Pass, order: seq<nat>)
    requires p.Valid()
  {
    && |order| == |p.items| && p.Indexes(order)
    && forall k: nat | k < |order| :: FirstThatFits(p, order, k)
  }

  /** The greedy leaves the one order made that way, forced steps and all. */
  lemma GreedyIffTakesFirst(p: Pass, order: seq<nat>)
    requires p.Valid()
    ensures order == GreedyOrder(p) <==> TakesFirstThatFits(p, order)
  {
    var n, blocked := |p.items|, BlockedIn(p);
    GreedyIffByRule(blocked, n, order);
    hide Pass.Blocked, Greedy;
    if ByRule(blocked, n, order) {
      forall k: nat | k < n
        ensures order[k] < n
      {
        assert TakesFirst(blocked, n, order, k);
      }
    }
    if |order| == n && p.Indexes(order) {
      forall k: nat | k < n
        ensures TakesFirst(blocked, n, order, k) <==> FirstThatFits(p, order, k)
      {
        StepFits(p, order, k);
      }
    }
  }

  lemma StepFits(p: Pass, order: seq<nat>, k: nat)
    requires p.Valid() && p.Indexes(order) && k < |order|
    ensures TakesFirst(BlockedIn(p), |p.items|, order, k) <==> FirstThatFits(p, order, k)
  {
    var n, blocked := |p.items|, BlockedIn(p);
    forall c: nat | c < n
      ensures blocked(order[..k], c) <==> !Fits(p, order, k, c)
      ensures Rest(n, order, k, c) <==> c !in order[..k]
    {
    }
    hide Fits, BlockedIn;
    if order[k] !in order[..k] {
      if Fits(p, order, k, order[k]) {
        assert forall c: nat | c < order[k] :: blocked(order[..k], c) <==> !Fits(p, order, k, c);
      } else {
        assert forall c: nat | c < n && c !in order[..k] :: Rest(n, order, k, c);
      }
    }
  }

  /** One round: of the swaps of a clashing position with any other that leave fewer clashes, the first, by the
      clashing position and then by the other. */
  ghost predicate TakesFirstGain(p: Pass, a: seq<nat>, b: seq<nat>)
    requires p.Valid() && p.Indexes(a)
  {
    exists i: nat, j: nat ::
      && i < |a| && j < |a| && b == Swap(a, i, j) && Helps(p, a, i, j)
      && forall x: nat, y: nat | x < |a| && y < |a| && (x < i || (x == i && y < j)) :: !Helps(p, a, x, y)
  }

  /** Swapping the clashing position `i` with `j` leaves fewer clashes. */
  ghost predicate Helps(p: Pass, a: seq<nat>, i: nat, j: nat)
    requires p.Valid() && p.Indexes(a) && i < |a| && j < |a|
  {
    SwapBack(p, a, i, j);
    i != j && p.Violating(a, i) && p.Violations(Swap(a, i, j)) < p.Violations(a)
  }

  lemma HelpsIsGain(p: Pass, a: seq<nat>, i: nat, j: nat)
    requires p.Valid() && p.Indexes(a) && i < |a| && j < |a|
    ensures Helps(p, a, i, j) <==> MarkedIn(p)(a, i) && Gain(CountIn(p), a, i, j)
    ensures Helps(p, a, i, j) <==> !NoGain(CountIn(p), MarkedIn(p), a, i, j)
  {
    SwapBack(p, a, i, j);
  }

  lemma RoundIsFirstGain(p: Pass, a: seq<nat>, b: seq<nat>)
    requires p.Valid() && p.Indexes(a) && OneRound(CountIn(p), MarkedIn(p), a, b)
    ensures TakesFirstGain(p, a, b) && p.Indexes(b)
  {
    var i: nat, j: nat :| IsFirstGain(CountIn(p), MarkedIn(p), a, i, j) && b == Swap(a, i, j);
    SwapBack(p, a, i, j);
    hide CountIn, MarkedIn, Pass.Violations, Pass.Violating;
    forall x: nat, y: nat | x < |a| && y < |a|
      ensures Helps(p, a, x, y) <==> MarkedIn(p)(a, x) && Gain(CountIn(p), a, x, y)
      ensures Helps(p, a, x, y) <==> !NoGain(CountIn(p), MarkedIn(p), a, x, y)
    {
      HelpsIsGain(p, a, x, y);
    }
  }

  /** The whole pass: from the order that takes the first that fits, rounds that each take the first gain, until
      nothing clashes, nothing gains, or ten thousand have been run. */
  ghost predicate PassRuns(p: Pass, orders: seq<seq<nat>>)
    requires p.Valid()
  {
    && 0 < |orders| <= 10_001
    && TakesFirstThatFits(p, orders[0])
    && (forall k: nat | k < |orders| :: p.Indexes(orders[k]))
    && (forall k: nat, j: nat | k < j < |orders| && j == k + 1 ::
          p.Violations(orders[k]) != 0 && TakesFirstGain(p, orders[k], orders[j]))
    && var last := orders[|orders| - 1];
       || p.Violations(last) == 0 || |orders| == 10_001
       || forall i: nat, j: nat | i < |last| && j < |last| :: !Helps(p, last, i, j)
  }

  lemma {:induction false} RoundsIndex(p: Pass, orders: seq<seq<nat>>, k: nat)
    requires p.Valid() && Rounds(CountIn(p), MarkedIn(p), orders, MAX_REPAIR_ROUNDS)
    requires k < |orders| && p.Indexes(orders[0])
    ensures p.Indexes(orders[k])
  {
    hide CountIn, MarkedIn, OneRound;
    if k > 0 {
      RoundsIndex(p, orders, k - 1);
      assert OneRound(CountIn(p), MarkedIn(p), orders[k - 1], orders[k - 1 + 1]);
      RoundIsFirstGain(p, orders[k - 1], orders[k]);
    }
  }

  lemma RoundsArePass(p: Pass, orders: seq<seq<nat>>)
    requires p.Valid() && Rounds(CountIn(p), MarkedIn(p), orders, MAX_REPAIR_ROUNDS)
    requires orders[0] == GreedyOrder(p)
    ensures PassRuns(p, orders)
  {
    OrderedPermutes(p);
    GreedyIffTakesFirst(p, orders[0]);
    hide TakesFirstThatFits, OneRound, Pass.Violations, Pass.Violating, Helps, TakesFirstGain, GreedyOrder;
    forall k: nat | k < |orders|
      ensures p.Indexes(orders[k])
    {
      RoundsIndex(p, orders, k);
    }
    forall k: nat | k + 1 < |orders|
      ensures p.Violations(orders[k]) != 0 && TakesFirstGain(p, orders[k], orders[k + 1])
    {
      RoundIsFirstGain(p, orders[k], orders[k + 1]);
    }
    var last := orders[|orders| - 1];
    forall i: nat, j: nat | i < |last| && j < |last|
      ensures Helps(p, last, i, j) <==> !NoGain(CountIn(p), MarkedIn(p), last, i, j)
    {
      HelpsIsGain(p, last, i, j);
    }
  }

  /** The order returned is where such a run ends. An unconstrained list, which is returned as it is, is no exception:
      everything fits and nothing clashes. */
  lemma OrderedByRun(p: Pass) returns (orders: seq<seq<nat>>)
    requires p.Valid()
    ensures orders != [] && PassRuns(p, orders) && orders[|orders| - 1] == Ordered(p)
  {
    hide PassRuns, Rounds, Repaired;
    orders := RepairedByRounds(CountIn(p), MarkedIn(p), GreedyOrder(p), MAX_REPAIR_ROUNDS);
    RoundsArePass(p, orders);
    if Bound(p.limits).Unconstrained() || |p.items| == 0 {
      UnconstrainedIsClear(p, Range(|p.items|));
      LegalIsUntouched(p);
      NothingToRepair(p, Range(|p.items|));
    }
  }

  lemma NothingToRepair(p: Pass, order: seq<nat>)
    requires p.Valid() && p.Indexes(order) && p.Violations(order) == 0
    ensures Repaired(CountIn(p), MarkedIn(p), order, MAX_REPAIR_ROUNDS) == order
  {
  }
}
