/** First-improvement local search on its own: look at the clashing positions in order, try every
    partner in order, keep the first swap that lowers the objective, and start over. */
module SwapSearch {
  import opened Common

  type Objective = seq<nat> -> nat
  type Marked = (seq<nat>, nat) -> bool

  function Swap(order: seq<nat>, i: nat, j: nat): (r: seq<nat>)
    requires i < |order| && j < |order|
    ensures |r| == |order|
  {
    order[i := order[j]][j := order[i]]
  }

  lemma SwapPermutes(order: seq<nat>, i: nat, j: nat)
    requires i < |order| && j < |order|
    ensures multiset(Swap(order, i, j)) == multiset(order)
  {
  }

  /** The first improving swap at or after `(i, j)`: marked positions ascending, partners ascending. */
  ghost function FirstSwap(count: Objective, marked: Marked, order: seq<nat>, i: nat, j: nat): (r: Option<(nat, nat)>)
    requires i <= |order| && j <= |order|
    ensures r.Some? ==> r.value.0 < |order| && r.value.1 < |order|
    ensures r.Some? ==> count(Swap(order, r.value.0, r.value.1)) < count(order)
    decreases |order| - i, |order| - j
  {
    if i == |order| then None
    else if j == |order| || !marked(order, i) then FirstSwap(count, marked, order, i + 1, 0)
    else if i != j && count(Swap(order, i, j)) < count(order) then Some((i, j))
    else FirstSwap(count, marked, order, i, j + 1)
  }

  ghost function Repaired(count: Objective, marked: Marked, order: seq<nat>, rounds: nat): (r: seq<nat>)
    ensures multiset(r) == multiset(order)
    ensures count(r) <= count(order)
    decreases rounds
  {
    if rounds == 0 || count(order) == 0 then order
    else
      match FirstSwap(count, marked, order, 0, 0)
      case None => order
      case Some((i, j)) =>
        SwapPermutes(order, i, j);
        Repaired(count, marked, Swap(order, i, j), rounds - 1)
  }

  /** Swapping positions `i` and `j` would not help: `i` is not marked, or the objective does not drop. */
  ghost predicate NoGain(count: Objective, marked: Marked, order: seq<nat>, i: nat, j: nat)
    requires i < |order| && j < |order|
  {
    i != j && marked(order, i) ==> count(Swap(order, i, j)) >= count(order)
  }

  /** No swap of a marked position with any other lowers the objective. */
  ghost predicate Settled(count: Objective, marked: Marked, order: seq<nat>) {
    forall i: nat, j: nat | i < |order| && j < |order| :: NoGain(count, marked, order, i, j)
  }

  /** Finding none means there is none at or after where the search stands. */
  lemma {:induction false} NoSwapLeft(count: Objective, marked: Marked, order: seq<nat>, i: nat, j: nat, x: nat, y: nat)
    requires i <= |order| && j <= |order|
    requires FirstSwap(count, marked, order, i, j) == None
    requires x < |order| && y < |order| && (i < x || (i == x && j <= y))
    ensures NoGain(count, marked, order, x, y)
    decreases |order| - i, |order| - j
  {
    if j == |order| || !marked(order, i) {
      if x != i {
        NoSwapLeft(count, marked, order, i + 1, 0, x, y);
      }
    } else if (x, y) != (i, j) {
      NoSwapLeft(count, marked, order, i, j + 1, x, y);
    }
  }

  lemma SettledWhenNoneFound(count: Objective, marked: Marked, order: seq<nat>)
    requires FirstSwap(count, marked, order, 0, 0) == None
    ensures Settled(count, marked, order)
  {
    forall x: nat, y: nat | x < |order| && y < |order|
      ensures NoGain(count, marked, order, x, y)
    {
      NoSwapLeft(count, marked, order, 0, 0, x, y);
    }
  }

  /** Every round lowers the objective, so the rounds run bound what the search can leave undone. */
  lemma {:induction false} RepairSettles(count: Objective, marked: Marked, order: seq<nat>, rounds: nat)
    ensures Settled(count, marked, Repaired(count, marked, order, rounds))
         || count(Repaired(count, marked, order, rounds)) + rounds <= count(order)
    decreases rounds
  {
    if rounds != 0 && count(order) != 0 {
      match FirstSwap(count, marked, order, 0, 0)
      case None => SettledWhenNoneFound(count, marked, order);
      case Some((i, j)) => RepairSettles(count, marked, Swap(order, i, j), rounds - 1);
    }
  }

  /** Swapping `i` and `j` lowers the objective. */
  ghost predicate Gain(count: Objective, order: seq<nat>, i: nat, j: nat)
    requires i < |order| && j < |order|
  {
    i != j && count(Swap(order, i, j)) < count(order)
  }

  /** The search at a marked position passes over the partners that do not gain. */
  lemma {:induction false} PartnersPassed(count: Objective, marked: Marked, order: seq<nat>, i: nat, j: nat,
                                          partner: nat)
    requires i < |order| && marked(order, i)
    requires j <= partner <= |order|
    requires forall x: nat | j <= x < partner :: !Gain(count, order, i, x)
    ensures partner == |order| ==> FirstSwap(count, marked, order, i, j) == FirstSwap(count, marked, order, i + 1, 0)
    ensures partner < |order| && Gain(count, order, i, partner) ==>
      FirstSwap(count, marked, order, i, j) == Some((i, partner))
    decreases partner - j
  {
    if j < partner {
      assert !Gain(count, order, i, j);
      PartnersPassed(count, marked, order, i, j + 1, partner);
    }
  }

  /** Marks matter only where they differ: between two marked positions the search passes straight through. */
  lemma {:induction false} SkipUnmarked(count: Objective, marked: Marked, order: seq<nat>, lo: nat, hi: nat)
    requires lo <= hi <= |order|
    requires forall i: nat | lo <= i < hi :: !marked(order, i)
    ensures FirstSwap(count, marked, order, lo, 0) == FirstSwap(count, marked, order, hi, 0)
    decreases hi - lo
  {
    if lo < hi {
      SkipUnmarked(count, marked, order, lo + 1, hi);
    }
  }

  ghost predicate Below(order: seq<nat>, n: nat) {
    forall k | 0 <= k < |order| :: order[k] < n
  }

  /** Objectives and marks that agree on every order in play lead the search the same way. */
  ghost predicate Agree(c1: Objective, m1: Marked, c2: Objective, m2: Marked, n: nat) {
    && (forall o: seq<nat> | Below(o, n) :: c1(o) == c2(o))
    && (forall o: seq<nat>, i: nat | Below(o, n) && i < |o| :: m1(o, i) == m2(o, i))
  }

  lemma {:induction false} FirstSwapCongruent(c1: Objective, m1: Marked, c2: Objective, m2: Marked, n: nat,
                                              order: seq<nat>, i: nat, j: nat)
    requires Agree(c1, m1, c2, m2, n) && Below(order, n)
    requires i <= |order| && j <= |order|
    ensures FirstSwap(c1, m1, order, i, j) == FirstSwap(c2, m2, order, i, j)
    decreases |order| - i, |order| - j
  {
    if i == |order| {
    } else if j == |order| || !m1(order, i) {
      FirstSwapCongruent(c1, m1, c2, m2, n, order, i + 1, 0);
    } else {
      SwapBelow(order, i, j, n);
      FirstSwapCongruent(c1, m1, c2, m2, n, order, i, j + 1);
    }
  }

  lemma SwapBelow(order: seq<nat>, i: nat, j: nat, n: nat)
    requires i < |order| && j < |order| && Below(order, n)
    ensures Below(Swap(order, i, j), n)
  {
  }

  lemma RepairedUnfolds(count: Objective, marked: Marked, order: seq<nat>, rounds: nat, found: Option<(nat, nat)>)
    requires found == FirstSwap(count, marked, order, 0, 0)
    ensures Repaired(count, marked, order, rounds) ==
      if rounds == 0 || count(order) == 0 || found == None then order
      else Repaired(count, marked, Swap(order, found.value.0, found.value.1), rounds - 1)
  {
  }

  lemma RepairStepCongruent(c1: Objective, m1: Marked, c2: Objective, m2: Marked, order: seq<nat>, rounds: nat,
                            found: Option<(nat, nat)>)
    requires found == FirstSwap(c1, m1, order, 0, 0) == FirstSwap(c2, m2, order, 0, 0) && c1(order) == c2(order)
    requires rounds != 0 && found.Some? ==>
      Repaired(c1, m1, Swap(order, found.value.0, found.value.1), rounds - 1)
      == Repaired(c2, m2, Swap(order, found.value.0, found.value.1), rounds - 1)
    ensures Repaired(c1, m1, order, rounds) == Repaired(c2, m2, order, rounds)
  {
    RepairedUnfolds(c1, m1, order, rounds, found);
    RepairedUnfolds(c2, m2, order, rounds, found);
  }

  lemma {:induction false} RepairCongruent(c1: Objective, m1: Marked, c2: Objective, m2: Marked, n: nat,
                                           order: seq<nat>, rounds: nat)
    requires Agree(c1, m1, c2, m2, n) && Below(order, n)
    ensures Repaired(c1, m1, order, rounds) == Repaired(c2, m2, order, rounds)
    decreases rounds
  {
    FirstSwapCongruent(c1, m1, c2, m2, n, order, 0, 0);
    var found := FirstSwap(c1, m1, order, 0, 0);
    if rounds != 0 && found.Some? {
      SwapBelow(order, found.value.0, found.value.1, n);
      RepairCongruent(c1, m1, c2, m2, n, Swap(order, found.value.0, found.value.1), rounds - 1);
    }
    RepairStepCongruent(c1, m1, c2, m2, order, rounds, found);
  }

  // ---- the search, round by round --------------------------------------------

  /** Of the swaps of a marked position with any other that lower the objective, `(i, j)` comes first. */
  ghost predicate IsFirstGain(count: Objective, marked: Marked, order: seq<nat>, i: nat, j: nat) {
    && i < |order| && j < |order| && marked(order, i) && Gain(count, order, i, j)
    && forall x: nat, y: nat | x < |order| && y < |order| && (x < i || (x == i && y < j)) ::
      NoGain(count, marked, order, x, y)
  }

  lemma {:induction false} FirstSwapIsFirst(count: Objective, marked: Marked, order: seq<nat>, i: nat, j: nat)
    requires i <= |order| && j <= |order|
    requires forall x: nat, y: nat | x < |order| && y < |order| && (x < i || (x == i && y < j)) ::
             NoGain(count, marked, order, x, y)
    ensures match FirstSwap(count, marked, order, i, j)
            case None => Settled(count, marked, order)
            case Some((x, y)) => IsFirstGain(count, marked, order, x, y)
    decreases |order| - i, |order| - j
  {
    if i < |order| {
      if j == |order| || !marked(order, i) {
        FirstSwapIsFirst(count, marked, order, i + 1, 0);
      } else if !Gain(count, order, i, j) {
        FirstSwapIsFirst(count, marked, order, i, j + 1);
      }
    }
  }

  lemma FirstGainIsOne(count: Objective, marked: Marked, order: seq<nat>, i: nat, j: nat, x: nat, y: nat)
    requires IsFirstGain(count, marked, order, i, j) && IsFirstGain(count, marked, order, x, y)
    ensures i == x && j == y
  {
    assert !NoGain(count, marked, order, i, j) && !NoGain(count, marked, order, x, y);
  }

  /** The orders a search goes through: each is the one before it after its first gain, and it ends where nothing is
      left to lower, no swap gains, or `rounds` have been run. */
  ghost predicate Rounds(count: Objective, marked: Marked, orders: seq<seq<nat>>, rounds: nat) {
    && 0 < |orders| <= rounds + 1
    && (forall k: nat | k + 1 < |orders| :: count(orders[k]) != 0 && OneRound(count, marked, orders[k], orders[k + 1]))
    && var last := orders[|orders| - 1];
       count(last) == 0 || Settled(count, marked, last) || |orders| == rounds + 1
  }

  ghost predicate OneRound(count: Objective, marked: Marked, a: seq<nat>, b: seq<nat>) {
    exists i: nat, j: nat :: IsFirstGain(count, marked, a, i, j) && b == Swap(a, i, j)
  }

  lemma RoundsOnto(count: Objective, marked: Marked, a: seq<nat>, orders: seq<seq<nat>>, rounds: nat)
    requires Rounds(count, marked, orders, rounds) && orders != [] && count(a) != 0
             && OneRound(count, marked, a, orders[0])
    ensures Rounds(count, marked, [a] + orders, rounds + 1)
    ensures ([a] + orders)[|orders|] == orders[|orders| - 1]
  {
    hide OneRound, Settled;
    var longer := [a] + orders;
    forall k: nat | k + 1 < |longer|
      ensures count(longer[k]) != 0 && OneRound(count, marked, longer[k], longer[k + 1])
    {
      if k > 0 {
        assert longer[k] == orders[k - 1] && longer[k + 1] == orders[k - 1 + 1];
      }
    }
  }

  /** The repair goes through such rounds. */
  lemma {:induction false} RepairedByRounds(count: Objective, marked: Marked, order: seq<nat>, rounds: nat)
    returns (orders: seq<seq<nat>>)
    ensures orders != [] && Rounds(count, marked, orders, rounds)
    ensures orders[0] == order && orders[|orders| - 1] == Repaired(count, marked, order, rounds)
    decreases rounds
  {
    hide IsFirstGain, Settled, Rounds, OneRound, Repaired, FirstSwap;
    RepairedUnfolds(count, marked, order, rounds, FirstSwap(count, marked, order, 0, 0));
    if rounds == 0 || count(order) == 0 {
      orders := [order];
      NoRounds(count, marked, order, rounds);
    } else {
      FirstSwapIsFirst(count, marked, order, 0, 0);
      match FirstSwap(count, marked, order, 0, 0) {
        case None =>
          orders := [order];
          NoRounds(count, marked, order, rounds);
        case Some((i, j)) =>
          var later := RepairedByRounds(count, marked, Swap(order, i, j), rounds - 1);
          GainIsRound(count, marked, order, i, j);
          RoundsOnto(count, marked, order, later, rounds - 1);
          orders := [order] + later;
      }
    }
  }

  lemma NoRounds(count: Objective, marked: Marked, order: seq<nat>, rounds: nat)
    requires rounds == 0 || count(order) == 0 || Settled(count, marked, order)
    ensures Rounds(count, marked, [order], rounds)
  {
  }

  lemma GainIsRound(count: Objective, marked: Marked, order: seq<nat>, i: nat, j: nat)
    requires IsFirstGain(count, marked, order, i, j)
    ensures OneRound(count, marked, order, Swap(order, i, j))
  {
  }

  lemma OneRoundIsOne(count: Objective, marked: Marked, a: seq<nat>, b: seq<nat>, c: seq<nat>)
    requires OneRound(count, marked, a, b) && OneRound(count, marked, a, c)
    ensures b == c
  {
    var i: nat, j: nat :| IsFirstGain(count, marked, a, i, j) && b == Swap(a, i, j);
    var x: nat, y: nat :| IsFirstGain(count, marked, a, x, y) && c == Swap(a, x, y);
    FirstGainIsOne(count, marked, a, i, j, x, y);
  }

  /** A search that has settled, or has nothing left to lower, has no further round. */
  lemma NoRoundAfter(count: Objective, marked: Marked, a: seq<nat>, b: seq<nat>)
    requires Settled(count, marked, a)
    ensures !OneRound(count, marked, a, b)
  {
    forall i: nat, j: nat | i < |a| && j < |a|
      ensures !IsFirstGain(count, marked, a, i, j)
    {
      assert NoGain(count, marked, a, i, j);
    }
  }

  lemma {:induction false} SameRounds(count: Objective, marked: Marked, a: seq<seq<nat>>, b: seq<seq<nat>>,
                                      rounds: nat, k: nat)
    requires Rounds(count, marked, a, rounds) && Rounds(count, marked, b, rounds) && a[0] == b[0] && k < |a|
    ensures k < |b| && a[k] == b[k]
    decreases k
  {
    if k > 0 {
      SameRounds(count, marked, a, b, rounds, k - 1);
      assert count(a[k - 1]) != 0 && OneRound(count, marked, a[k - 1], a[k - 1 + 1]);
      if Settled(count, marked, a[k - 1]) {
        NoRoundAfter(count, marked, a[k - 1], a[k]);
      }
      OneRoundIsOne(count, marked, a[k - 1], a[k], b[k - 1 + 1]);
    }
  }

  /** And there are no others from the same start, so whatever ends such rounds is the repair's order. */
  lemma RoundsEndRepaired(count: Objective, marked: Marked, orders: seq<seq<nat>>, rounds: nat)
    requires Rounds(count, marked, orders, rounds)
    ensures orders[|orders| - 1] == Repaired(count, marked, orders[0], rounds)
  {
    var own := RepairedByRounds(count, marked, orders[0], rounds);
    SameRounds(count, marked, orders, own, rounds, |orders| - 1);
    SameRounds(count, marked, own, orders, rounds, |own| - 1);
  }
}
