/** The deferring greedy on its own: walk a queue, always taking the first candidate that is not
    blocked by what has been taken, or the head when every candidate is. */
module Deferral {

  type Block = (seq<nat>, nat) -> bool

  function Range(n: nat): (r: seq<nat>)
    ensures |r| == n && forall k | 0 <= k < n :: r[k] == k
  {
    seq(n, k => k)
  }

  /** The first index from `k` on whose candidate is not blocked; `|pending|` when there is none. */
  ghost function Scan(blocked: Block, out: seq<nat>, pending: seq<nat>, k: nat): (r: nat)
    requires k <= |pending|
    ensures k <= r <= |pending|
    ensures r < |pending| ==> !blocked(out, pending[r])
    ensures forall j | k <= j < r :: blocked(out, pending[j])
    decreases |pending| - k
  {
    if k == |pending| || !blocked(out, pending[k]) then k else Scan(blocked, out, pending, k + 1)
  }

  ghost predicate Forced(blocked: Block, out: seq<nat>, pending: seq<nat>) {
    Scan(blocked, out, pending, 0) == |pending|
  }

  /** The head is taken when every candidate is blocked. */
  ghost function Pick(blocked: Block, out: seq<nat>, pending: seq<nat>): (k: nat)
    requires pending != []
    ensures k < |pending|
  {
    if Forced(blocked, out, pending) then 0 else Scan(blocked, out, pending, 0)
  }

  function Without(s: seq<nat>, k: nat): seq<nat>
    requires k < |s|
  {
    s[..k] + s[k + 1..]
  }

  ghost function Greedy(blocked: Block, out: seq<nat>, pending: seq<nat>): (order: seq<nat>)
    decreases |pending|
  {
    if pending == [] then out
    else
      var k := Pick(blocked, out, pending);
      Greedy(blocked, out + [pending[k]], Without(pending, k))
  }

  /** No step, from this state on, runs out of free candidates. */
  ghost predicate NeverForced(blocked: Block, out: seq<nat>, pending: seq<nat>)
    decreases |pending|
  {
    pending == [] ||
    (!Forced(blocked, out, pending)
     && var k := Pick(blocked, out, pending); NeverForced(blocked, out + [pending[k]], Without(pending, k)))
  }

  /** `order[k]` was free to be placed after `order[..k]`. */
  ghost predicate FreeAt(blocked: Block, order: seq<nat>, k: nat)
    requires k < |order|
  {
    !blocked(order[..k], order[k])
  }

  lemma SplitAt(s: seq<nat>, k: nat)
    requires k < |s|
    ensures multiset(s) == multiset{s[k]} + multiset(Without(s, k))
  {
    assert s == s[..k] + [s[k]] + s[k + 1..];
  }

  lemma {:induction false} GreedyPermutes(blocked: Block, out: seq<nat>, pending: seq<nat>)
    ensures multiset(Greedy(blocked, out, pending)) == multiset(out) + multiset(pending)
    decreases |pending|
  {
    if pending != [] {
      var k := Pick(blocked, out, pending);
      SplitAt(pending, k);
      GreedyPermutes(blocked, out + [pending[k]], Without(pending, k));
    }
  }

  lemma {:induction false} GreedyExtends(blocked: Block, out: seq<nat>, pending: seq<nat>)
    ensures var r := Greedy(blocked, out, pending); |r| == |out| + |pending| && r[..|out|] == out
    decreases |pending|
  {
    if pending != [] {
      var k := Pick(blocked, out, pending);
      var next := out + [pending[k]];
      GreedyExtends(blocked, next, Without(pending, k));
      var r := Greedy(blocked, next, Without(pending, k));
      assert r[..|out|] == r[..|next|][..|out|];
    }
  }

  /** What the greedy takes next, and where it stands afterwards. */
  lemma GreedyStep(blocked: Block, out: seq<nat>, pending: seq<nat>)
    requires pending != []
    ensures var r, c := Greedy(blocked, out, pending), pending[Pick(blocked, out, pending)];
      |r| == |out| + |pending| && r[..|out|] == out && r[|out|] == c
      && FreeAt(blocked, r, |out|) == !blocked(out, c)
  {
    var k := Pick(blocked, out, pending);
    var next := out + [pending[k]];
    GreedyExtends(blocked, out, pending);
    GreedyExtends(blocked, next, Without(pending, k));
    var r := Greedy(blocked, out, pending);
    assert r[|out|] == r[..|next|][|out|];
  }

  /** The greedy is never forced exactly when every position it fills was free. */
  lemma {:induction false} NeverForcedIsFree(blocked: Block, out: seq<nat>, pending: seq<nat>)
    ensures var r := Greedy(blocked, out, pending);
      |r| == |out| + |pending|
      && (NeverForced(blocked, out, pending) <==> forall k: nat | |out| <= k < |r| :: FreeAt(blocked, r, k))
    decreases |pending|
  {
    GreedyExtends(blocked, out, pending);
    if pending != [] {
      GreedyStep(blocked, out, pending);
      var k := Pick(blocked, out, pending);
      NeverForcedIsFree(blocked, out + [pending[k]], Without(pending, k));
    }
  }

  ghost predicate Ascending(s: seq<nat>) {
    forall x, y | 0 <= x < y < |s| :: s[x] < s[y]
  }

  /** An unforced step takes the smallest index any legal order could take in its place. */
  lemma StepTakesLeast(blocked: Block, out: seq<nat>, pending: seq<nat>, legal: seq<nat>)
    requires Ascending(pending) && pending != [] && !Forced(blocked, out, pending)
    requires multiset(legal) == multiset(out) + multiset(pending)
    requires |out| < |legal| && legal[..|out|] == out && FreeAt(blocked, legal, |out|)
    ensures pending[Pick(blocked, out, pending)] <= legal[|out|]
  {
    LegalIsPending(out, pending, legal);
    var x :| 0 <= x < |pending| && pending[x] == legal[|out|];
    assert !blocked(out, pending[x]);
  }

  /** Among what is pending, an unforced greedy takes the smallest index any legal order could take next. */
  lemma {:induction false} GreedyTakesLeast(blocked: Block, out: seq<nat>, pending: seq<nat>, legal: seq<nat>, at: nat)
    requires Ascending(pending)
    requires NeverForced(blocked, out, pending)
    requires |Greedy(blocked, out, pending)| == |legal| == |out| + |pending|
    requires multiset(legal) == multiset(out) + multiset(pending)
    requires |out| <= at < |legal| && FreeAt(blocked, legal, at)
    requires Greedy(blocked, out, pending)[..at] == legal[..at]
    ensures Greedy(blocked, out, pending)[at] <= legal[at]
    decreases |pending|
  {
    GreedyStep(blocked, out, pending);
    if at == |out| {
      StepTakesLeast(blocked, out, pending, legal);
    } else {
      var k := Pick(blocked, out, pending);
      SplitAt(pending, k);
      GreedyTakesLeast(blocked, out + [pending[k]], Without(pending, k), legal, at);
    }
  }

  lemma LegalIsPending(out: seq<nat>, pending: seq<nat>, legal: seq<nat>)
    requires multiset(legal) == multiset(out) + multiset(pending)
    requires |out| < |legal| && legal[..|out|] == out
    ensures legal[|out|] in pending
  {
    var rest := legal[|out|..];
    assert legal == out + rest;
    assert multiset(legal) == multiset(out) + multiset(rest);
    assert multiset(pending) == multiset(legal) - multiset(out) == multiset(rest);
    assert legal[|out|] == rest[0] && rest[0] in multiset(rest);
  }

  lemma PicksFirst(blocked: Block, out: seq<nat>, pending: seq<nat>)
    requires pending != [] && !blocked(out, pending[0])
    ensures Pick(blocked, out, pending) == 0
  {
  }

  /** When every candidate is free in its own place, the queue comes out as it went in. */
  lemma {:induction false} GreedyWalksLegal(blocked: Block, r: seq<nat>, k: nat)
    requires k <= |r|
    requires forall i: nat | i < |r| :: FreeAt(blocked, r, i)
    ensures Greedy(blocked, r[..k], r[k..]) == r
    decreases |r| - k
  {
    if k < |r| {
      assert FreeAt(blocked, r, k);
      assert r[k..][0] == r[k];
      PicksFirst(blocked, r[..k], r[k..]);
      assert r[..k] + [r[k]] == r[..k + 1];
      assert Without(r[k..], 0) == r[k + 1..];
      GreedyWalksLegal(blocked, r, k + 1);
    } else {
      assert r[..k] == r;
    }
  }

  /** Two ways of judging candidates that agree on everything in play lead to the same order. */
  lemma {:induction false} GreedyCongruent(b1: Block, b2: Block, n: nat, out: seq<nat>, pending: seq<nat>)
    requires forall k | 0 <= k < |out| :: out[k] < n
    requires forall k | 0 <= k < |pending| :: pending[k] < n
    requires forall o: seq<nat>, c: nat | (forall k | 0 <= k < |o| :: o[k] < n) && c < n :: b1(o, c) == b2(o, c)
    ensures Greedy(b1, out, pending) == Greedy(b2, out, pending)
    decreases |pending|
  {
    if pending != [] {
      ScanCongruent(b1, b2, out, pending, 0);
      var k := Pick(b1, out, pending);
      GreedyCongruent(b1, b2, n, out + [pending[k]], Without(pending, k));
    }
  }

  lemma {:induction false} ScanCongruent(b1: Block, b2: Block, out: seq<nat>, pending: seq<nat>, k: nat)
    requires k <= |pending|
    requires forall j | 0 <= j < |pending| :: b1(out, pending[j]) == b2(out, pending[j])
    ensures Scan(b1, out, pending, k) == Scan(b2, out, pending, k)
    decreases |pending| - k
  {
    if k < |pending| {
      ScanCongruent(b1, b2, out, pending, k + 1);
    }
  }

  // ---- the rule, step by step ------------------------------------------------

  /** `c` has yet to be placed once `order[..k]` has been. */
  ghost predicate Rest(n: nat, order: seq<nat>, k: nat, c: nat)
    requires k <= |order|
  {
    c < n && c !in order[..k]
  }

  /** At `k` the first of the rest that is free is taken, or, when all of the rest are blocked, the first of them. */
  ghost predicate TakesFirst(blocked: Block, n: nat, order: seq<nat>, k: nat)
    requires k < |order|
  {
    Rest(n, order, k, order[k])
    && if !blocked(order[..k], order[k]) then
         forall c: nat | c < order[k] && Rest(n, order, k, c) :: blocked(order[..k], c)
       else
         forall c: nat | Rest(n, order, k, c) :: blocked(order[..k], c) && order[k] <= c
  }

  /** Every one of `0..n` is placed once, by the rule. */
  ghost predicate ByRule(blocked: Block, n: nat, order: seq<nat>) {
    |order| == n && forall k: nat | k < n :: TakesFirst(blocked, n, order, k)
  }

  /** The queue holds, in ascending order, exactly what has yet to be placed. */
  ghost predicate Queues(n: nat, out: seq<nat>, pending: seq<nat>) {
    && Ascending(pending)
    && forall c: nat :: c in pending <==> c < n && c !in out
  }

  lemma RangeQueues(n: nat)
    ensures Queues(n, [], Range(n))
  {
    forall c: nat
      ensures c in Range(n) <==> c < n
    {
      if c < n {
        assert Range(n)[c] == c;
      }
    }
  }

  lemma QueueStep(n: nat, out: seq<nat>, pending: seq<nat>, k: nat)
    requires Queues(n, out, pending) && k < |pending|
    ensures Queues(n, out + [pending[k]], Without(pending, k))
  {
    var rest := Without(pending, k);
    forall c: nat
      ensures c in rest <==> c in pending && c != pending[k]
    {
      if c in pending && c != pending[k] {
        var x :| 0 <= x < |pending| && pending[x] == c;
        assert c == rest[if x < k then x else x - 1];
      }
    }
  }

  lemma StepByRule(blocked: Block, n: nat, out: seq<nat>, pending: seq<nat>, order: seq<nat>)
    requires Queues(n, out, pending) && pending != []
    requires |out| < |order| && order[..|out|] == out && order[|out|] == pending[Pick(blocked, out, pending)]
    ensures TakesFirst(blocked, n, order, |out|)
  {
    var k := Pick(blocked, out, pending);
    assert pending[k] in pending;
    forall c: nat | Rest(n, order, |out|, c)
      ensures c < pending[k] ==> blocked(out, c)
      ensures Forced(blocked, out, pending) ==> blocked(out, c) && pending[k] <= c
    {
      assert c in pending;
      var x :| 0 <= x < |pending| && pending[x] == c;
    }
  }

  lemma {:induction false} GreedyStepsByRule(blocked: Block, n: nat, out: seq<nat>, pending: seq<nat>)
    requires Queues(n, out, pending)
    ensures var r := Greedy(blocked, out, pending);
      |r| == |out| + |pending| && forall k: nat | |out| <= k < |r| :: TakesFirst(blocked, n, r, k)
    decreases |pending|
  {
    GreedyExtends(blocked, out, pending);
    if pending != [] {
      hide TakesFirst, Queues;
      var k := Pick(blocked, out, pending);
      GreedyStep(blocked, out, pending);
      StepByRule(blocked, n, out, pending, Greedy(blocked, out, pending));
      QueueStep(n, out, pending, k);
      GreedyStepsByRule(blocked, n, out + [pending[k]], Without(pending, k));
    }
  }

  /** The rule leaves no choice. */
  lemma {:induction false} RuleDecides(blocked: Block, n: nat, a: seq<nat>, b: seq<nat>, k: nat)
    requires ByRule(blocked, n, a) && ByRule(blocked, n, b) && k <= n
    ensures a[..k] == b[..k]
    decreases k
  {
    if k > 0 {
      var j := k - 1;
      RuleDecides(blocked, n, a, b, j);
      assert TakesFirst(blocked, n, a, j) && TakesFirst(blocked, n, b, j);
      assert Rest(n, a, j, b[j]) && Rest(n, b, j, a[j]);
      assert a[..k] == a[..j] + [a[j]] && b[..k] == b[..j] + [b[j]];
    }
  }

  /** The greedy's order, forced steps and all, is the one order made by the rule. */
  lemma GreedyIffByRule(blocked: Block, n: nat, order: seq<nat>)
    ensures order == Greedy(blocked, [], Range(n)) <==> ByRule(blocked, n, order)
  {
    var r := Greedy(blocked, [], Range(n));
    RangeQueues(n);
    GreedyStepsByRule(blocked, n, [], Range(n));
    assert ByRule(blocked, n, r);
    if ByRule(blocked, n, order) {
      RuleDecides(blocked, n, order, r, n);
      assert order[..n] == order && r[..n] == r;
    }
  }
}
