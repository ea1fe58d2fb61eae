/** The adjacency pass itself: the early-exit walks, the deferring greedy and the
    swap repair, each proved equal to its all-pairs specification. */
module Constrain {
  import opened Adjacency

  /** The repair gives up after this many improving swaps. */
  const MAX_REPAIR_ROUNDS: nat := 10_000

  /** The input of one pass: the list, each item's limits, and what aired before it, oldest first. */
  datatype Pass = Pass(items: seq<ItemKeys>, limits: seq<Limits>, preceding: seq<ItemKeys>) {
    predicate Valid() {
      |items| == |limits|
    }

    predicate Indexes(order: seq<nat>) {
      forall k | 0 <= k < |order| :: order[k] < |items|
    }

    function Seam(): nat {
      |preceding|
    }

    /** The airing of `order[k]`, under its own limits. */
    function PlacedEntry(order: seq<nat>, k: int): Entry
      requires Valid() && Indexes(order) && 0 <= k < |order|
    {
      Entry(items[order[k]], limits[order[k]])
    }

    /** What airs: the tail of the previous generation under no limits of its own, then `order`. */
    ghost function Stream(order: seq<nat>): (s: seq<Entry>)
      requires Valid() && Indexes(order)
      ensures |s| == Seam() + |order|
      ensures forall k | 0 <= k < |s| ::
                s[k] == if k < Seam() then Entry(preceding[k], NO_LIMITS) else PlacedEntry(order, k - Seam())
    {
      Aired(preceding) + seq(|order|, k requires 0 <= k < |order| => PlacedEntry(order, k))
    }

    /** Placing `cand` after `out` clashes with something already placed or already aired. */
    ghost predicate Blocked(out: seq<nat>, cand: nat)
      requires Valid() && Indexes(out) && cand < |items|
    {
      var s := Stream(out + [cand]);
      ClashesBack(s, 0, |s| - 1, |s| - 1)
    }

    /** The number of clashing pairs `order` leaves, the seam included. */
    ghost function Violations(order: seq<nat>): nat
      requires Valid() && Indexes(order)
    {
      |ClashingPairs(Stream(order), Seam())|
    }

    /** Position `i` clashes with something that aired before the list, or with a later position. */
    ghost predicate Violating(order: seq<nat>, i: nat)
      requires Valid() && Indexes(order) && i < |order|
    {
      ClashesAround(Stream(order), Seam(), Seam() + i)
    }
  }

  predicate Bounds(bound: Reach, limits: seq<Limits>) {
    forall k | 0 <= k < |limits| :: bound.Covers(limits[k].ReachOf())
  }

  /** The widest reach of any item in the list. */
  function Bound(limits: seq<Limits>): (r: Reach)
    ensures Bounds(r, limits)
  {
    if limits == [] then Reach(0, 0)
    else
      var n := |limits| - 1;
      assert limits == limits[..n] + [limits[n]];
      Bound(limits[..n]).Widen(limits[n].ReachOf())
  }

  // ---- the walks -----------------------------------------------------------

  /** One step of a backward walk that has reached the list position `k`. */
  lemma PlacedStep(p: Pass, order: seq<nat>, k: nat, i: nat)
    requires p.Valid() && p.Indexes(order) && k < i < |order|
    ensures var s, at := p.Stream(order), p.Seam() + i;
      var d := Distance(i - k, Span(s, p.Seam() + k + 1, at) + p.items[order[k]].duration);
      && Apart(s, p.Seam() + k, at) == d
      && Clash(s, p.Seam() + k, at)
         == Conflict(p.items[order[i]], p.items[order[k]], p.limits[order[i]], p.limits[order[k]], d)
  {
  }

  /** One step of a backward walk that has crossed the seam and reached `preceding[k]`. */
  lemma AiredStep(p: Pass, order: seq<nat>, k: nat, i: nat)
    requires p.Valid() && p.Indexes(order) && k < p.Seam() && i < |order|
    ensures var s, at := p.Stream(order), p.Seam() + i;
      var d := Distance(at - k, Span(s, k + 1, at) + p.preceding[k].duration);
      && Apart(s, k, at) == d
      && Clash(s, k, at) == Conflict(p.items[order[i]], p.preceding[k], p.limits[order[i]], NO_LIMITS, d)
  {
  }

  /** Leaving `bound` behind at the list position `k` ends the walk, the seam included. */
  lemma PlacedExhausted(p: Pass, order: seq<nat>, k: nat, i: nat, bound: Reach)
    requires p.Valid() && p.Indexes(order) && k < i < |order|
    requires Bounds(bound, p.limits)
    requires bound.Exhausted(Apart(p.Stream(order), p.Seam() + k, p.Seam() + i))
    ensures !ClashesBack(p.Stream(order), 0, p.Seam() + k + 1, p.Seam() + i)
  {
    StreamBounded(p, order, bound);
    ExhaustedBack(p.Stream(order), p.Seam() + k, p.Seam() + i, bound);
  }

  /** Across the seam the candidate's own reach decides: what aired carries no limits. */
  lemma AiredExhausted(p: Pass, order: seq<nat>, k: nat, i: nat)
    requires p.Valid() && p.Indexes(order) && k < p.Seam() && i < |order|
    requires p.limits[order[i]].ReachOf().Exhausted(Apart(p.Stream(order), k, p.Seam() + i))
    ensures !ClashesBack(p.Stream(order), 0, k + 1, p.Seam() + i)
  {
    ExhaustedBack(p.Stream(order), k, p.Seam() + i, p.limits[order[i]].ReachOf());
  }

  lemma AheadExhausted(p: Pass, order: seq<nat>, i: nat, k: nat, bound: Reach)
    requires p.Valid() && p.Indexes(order) && i < k < |order|
    requires Bounds(bound, p.limits)
    requires bound.Exhausted(Apart(p.Stream(order), p.Seam() + i, p.Seam() + k))
    ensures !ClashesAhead(p.Stream(order), p.Seam() + i, p.Seam() + k, p.Seam() + |order|)
  {
    StreamBounded(p, order, bound);
    ExhaustedAhead(p.Stream(order), p.Seam() + i, p.Seam() + k, bound);
  }

  lemma StreamBounded(p: Pass, order: seq<nat>, bound: Reach)
    requires p.Valid() && p.Indexes(order)
    requires Bounds(bound, p.limits)
    ensures forall k | 0 <= k < |p.Stream(order)| :: bound.Covers(p.Stream(order)[k].limits.ReachOf())
  {
    var s := p.Stream(order);
    forall k | 0 <= k < |s|
      ensures bound.Covers(s[k].limits.ReachOf())
    {
      if k >= p.Seam() {
        assert s[p.Seam() + (k - p.Seam())].limits == p.limits[order[k - p.Seam()]];
      }
    }
  }

  method Violates(p: Pass, bound: Reach, out: seq<nat>, cand: nat) returns (r: bool)
    requires p.Valid() && p.Indexes(out) && cand < |p.items|
    requires Bounds(bound, p.limits)
    ensures r <==> p.Blocked(out, cand)
  {
    var me, mine := p.items[cand], p.limits[cand];
    ghost var order := out + [cand];
    ghost var s := p.Stream(order);
    ghost var n := |out|;
    ghost var at: nat := p.Seam() + n;
    var positions: nat, elapsed: nat := 0, 0;
    for k := |out| downto 0
      invariant positions == n - k
      invariant elapsed == Span(s, p.Seam() + k, at)
      invariant !ClashesBack(s, p.Seam() + k, at, at)
    {
      var placed := out[k];
      PlacedStep(p, order, k, n);
      positions := positions + 1;
      elapsed := elapsed + p.items[placed].duration;
      var d := Distance(positions, elapsed);
      if bound.Exhausted(d) {
        PlacedExhausted(p, order, k, n, bound);
        return false;
      }
      if Conflict(me, p.items[placed], mine, p.limits[placed], d) {
        return true;
      }
    }
    r := AcrossSeam(p, order, n, cand, positions, elapsed);
  }

  /** The walk through `preceding`, carrying on from wherever the walk through the list left off. */
  method AcrossSeam(p: Pass, ghost order: seq<nat>, ghost i: nat, cand: nat, positions0: nat, elapsed0: nat)
    returns (hit: bool)
    requires p.Valid() && p.Indexes(order) && i < |order| && cand == order[i]
    requires positions0 == i
    requires elapsed0 == Span(p.Stream(order), p.Seam(), p.Seam() + i)
    ensures hit <==> ClashesBack(p.Stream(order), 0, p.Seam(), p.Seam() + i)
  {
    var me, mine := p.items[cand], p.limits[cand];
    ghost var s := p.Stream(order);
    var mineReach := mine.ReachOf();
    var positions, elapsed := positions0, elapsed0;
    for k := |p.preceding| downto 0
      invariant positions == p.Seam() + i - k
      invariant elapsed == Span(s, k, p.Seam() + i)
      invariant !ClashesBack(s, k, p.Seam(), p.Seam() + i)
    {
      AiredStep(p, order, k, i);
      positions := positions + 1;
      elapsed := elapsed + p.preceding[k].duration;
      var d := Distance(positions, elapsed);
      if mineReach.Exhausted(d) {
        AiredExhausted(p, order, k, i);
        return false;
      }
      if Conflict(me, p.preceding[k], mine, NO_LIMITS, d) {
        return true;
      }
    }
    return false;
  }

  ghost predicate IsPrefix(p: Pass, order: seq<nat>, prefix: seq<nat>)
    requires p.Valid() && p.Indexes(order)
  {
    && |prefix| == |order| + 1
    && forall k | 0 <= k <= |order| :: prefix[k] == Span(p.Stream(order), p.Seam(), p.Seam() + k)
  }

  /** Start of every position, measured from the head of the list: one entry per prefix. */
  method DurationPrefix(p: Pass, order: seq<nat>) returns (prefix: seq<nat>)
    requires p.Valid() && p.Indexes(order)
    ensures IsPrefix(p, order, prefix)
  {
    ghost var s := p.Stream(order);
    var total: nat := 0;
    prefix := [0];
    for k := 0 to |order|
      invariant |prefix| == k + 1
      invariant total == Span(s, p.Seam(), p.Seam() + k)
      invariant forall i | 0 <= i <= k :: prefix[i] == Span(s, p.Seam(), p.Seam() + i)
    {
      SpanSplit(s, p.Seam(), p.Seam() + k, p.Seam() + k + 1);
      assert s[p.Seam() + k].keys == p.items[order[k]];
      assert Span(s, p.Seam() + k, p.Seam() + k + 1)
          == s[p.Seam() + k].keys.duration + Span(s, p.Seam() + k + 1, p.Seam() + k + 1);
      total := total + p.items[order[k]].duration;
      prefix := prefix + [total];
    }
  }

  /** Whether position `i` clashes with the position `d` after it. */
  method PairAhead(p: Pass, order: seq<nat>, prefix: seq<nat>, i: nat, d: nat) returns (dist: Distance, hit: bool)
    requires p.Valid() && p.Indexes(order)
    requires IsPrefix(p, order, prefix)
    requires 0 < d && i + d < |order|
    ensures dist == Apart(p.Stream(order), p.Seam() + i, p.Seam() + i + d)
    ensures hit <==> Clash(p.Stream(order), p.Seam() + i, p.Seam() + i + d)
  {
    ghost var s := p.Stream(order);
    SpanSplit(s, p.Seam(), p.Seam() + i, p.Seam() + i + d);
    dist := Distance(d, prefix[i + d] - prefix[i]);
    var a, b := order[i], order[i + d];
    hit := Conflict(p.items[a], p.items[b], p.limits[a], p.limits[b], dist);
    ConflictSymmetric(p.items[a], p.items[b], p.limits[a], p.limits[b], dist);
  }

  /** The clashing pairs found once positions below `i` are done: a pair inside the list belongs to
      its earlier position, a pair across the seam to its only position in the list. */
  ghost predicate FoundBelow(found: set<(int, int)>, s: seq<Entry>, seam: nat, i: nat) {
    forall q, r :: (q, r) in found <==>
      0 <= q < r < |s| && seam <= r && (if q < seam then r else q) < seam + i && Clash(s, q, r)
  }

  /** As `FoundBelow(i)`, and position `i` has met everything ahead of it below `ahead`
      and everything across the seam from `back` on. */
  ghost predicate FoundWithin(found: set<(int, int)>, s: seq<Entry>, seam: nat, i: nat, ahead: nat, back: nat) {
    forall q, r :: (q, r) in found <==>
      0 <= q < r < |s| && seam <= r && Clash(s, q, r)
      && (if q < seam then r < seam + i || (r == seam + i && back <= q)
          else q < seam + i || (q == seam + i && r < ahead))
  }

  lemma FoundAired(found: set<(int, int)>, s: seq<Entry>, seam: nat, i: nat, k: nat)
    requires k < seam && seam + i < |s|
    requires FoundWithin(found, s, seam, i, |s|, k + 1)
    ensures (k as int, seam + i) !in found
    ensures FoundWithin(if Clash(s, k, seam + i) then found + {(k as int, seam + i)} else found, s, seam, i, |s|, k)
  {
  }

  lemma FoundDone(found: set<(int, int)>, s: seq<Entry>, seam: nat, i: nat, k: nat)
    requires k <= seam && seam + i < |s|
    requires FoundWithin(found, s, seam, i, |s|, k)
    requires !ClashesBack(s, 0, k, seam + i)
    ensures FoundBelow(found, s, seam, i + 1)
  {
  }

  lemma FoundAll(found: set<(int, int)>, s: seq<Entry>, seam: nat, n: nat)
    requires |s| == seam + n && FoundBelow(found, s, seam, n)
    ensures found == ClashingPairs(s, seam)
  {
    forall pair: (int, int)
      ensures pair in found <==> pair in ClashingPairs(s, seam)
    {
      var (q, r) := pair;
      assert pair == (q, r);
    }
  }

  method ViolationCount(p: Pass, bound: Reach, order: seq<nat>) returns (count: nat)
    requires p.Valid() && p.Indexes(order)
    requires Bounds(bound, p.limits)
    ensures count == p.Violations(order)
  {
    var n := |order|;
    var prefix := DurationPrefix(p, order);
    ghost var s := p.Stream(order);
    ghost var found: set<(int, int)> := {};
    count := 0;
    for i := 0 to n
      invariant count == |found|
      invariant FoundBelow(found, s, p.Seam(), i)
    {
      count, found := CountAhead(p, bound, order, prefix, i, count, found);
      count, found := CountAcrossSeam(p, order, i, order[i], prefix[i], count, found);
    }
    FoundAll(found, s, p.Seam(), n);
  }

  method CountAhead(p: Pass, bound: Reach, order: seq<nat>, prefix: seq<nat>, i: nat,
                    count0: nat, ghost found0: set<(int, int)>)
    returns (count: nat, ghost found: set<(int, int)>)
    requires p.Valid() && p.Indexes(order) && Bounds(bound, p.limits)
    requires IsPrefix(p, order, prefix)
    requires i < |order|
    requires count0 == |found0| && FoundBelow(found0, p.Stream(order), p.Seam(), i)
    ensures count == |found|
    ensures FoundWithin(found, p.Stream(order), p.Seam(), i, p.Seam() + |order|, p.Seam())
  {
    hide Span, Clash, Conflict;
    ghost var s := p.Stream(order);
    ghost var at := p.Seam() + i;
    count, found := count0, found0;
    var d := 1;
    while i + d < |order|
      invariant 1 <= d <= |order| - i
      invariant count == |found|
      invariant FoundWithin(found, s, p.Seam(), i, at + d, p.Seam())
    {
      var dist, hit := PairAhead(p, order, prefix, i, d);
      if bound.Exhausted(dist) {
        AheadExhausted(p, order, i, i + d, bound);
        return;
      }
      if hit {
        count := count + 1;
        found := found + {(at as int, at + d)};
      }
      d := d + 1;
    }
  }

  method CountAcrossSeam(p: Pass, ghost order: seq<nat>, i: nat, cand: nat, start: nat,
                         count0: nat, ghost found0: set<(int, int)>)
    returns (count: nat, ghost found: set<(int, int)>)
    requires p.Valid() && p.Indexes(order) && i < |order| && cand == order[i]
    requires start == Span(p.Stream(order), p.Seam(), p.Seam() + i)
    requires count0 == |found0|
    requires FoundWithin(found0, p.Stream(order), p.Seam(), i, p.Seam() + |order|, p.Seam())
    ensures count == |found|
    ensures FoundBelow(found, p.Stream(order), p.Seam(), i + 1)
  {
    hide FoundWithin, FoundBelow, Span, Conflict;
    ghost var s := p.Stream(order);
    count, found := count0, found0;
    var mineReach := p.limits[cand].ReachOf();
    var positions, elapsed := i, start;
    for k := |p.preceding| downto 0
      invariant positions == p.Seam() + i - k
      invariant elapsed == Span(s, k, p.Seam() + i)
      invariant count == |found|
      invariant FoundWithin(found, s, p.Seam(), i, |s|, k)
    {
      AiredStep(p, order, k, i);
      positions := positions + 1;
      elapsed := elapsed + p.preceding[k].duration;
      var dist := Distance(positions, elapsed);
      if mineReach.Exhausted(dist) {
        AiredExhausted(p, order, k, i);
        FoundDone(found, s, p.Seam(), i, k + 1);
        return;
      }
      FoundAired(found, s, p.Seam(), i, k);
      if Conflict(p.items[cand], p.preceding[k], p.limits[cand], NO_LIMITS, dist) {
        count := count + 1;
        found := found + {(k as int, p.Seam() + i)};
      }
    }
    FoundDone(found, s, p.Seam(), i, 0);
  }

  /** `list` holds, ascending, exactly the violating positions below `upTo`. */
  ghost predicate ListsViolating(p: Pass, order: seq<nat>, list: seq<nat>, upTo: nat)
    requires p.Valid() && p.Indexes(order) && upTo <= |order|
  {
    && (forall x, y | 0 <= x < y < |list| :: list[x] < list[y])
    && (forall x | 0 <= x < |list| :: list[x] < upTo && p.Violating(order, list[x]))
    && (forall i: nat | i < upTo && p.Violating(order, i) :: i in list)
  }

  method ViolatingPositions(p: Pass, bound: Reach, order: seq<nat>) returns (list: seq<nat>)
    requires p.Valid() && p.Indexes(order)
    requires Bounds(bound, p.limits)
    ensures ListsViolating(p, order, list, |order|)
  {
    var prefix := DurationPrefix(p, order);
    list := [];
    for i := 0 to |order|
      invariant ListsViolating(p, order, list, i)
    {
      var within := AnyAhead(p, bound, order, prefix, i);
      var seam := AnyAcrossSeam(p, order, i, order[i], prefix[i]);
      assert (within || seam) == p.Violating(order, i);
      if within || seam {
        list := list + [i];
      }
    }
  }

  method AnyAhead(p: Pass, bound: Reach, order: seq<nat>, prefix: seq<nat>, i: nat) returns (within: bool)
    requires p.Valid() && p.Indexes(order) && Bounds(bound, p.limits)
    requires IsPrefix(p, order, prefix)
    requires i < |order|
    ensures within <==> ClashesAhead(p.Stream(order), p.Seam() + i, p.Seam() + i + 1, p.Seam() + |order|)
  {
    ghost var s := p.Stream(order);
    ghost var at := p.Seam() + i;
    var d := 1;
    while i + d < |order|
      invariant 1 <= d <= |order| - i
      invariant !ClashesAhead(s, at, at + 1, at + d)
    {
      var dist, hit := PairAhead(p, order, prefix, i, d);
      if bound.Exhausted(dist) {
        AheadExhausted(p, order, i, i + d, bound);
        assert !Clash(s, at, at + d);
      } else if hit {
        return true;
      }
      d := d + 1;
    }
    return false;
  }

  method AnyAcrossSeam(p: Pass, ghost order: seq<nat>, i: nat, cand: nat, start: nat) returns (seam: bool)
    requires p.Valid() && p.Indexes(order) && i < |order| && cand == order[i]
    requires start == Span(p.Stream(order), p.Seam(), p.Seam() + i)
    ensures seam <==> ClashesBack(p.Stream(order), 0, p.Seam(), p.Seam() + i)
  {
    ghost var s := p.Stream(order);
    var mineReach := p.limits[cand].ReachOf();
    var positions, elapsed := i, start;
    for k := |p.preceding| downto 0
      invariant positions == p.Seam() + i - k
      invariant elapsed == Span(s, k, p.Seam() + i)
      invariant !ClashesBack(s, k, p.Seam(), p.Seam() + i)
    {
      AiredStep(p, order, k, i);
      positions := positions + 1;
      elapsed := elapsed + p.preceding[k].duration;
      var dist := Distance(positions, elapsed);
      if mineReach.Exhausted(dist) {
        AiredExhausted(p, order, k, i);
        assert !Clash(s, k, p.Seam() + i);
      } else if Conflict(p.items[cand], p.preceding[k], p.limits[cand], NO_LIMITS, dist) {
        return true;
      }
    }
    return false;
  }
}
