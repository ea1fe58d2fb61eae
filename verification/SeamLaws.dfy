/** What the pass promises across generations: how much history it needs, and what a run of clean
    passes says about the whole emitted stream. */
module SeamLaws {
  import opened Adjacency
  import opened Constrain
  import opened Deferral
  import opened SwapSearch
  import opened Ordering
  import opened OrderingLaws
  import opened Recent

  // ---- trimming the history a pass is given ----------------------------------

  /** The same pass with the oldest `cut` items of its history dropped. */
  function Trimmed(p: Pass, cut: nat): Pass
    requires cut <= |p.preceding|
  {
    p.(preceding := p.preceding[cut..])
  }

  lemma TrimmedStream(p: Pass, cut: nat, order: seq<nat>)
    requires p.Valid() && p.Indexes(order) && cut <= |p.preceding|
    ensures Trimmed(p, cut).Stream(order) == p.Stream(order)[cut..]
  {
    var s, t := p.Stream(order), Trimmed(p, cut).Stream(order);
    assert |t| == |s| - cut;
    forall k | 0 <= k < |t|
      ensures t[k] == s[k + cut]
    {
      if k >= p.Seam() - cut {
        var j := k - (p.Seam() - cut);
        assert s[p.Seam() + j] == t[p.Seam() - cut + j];
      }
    }
  }

  lemma DroppedAreClear(p: Pass, cut: nat, order: seq<nat>, i: nat, j: nat)
    requires p.Valid() && p.Indexes(order)
    requires OutOfReach(p.preceding, cut, Bound(p.limits))
    requires i < cut && p.Seam() <= j < p.Seam() + |order|
    ensures !Clash(p.Stream(order), i, j)
  {
    var s, bound := p.Stream(order), Bound(p.limits);
    StreamBounded(p, order, bound);
    SeamSpan(p, order, cut - 1);
    SpanSplit(s, cut - 1, p.Seam(), j);
    assert bound.Exhausted(Apart(s, cut - 1, j));
    ExhaustedBack(s, cut - 1, j, bound);
  }

  lemma SeamSpan(p: Pass, order: seq<nat>, k: nat)
    requires p.Valid() && p.Indexes(order) && k <= p.Seam()
    ensures Span(p.Stream(order), k, p.Seam()) == Span(Aired(p.preceding), k, p.Seam())
  {
    SpanOfKeys(Aired(p.preceding), p.Stream(order), k, p.Seam());
  }

  /** `t` is `s` without its first `cut` airings, and those clash with nothing from `seam` on. */
  ghost predicate DropsClear(s: seq<Entry>, t: seq<Entry>, cut: nat, seam: nat) {
    && cut <= seam <= |s| && t == s[cut..]
    && forall i: nat, j: nat | i < cut && seam <= j < |s| :: !Clash(s, i, j)
  }

  lemma KeptAlike(s: seq<Entry>, t: seq<Entry>, cut: nat, i: nat, j: nat)
    requires cut <= |s| && t == s[cut..]
    requires cut <= i < j < |s|
    ensures Clash(t, i - cut, j - cut) == Clash(s, i, j)
  {
    ClashLocal(t, s, i - cut, j - cut, cut);
  }

  lemma BackAlike(s: seq<Entry>, t: seq<Entry>, cut: nat, seam: nat, hi: nat, j: nat)
    requires DropsClear(s, t, cut, seam)
    requires seam <= hi <= j < |s|
    ensures ClashesBack(t, 0, hi - cut, j - cut) == ClashesBack(s, 0, hi, j)
  {
    if ClashesBack(t, 0, hi - cut, j - cut) {
      var i: nat :| i < hi - cut && Clash(t, i, j - cut);
      KeptAlike(s, t, cut, i + cut, j);
    }
    if ClashesBack(s, 0, hi, j) {
      var i: nat :| i < hi && Clash(s, i, j);
      KeptAlike(s, t, cut, i, j);
    }
  }

  lemma AheadAlike(s: seq<Entry>, t: seq<Entry>, cut: nat, i: nat)
    requires cut <= |s| && t == s[cut..]
    requires cut <= i < |s|
    ensures ClashesAhead(t, i - cut, i - cut + 1, |t|) == ClashesAhead(s, i, i + 1, |s|)
  {
    if ClashesAhead(t, i - cut, i - cut + 1, |t|) {
      var j: nat :| i - cut + 1 <= j < |t| && Clash(t, i - cut, j);
      KeptAlike(s, t, cut, i, j + cut);
    }
    if ClashesAhead(s, i, i + 1, |s|) {
      var j: nat :| i + 1 <= j < |s| && Clash(s, i, j);
      KeptAlike(s, t, cut, i, j);
    }
  }

  ghost function Shift(a: set<(int, int)>, d: int): set<(int, int)> {
    set pair | pair in a :: (pair.0 + d, pair.1 + d)
  }

  lemma {:induction false} ShiftKeepsSize(a: set<(int, int)>, d: int)
    ensures |Shift(a, d)| == |a|
  {
    if a != {} {
      var pair :| pair in a;
      var rest := a - {pair};
      var moved := (pair.0 + d, pair.1 + d);
      ShiftKeepsSize(rest, d);
      assert moved !in Shift(rest, d);
      assert Shift(a, d) == Shift(rest, d) + {moved} by {
        forall q
          ensures q in Shift(a, d) <==> q in Shift(rest, d) || q == moved
        {
          assert (q.0 - d, q.1 - d) in a <==> (q.0 - d, q.1 - d) in rest || q == moved;
        }
      }
    }
  }

  lemma PairsAlike(s: seq<Entry>, t: seq<Entry>, cut: nat, seam: nat)
    requires DropsClear(s, t, cut, seam)
    ensures |ClashingPairs(t, seam - cut)| == |ClashingPairs(s, seam)|
  {
    var a, b := ClashingPairs(t, seam - cut), ClashingPairs(s, seam);
    forall pair | pair in b
      ensures pair in Shift(a, cut)
    {
      var (i, j) := pair;
      KeptAlike(s, t, cut, i, j);
      var q := (i - cut, j - cut);
      assert q in a && (q.0 + cut, q.1 + cut) == pair;
    }
    forall pair | pair in Shift(a, cut)
      ensures pair in b
    {
      var q :| q in a && pair == (q.0 + cut, q.1 + cut);
      KeptAlike(s, t, cut, q.0 + cut, q.1 + cut);
    }
    assert b == Shift(a, cut);
    ShiftKeepsSize(a, cut);
  }

  lemma AroundAlike(s: seq<Entry>, t: seq<Entry>, cut: nat, seam: nat, at: nat)
    requires DropsClear(s, t, cut, seam) && seam <= at < |s|
    ensures ClashesAround(t, seam - cut, at - cut) == ClashesAround(s, seam, at)
  {
    BackAlike(s, t, cut, seam, seam, at);
    AheadAlike(s, t, cut, at);
  }

  lemma TrimDropsClear(p: Pass, cut: nat, order: seq<nat>)
    requires p.Valid() && p.Indexes(order)
    requires OutOfReach(p.preceding, cut, Bound(p.limits))
    ensures DropsClear(p.Stream(order), Trimmed(p, cut).Stream(order), cut, p.Seam())
  {
    TrimmedStream(p, cut, order);
    forall i: nat, j: nat | i < cut && p.Seam() <= j < p.Seam() + |order|
      ensures !Clash(p.Stream(order), i, j)
    {
      DroppedAreClear(p, cut, order, i, j);
    }
  }

  lemma CountAlike(p: Pass, cut: nat, order: seq<nat>)
    requires p.Valid() && p.Indexes(order)
    requires OutOfReach(p.preceding, cut, Bound(p.limits))
    ensures Trimmed(p, cut).Violations(order) == p.Violations(order)
  {
    TrimDropsClear(p, cut, order);
    PairsAlike(p.Stream(order), Trimmed(p, cut).Stream(order), cut, p.Seam());
  }

  lemma ViolatingAlike(p: Pass, cut: nat, order: seq<nat>, i: nat)
    requires p.Valid() && p.Indexes(order) && i < |order|
    requires OutOfReach(p.preceding, cut, Bound(p.limits))
    ensures Trimmed(p, cut).Violating(order, i) == p.Violating(order, i)
  {
    TrimDropsClear(p, cut, order);
    AroundAlike(p.Stream(order), Trimmed(p, cut).Stream(order), cut, p.Seam(), p.Seam() + i);
  }

  lemma BlockedAlike(p: Pass, cut: nat, out: seq<nat>, cand: nat)
    requires p.Valid() && p.Indexes(out) && cand < |p.items|
    requires OutOfReach(p.preceding, cut, Bound(p.limits))
    ensures Trimmed(p, cut).Blocked(out, cand) == p.Blocked(out, cand)
  {
    var order, at := out + [cand], p.Seam() + |out|;
    TrimDropsClear(p, cut, order);
    BackAlike(p.Stream(order), Trimmed(p, cut).Stream(order), cut, p.Seam(), at, at);
  }

  /** A history trimmed to the widest reach of any item changes nothing: every step of the greedy and
      of the repair comes out the same, so the order does, and so does the count it reports. */
  lemma TrimmedHistorySameOrder(p: Pass, cut: nat)
    requires p.Valid() && OutOfReach(p.preceding, cut, Bound(p.limits))
    ensures Ordered(Trimmed(p, cut)) == Ordered(p)
    ensures p.Indexes(Ordered(p)) && Trimmed(p, cut).Violations(Ordered(p)) == p.Violations(Ordered(p))
  {
    var q, n := Trimmed(p, cut), |p.items|;
    OrderedPermutes(p);
    CountAlike(p, cut, Ordered(p));
    forall o: seq<nat>, c: nat | (forall k | 0 <= k < |o| :: o[k] < n) && c < n
      ensures BlockedIn(q)(o, c) == BlockedIn(p)(o, c)
    {
      assert p.Indexes(o);
      BlockedAlike(p, cut, o, c);
    }
    GreedyCongruent(BlockedIn(q), BlockedIn(p), n, [], Range(n));
    AgreeAlike(p, cut);
    assert Below(GreedyOrder(p), n);
    RepairCongruent(CountIn(q), MarkedIn(q), CountIn(p), MarkedIn(p), n, GreedyOrder(p), MAX_REPAIR_ROUNDS);
  }

  lemma AgreeAlike(p: Pass, cut: nat)
    requires p.Valid() && OutOfReach(p.preceding, cut, Bound(p.limits))
    ensures Agree(CountIn(Trimmed(p, cut)), MarkedIn(Trimmed(p, cut)), CountIn(p), MarkedIn(p), |p.items|)
  {
    forall o: seq<nat> | Below(o, |p.items|)
      ensures CountIn(Trimmed(p, cut))(o) == CountIn(p)(o)
    {
      assert p.Indexes(o);
      CountAlike(p, cut, o);
    }
    forall o: seq<nat>, i: nat | Below(o, |p.items|) && i < |o|
      ensures MarkedIn(Trimmed(p, cut))(o, i) == MarkedIn(p)(o, i)
    {
      assert p.Indexes(o);
      ViolatingAlike(p, cut, o, i);
    }
  }
}
