/** The emitted-sequence check: a recency window trimmed to what a conflict check could still reach. */
module Recent {
  import opened Adjacency

  /** Everything in `history[..cut]` is out of `reach` of whatever airs next. */
  ghost predicate OutOfReach(history: seq<ItemKeys>, cut: nat, reach: Reach) {
    cut <= |history| && (cut == 0 || reach.Exhausted(Apart(Aired(history), cut - 1, |history|)))
  }

  /** Placing `cand` right after `history` conflicts with something in it, on the full all-pairs reading. */
  ghost predicate RecentClash(history: seq<ItemKeys>, cand: ItemKeys, limits: Limits) {
    ClashesBack(Aired(history) + [Entry(cand, limits)], 0, |history|, |history|)
  }

  /** One step of the walk back through `history`. */
  lemma BackStep(history: seq<ItemKeys>, k: nat, cand: ItemKeys, limits: Limits)
    requires k < |history|
    ensures Apart(Aired(history), k, |history|)
         == Distance(|history| - k, Span(Aired(history), k + 1, |history|) + history[k].duration)
    ensures Clash(Aired(history) + [Entry(cand, limits)], k, |history|)
         == Conflict(cand, history[k], limits, NO_LIMITS, Apart(Aired(history), k, |history|))
  {
    AppendedSpan(history, k, Entry(cand, limits));
  }

  lemma AppendedSpan(history: seq<ItemKeys>, k: nat, e: Entry)
    requires k <= |history|
    ensures Span(Aired(history) + [e], k, |history|) == Span(Aired(history), k, |history|)
  {
    SpanOfKeys(Aired(history), Aired(history) + [e], k, |history|);
  }

  lemma OutOfReachIsClear(history: seq<ItemKeys>, cut: nat, cand: ItemKeys, limits: Limits)
    requires OutOfReach(history, cut, limits.ReachOf())
    ensures !ClashesBack(Aired(history) + [Entry(cand, limits)], 0, cut, |history|)
  {
    if cut > 0 {
      var s := Aired(history) + [Entry(cand, limits)];
      SpanOfKeys(Aired(history), s, cut - 1, |history|);
      ExhaustedBack(s, cut - 1, |history|, limits.ReachOf());
    }
  }

  /** How many trailing items a check against `limits` could still reach. */
  method HistoryNeeded(history: seq<ItemKeys>, limits: Limits) returns (count: nat)
    ensures count <= |history|
    ensures OutOfReach(history, |history| - count, limits.ReachOf())
    ensures ReachesAll(history, count, limits.ReachOf())
  {
    if limits.Unconstrained() {
      return 0;
    }
    var elapsed: nat := 0;
    count := 0;
    for k := |history| downto 0
      invariant count == |history| - k
      invariant elapsed == Span(Aired(history), k, |history|)
      invariant forall j | k <= j < |history| :: !limits.ReachOf().Exhausted(Apart(Aired(history), j, |history|))
    {
      elapsed := elapsed + history[k].duration;
      if limits.ReachOf().Exhausted(Distance(count + 1, elapsed)) {
        return;
      }
      count := count + 1;
    }
  }

  /** The early-exit walk answers as the all-pairs reading does. */
  method ConflictsWithRecent(recent: seq<ItemKeys>, cand: ItemKeys, limits: Limits) returns (hit: bool)
    ensures hit <==> RecentClash(recent, cand, limits)
  {
    if limits.Unconstrained() {
      if |recent| > 0 {
        OutOfReachIsClear(recent, |recent|, cand, limits);
      }
      return false;
    }
    ghost var s := Aired(recent) + [Entry(cand, limits)];
    var elapsed: nat := 0;
    for k := |recent| downto 0
      invariant elapsed == Span(Aired(recent), k, |recent|)
      invariant !ClashesBack(s, k, |recent|, |recent|)
    {
      BackStep(recent, k, cand, limits);
      elapsed := elapsed + recent[k].duration;
      var d := Distance(|recent| - k, elapsed);
      if limits.ReachOf().Exhausted(d) {
        OutOfReachIsClear(recent, k + 1, cand, limits);
        return false;
      }
      if Conflict(cand, recent[k], limits, NO_LIMITS, d) {
        return true;
      }
    }
    return false;
  }

  lemma NothingReached(history: seq<ItemKeys>, limits: Limits)
    ensures limits.Unconstrained() ==> OutOfReach(history, |history|, limits.ReachOf())
  {
  }

  // ---- trimming ------------------------------------------------------------

  lemma SpanOfSuffix(history: seq<ItemKeys>, cut: nat, k: nat)
    requires cut <= k <= |history|
    ensures Span(Aired(history), k, |history|) == Span(Aired(history[cut..]), k - cut, |history| - cut)
  {
    SpanLocal(Aired(history[cut..]), Aired(history), k - cut, |history| - cut, cut);
  }

  /** What is out of reach stays out of reach, whatever airs after it. */
  lemma OutOfReachForever(history: seq<ItemKeys>, cut: nat, batch: seq<ItemKeys>, reach: Reach)
    requires OutOfReach(history, cut, reach)
    ensures OutOfReach(history + batch, cut, reach)
  {
    if cut > 0 {
      var longer := Aired(history + batch);
      SpanOfKeys(Aired(history), longer, cut - 1, |history|);
      SpanSplit(longer, cut - 1, |history|, |history + batch|);
    }
  }

  /** Two trims in a row are one. */
  lemma OutOfReachAgain(history: seq<ItemKeys>, cut: nat, more: nat, reach: Reach)
    requires OutOfReach(history, cut, reach) && OutOfReach(history[cut..], more, reach)
    ensures OutOfReach(history, cut + more, reach)
  {
    if more > 0 {
      SpanOfSuffix(history, cut, cut + more - 1);
    }
  }

  /** A trimmed window and the full history answer every check alike. */
  lemma TrimInvisible(history: seq<ItemKeys>, cut: nat, cand: ItemKeys, limits: Limits)
    requires OutOfReach(history, cut, limits.ReachOf())
    ensures RecentClash(history[cut..], cand, limits) <==> RecentClash(history, cand, limits)
  {
    var s := Aired(history) + [Entry(cand, limits)];
    var t := Aired(history[cut..]) + [Entry(cand, limits)];
    OutOfReachIsClear(history, cut, cand, limits);
    if RecentClash(history[cut..], cand, limits) {
      var i: nat :| i < |history| - cut && Clash(t, i, |history| - cut);
      ClashLocal(t, s, i, |history| - cut, cut);
    }
    if RecentClash(history, cand, limits) {
      var i: nat :| i < |history| && Clash(s, i, |history|);
      assert i >= cut;
      ClashLocal(t, s, i - cut, |history| - cut, cut);
    }
  }

  /** Trimming a longer window to what it needs keeps exactly what the full history needs. */
  lemma TrimAgain(history: seq<ItemKeys>, cut: nat, keep: nat, reach: Reach)
    requires OutOfReach(history, cut, reach) && keep <= |history| - cut
    requires OutOfReach(history[cut..], |history| - cut - keep, reach)
    requires ReachesAll(history[cut..], keep, reach)
    ensures OutOfReach(history, |history| - keep, reach)
    ensures ReachesAll(history, keep, reach)
  {
    OutOfReachAgain(history, cut, |history| - cut - keep, reach);
    forall k | |history| - keep <= k < |history|
      ensures !reach.Exhausted(Apart(Aired(history), k, |history|))
    {
      SpanOfSuffix(history, cut, k);
      assert !reach.Exhausted(Apart(Aired(history[cut..]), k - cut, |history| - cut));
    }
  }

  /** `recent` is the end of `aired`, and everything before it is out of reach. */
  ghost predicate Windows(aired: seq<ItemKeys>, recent: seq<ItemKeys>, reach: Reach) {
    && |recent| <= |aired|
    && recent == aired[|aired| - |recent|..]
    && OutOfReach(aired, |aired| - |recent|, reach)
  }

  /** Appending a batch to a trimmed window and trimming again keeps exactly what the full history needs. */
  lemma RememberTrims(aired: seq<ItemKeys>, recent: seq<ItemKeys>, batch: seq<ItemKeys>, keep: nat, reach: Reach,
                      trimmed: seq<ItemKeys>)
    requires Windows(aired, recent, reach)
    requires keep <= |recent + batch| && OutOfReach(recent + batch, |recent + batch| - keep, reach)
    requires ReachesAll(recent + batch, keep, reach)
    requires trimmed == (recent + batch)[|recent + batch| - keep..]
    ensures Windows(aired + batch, trimmed, reach) && ReachesAll(aired + batch, |trimmed|, reach)
  {
    hide OutOfReach, ReachesAll;
    var all, window, cut := aired + batch, recent + batch, |aired| - |recent|;
    assert all[cut..] == window;
    OutOfReachForever(aired, cut, batch, reach);
    TrimAgain(all, cut, keep, reach);
  }

  /** Every one of the last `keep` items is still within `reach`. */
  ghost predicate ReachesAll(history: seq<ItemKeys>, keep: nat, reach: Reach) {
    keep <= |history|
    && forall k | |history| - keep <= k < |history| :: !reach.Exhausted(Apart(Aired(history), k, |history|))
  }

  /** A window over everything a channel has aired, trimmed after every batch. */
  class ChannelHistory {
    const limits: Limits
    var recent: seq<ItemKeys>
    ghost var aired: seq<ItemKeys>  // everything ever remembered, oldest first

    ghost predicate Valid()
      reads this
    {
      && Windows(aired, recent, limits.ReachOf())
      && (limits.Unconstrained() ==> recent == [])
    }

    constructor (limits: Limits)
      ensures Valid() && aired == [] && this.limits == limits
    {
      this.limits := limits;
      recent, aired := [], [];
    }

    /** Fold what just aired into the history, then trim it to the rule's reach. */
    method Remember(batch: seq<ItemKeys>)
      requires Valid()
      modifies this
      ensures Valid() && aired == old(aired) + batch
      ensures |recent| <= |old(recent)| + |batch|
      ensures !limits.Unconstrained() && batch != [] ==> ReachesAll(aired, |recent|, limits.ReachOf())
    {
      ghost var all := aired + batch;
      if limits.Unconstrained() || batch == [] {
        NothingReached(all, limits);
        assert batch == [] ==> all == aired;
        aired := all;
        return;
      }
      var window := recent + batch;
      var keep := HistoryNeeded(window, limits);
      var trimmed := window[|window| - keep..];
      RememberTrims(aired, recent, batch, keep, limits.ReachOf(), trimmed);
      aired, recent := all, trimmed;
    }

    /** The window answers exactly as the full history would, however often it has been trimmed. */
    method Allows(cand: ItemKeys) returns (ok: bool)
      requires Valid()
      ensures ok <==> !RecentClash(aired, cand, limits)
    {
      TrimInvisible(aired, |aired| - |recent|, cand, limits);
      var hit := ConflictsWithRecent(recent, cand, limits);
      ok := !hit;
    }
  }
}
