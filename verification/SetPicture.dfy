/** The picture of a set: the segments, as they are pushed, tile the set exactly. */
module SetPicture {
  import opened Common
  import opened SetPlan
  import opened SetLayout
  import opened SetValidation
  import opened StableSort

  /** The segments follow one another without gap or overlap from `start` to `end`, each of some length. */
  ghost predicate Tiles(s: seq<VideoSegment>, start: real, end: real) {
    && (forall k | 0 <= k < |s| :: s[k].outLen > 0.0)
    && (forall k, j | 0 <= k < j < |s| && j == k + 1 :: s[k].End() == s[j].outStart)
    && if s == [] then start == end else s[0].outStart == start && s[|s| - 1].End() == end
  }

  lemma TilesConcat(a: seq<VideoSegment>, b: seq<VideoSegment>, start: real, at: real, end: real)
    requires Tiles(a, start, at) && Tiles(b, at, end)
    ensures Tiles(a + b, start, end)
  {
    if a == [] {
      assert a + b == b;
    } else if b == [] {
      assert a + b == a;
    }
  }

  lemma OneTile(v: VideoSegment, start: real, end: real)
    requires v.outStart == start && v.End() == end && v.outLen > 0.0
    ensures Tiles([v], start, end)
  {
  }

  // ---- one song --------------------------------------------------------------

  lemma {:induction false} RideTiles(r: Ride, index: nat, enterS: real, at: real, n: nat)
    requires r.Valid() && n <= |r.ratios|
    ensures Tiles(RidePicture(r, index, enterS, at, n), at, at + r.OutUpTo(n))
  {
    if n > 0 {
      RideTiles(r, index, enterS, at, n - 1);
      r.BarTakesTime(n - 1);
      var bar := RideBar(r, index, enterS, at, n - 1);
      OneTile(bar, at + r.OutUpTo(n - 1), at + r.OutUpTo(n));
      TilesConcat(RidePicture(r, index, enterS, at, n - 1), [bar], at, at + r.OutUpTo(n - 1), at + r.OutUpTo(n));
    }
  }

  lemma PlayedTiles(t: Track, index: nat, at: real, srcTo: real)
    requires t.Playable() && srcTo > t.enterS + t.RideSrcS()
    ensures Tiles(Played(t, index, at, srcTo), at, at + t.PlayOutS(srcTo - t.enterS))
  {
    hide Tiles;
    var r, rest := t.RideOf(), RestPicture(t, index, at, srcTo);
    RideTiles(r, index, t.enterS, at, |r.ratios|);
    QuotientPositive(srcTo - (t.enterS + t.RideSrcS()), t.ExitRatio());
    OneTile(rest, at + t.RideOutS(), at + t.PlayOutS(srcTo - t.enterS));
    TilesConcat(RidePicture(r, index, t.enterS, at, |r.ratios|), [rest],
                at, at + t.RideOutS(), at + t.PlayOutS(srcTo - t.enterS));
  }

  // ---- one swap --------------------------------------------------------------

  /** From this many bars on, four times the last of them wraps a 32-bit count. */
  const WRAPPING_BARS := 0x4000_0000

  lemma BeatsUnwrapped(bar: nat, nbars: nat)
    requires bar < nbars < WRAPPING_BARS
    ensures var nb := 4 * (bar + 1) / (nbars + 1) + 1; IncomingBeats(bar, nbars) == if nb < 4 then nb else 4
  {
    assert 4 * (bar + 1) % U32_SIZE == 4 * (bar + 1);
  }

  /** While nothing wraps, the incoming song's share never shrinks, and it ends with most of the bar. */
  lemma UnwrappedGrows(bar: nat, nbars: nat)
    requires 0 < bar < nbars < WRAPPING_BARS
    ensures IncomingBeats(bar - 1, nbars) <= IncomingBeats(bar, nbars)
  {
    hide IncomingBeats;
    BeatsUnwrapped(bar, nbars);
    BeatsUnwrapped(bar - 1, nbars);
    IntQuotientMonotone(4 * bar, 4 * (bar + 1), nbars + 1);
  }

  lemma UnwrappedEnds(nbars: nat)
    requires 0 < nbars < WRAPPING_BARS
    ensures 3 <= IncomingBeats(nbars - 1, nbars)
  {
    hide IncomingBeats;
    BeatsUnwrapped(nbars - 1, nbars);
    IntQuotientAtLeast(4 * nbars, nbars + 1, 2);
  }

  lemma BeatsFrom(bar: nat, nbars: nat, wrapped: nat)
    requires wrapped == 4 * (bar + 1) % U32_SIZE
    ensures wrapped < nbars + 1 ==> IncomingBeats(bar, nbars) == 1
    ensures nbars + 1 <= wrapped ==> IncomingBeats(bar, nbars) > 1
    ensures wrapped < 2 * (nbars + 1) ==> IncomingBeats(bar, nbars) < 3
  {
    var d := nbars + 1;
    if wrapped < d {
      IntQuotientBelow(wrapped, d, 1);
    } else {
      IntQuotientAtLeast(wrapped, d, 1);
    }
    if wrapped < 2 * d {
      IntQuotientBelow(wrapped, d, 2);
    }
  }

  /** Once it can wrap, some bar gives the incoming song less than the bar before it, and it no longer ends with
      most of the bar. */
  lemma WrappedShrinks(nbars: nat)
    requires WRAPPING_BARS <= nbars < U32_SIZE / 2
    ensures IncomingBeats(WRAPPING_BARS - 2, nbars) > IncomingBeats(WRAPPING_BARS - 1, nbars) == 1
    ensures IncomingBeats(nbars - 1, nbars) < 3
  {
    hide IncomingBeats;
    BeatsFrom(WRAPPING_BARS - 2, nbars, U32_SIZE - 4);
    BeatsFrom(WRAPPING_BARS - 1, nbars, 0);
    BeatsFrom(nbars - 1, nbars, 4 * nbars - U32_SIZE);
  }

  /** The share never shrinks, and ends with at least three beats, exactly when four times the bars fit 32 bits. */
  lemma BeatsGrow(nbars: nat)
    requires 0 < nbars < U32_SIZE / 2
    ensures (forall bar: nat | 0 < bar < nbars :: IncomingBeats(bar - 1, nbars) <= IncomingBeats(bar, nbars))
            <==> nbars < WRAPPING_BARS
    ensures 3 <= IncomingBeats(nbars - 1, nbars) <==> nbars < WRAPPING_BARS
  {
    if nbars < WRAPPING_BARS {
      forall bar: nat | 0 < bar < nbars
        ensures IncomingBeats(bar - 1, nbars) <= IncomingBeats(bar, nbars)
      {
        UnwrappedGrows(bar, nbars);
      }
      UnwrappedEnds(nbars);
    } else {
      WrappedShrinks(nbars);
      assert IncomingBeats(WRAPPING_BARS - 1 - 1, nbars) > IncomingBeats(WRAPPING_BARS - 1, nbars);
    }
  }

  /** A swap never has so many bars that their count itself wraps. */
  lemma SwapBarsFit(p: Plan, k: nat)
    requires k < |p.seams|
    ensures 0 < SwapBars(p, k) < U32_SIZE / 2
    ensures SwapBars(p, k) < WRAPPING_BARS <==> p.seams[k].bars < 2 * WRAPPING_BARS
  {
  }

  /** Over the bars of seam `k` the incoming song always has one to four beats of the bar. Its share never shrinks from
      one bar to the next, and ends with at least three beats, exactly when the seam has fewer than 2^31 bars. */
  lemma IncomingGrows(p: Plan, k: nat)
    requires k < |p.seams|
    ensures forall bar: nat | bar < SwapBars(p, k) :: 1 <= IncomingBeats(bar, SwapBars(p, k)) <= 4
    ensures (forall bar: nat | 0 < bar < SwapBars(p, k) ::
               IncomingBeats(bar - 1, SwapBars(p, k)) <= IncomingBeats(bar, SwapBars(p, k)))
            <==> p.seams[k].bars < 0x8000_0000
    ensures 3 <= IncomingBeats(SwapBars(p, k) - 1, SwapBars(p, k)) <==> p.seams[k].bars < 0x8000_0000
  {
    var nbars := SwapBars(p, k);
    SwapBarsFit(p, k);
    BeatsGrow(nbars);
    forall bar: nat | bar < nbars
      ensures 1 <= IncomingBeats(bar, nbars) <= 4
    {
      BeatsInBar(bar, nbars);
    }
  }

  /** Two songs with bars of a second, swapping over 2^31 of them. */
  const LONG_SWAP := Plan(
    [Track("a", "/a.mp4", 240.0, 0.0, 1.0, 0), Track("b", "/b.mp4", 240.0, 1073741824.0, 1.0, 0)],
    [Seam(BassSwap, 1.0, 0x8000_0000, false)], 2147483648.0, [], "/o.mp4")

  lemma LongSwapTracks()
    ensures Playable(LONG_SWAP) && FirstTrack(LONG_SWAP, 0) == None
    ensures forall k | 0 <= k < 2 :: LONG_SWAP.tracks[k].RideSrcS() == 0.0 && LONG_SWAP.tracks[k].RideOutS() == 0.0
                                     && LONG_SWAP.tracks[k].ExitRatio() == 1.0
                                     && LONG_SWAP.tracks[k].SourceBarS() == LONG_SWAP.tracks[k].BarS() == 1.0
  {
    assert "a" != "b";
    assert LONG_SWAP.tracks[0].Playable() && LONG_SWAP.tracks[1].Playable();
    assert TrackProblem(LONG_SWAP, 0) == None;
    assert TrackProblem(LONG_SWAP, 1) == None;
    assert FirstTrack(LONG_SWAP, 1) == None;
  }

  lemma LongSwapHalf()
    ensures Playable(LONG_SWAP) && HalfSwapS(LONG_SWAP, 0) == 1073741824.0
  {
    LongSwapTracks();
    hide Track.RideSrcS, Track.RideOutS, Track.ExitRatio, Track.SourceBarS, Track.BarS, FirstTrack, TrackProblem;
    assert LONG_SWAP.seams[0].bars as real / 2.0 == 1073741824.0;
  }

  lemma LongSwapTail()
    ensures Playable(LONG_SWAP) && LONG_SWAP.tracks[1].PlayOutS(1073741824.0) == 1073741824.0
  {
    LongSwapTracks();
    hide Track.RideSrcS, Track.RideOutS, Track.ExitRatio, Track.SourceBarS, Track.BarS, FirstTrack, TrackProblem;
  }

  lemma LongSwapLocks()
    ensures Playable(LONG_SWAP) && SwapProblem(LONG_SWAP, 0) == None
  {
    LongSwapTracks();
    LongSwapHalf();
    LongSwapTail();
    hide Track.RideSrcS, Track.RideOutS, Track.ExitRatio, Track.SourceBarS, Track.BarS, FirstTrack, TrackProblem;
    hide HalfSwapS, Track.PlayOutS, Playable;
  }

  lemma LongSwapSeams()
    ensures Playable(LONG_SWAP) && FirstSeam(LONG_SWAP, 0) == None
  {
    LongSwapTracks();
    LongSwapLocks();
    hide Track.RideSrcS, Track.RideOutS, Track.ExitRatio, Track.SourceBarS, Track.BarS, FirstTrack, TrackProblem;
    hide SwapProblem, Playable;
    assert SeamProblem(LONG_SWAP, 0) == None;
  }

  lemma LongSwapAccepted()
    ensures FirstProblem(LONG_SWAP) == None
  {
    LongSwapTracks();
    LongSwapSeams();
    hide Track.RideSrcS, Track.RideOutS, Track.ExitRatio, Track.SourceBarS, Track.BarS, FirstTrack, TrackProblem;
    hide FirstSeam, Playable, DurationS;
    assert EndProblem(LONG_SWAP) == None;
    assert FirstCard(LONG_SWAP, 0) == None;
  }

  /** Such a seam is accepted: the incoming song has the whole of one bar, and one beat of the next. */
  lemma IncomingCanShrink()
    ensures FirstProblem(LONG_SWAP) == None && SwapBars(LONG_SWAP, 0) == WRAPPING_BARS
    ensures IncomingBeats(WRAPPING_BARS - 2, WRAPPING_BARS) == 4 && IncomingBeats(WRAPPING_BARS - 1, WRAPPING_BARS) == 1
  {
    hide IncomingBeats, FirstProblem;
    LongSwapAccepted();
    WrappedShrinks(WRAPPING_BARS);
    WholeBar(WRAPPING_BARS - 2, WRAPPING_BARS, U32_SIZE - 4);
  }

  lemma WholeBar(bar: nat, nbars: nat, wrapped: nat)
    requires wrapped == 4 * (bar + 1) % U32_SIZE && (nbars + 1) * 3 <= wrapped
    ensures IncomingBeats(bar, nbars) == 4
  {
    IntQuotientAtLeast(wrapped, nbars + 1, 3);
  }

  lemma BarTiles(p: Plan, k: nat, at: real, bar: nat)
    requires Playable(p) && k < |p.seams|
    ensures Tiles(SwapBar(p, k, at, bar), at, at + p.tracks[k].BarS())
  {
    hide IncomingBeats, Track.BarS, Track.ExitRatio, HalfSwapS;
    var nb, bl := IncomingBeats(bar, SwapBars(p, k)), p.tracks[k].BarS();
    assert 1 <= nb <= 4 by { BeatsInBar(bar, SwapBars(p, k)); }
    var i := IncomingCut(p, k, at, bar);
    BeatsFill(nb, bl);
    OneTile(i, at + HeldS(p, k, bar), at + bl);
    if nb < 4 {
      var o := OutgoingCut(p, k, at, bar);
      OneTile(o, at, at + HeldS(p, k, bar));
      TilesConcat([o], [i], at, at + HeldS(p, k, bar), at + bl);
    }
  }

  lemma BeatsInBar(bar: nat, nbars: nat)
    ensures 1 <= IncomingBeats(bar, nbars) <= 4
  {
    IntQuotientMonotone(0, 4 * (bar + 1) % U32_SIZE, nbars + 1);
  }

  lemma BeatsFill(nb: int, bl: real)
    requires 1 <= nb <= 4 && bl > 0.0
    ensures (4 - nb) as real * (bl / 4.0) + nb as real * (bl / 4.0) == bl
    ensures nb as real * (bl / 4.0) > 0.0
    ensures nb < 4 ==> (4 - nb) as real * (bl / 4.0) > 0.0
    ensures nb == 4 ==> (4 - nb) as real * (bl / 4.0) == 0.0
  {
  }

  lemma {:induction false} SwapTiles(p: Plan, k: nat, tp: real, n: nat)
    requires Playable(p) && k < |p.seams|
    ensures Tiles(SwapPicture(p, k, tp, n), tp, BarAt(p, k, tp, n))
  {
    hide Tiles, SwapBar, BarAt;
    if n == 0 {
      FirstBarAt(p, k, tp);
      NoTiles(tp);
    } else {
      var at := BarAt(p, k, tp, n - 1);
      SwapTiles(p, k, tp, n - 1);
      BarTiles(p, k, at, n - 1);
      NextBarAt(p, k, tp, n - 1);
      TilesConcat(SwapPicture(p, k, tp, n - 1), SwapBar(p, k, at, n - 1), tp, at, BarAt(p, k, tp, n));
    }
  }

  lemma NoTiles(at: real)
    ensures Tiles([], at, at)
  {
  }

  // ---- the whole set ---------------------------------------------------------

  lemma SwapFacts(p: Plan, k: nat)
    requires Sound(p) && k < |p.seams| && p.seams[k].recipe == BassSwap
    ensures p.seams[k].bars >= 2 && p.seams[k].bars % 2 == 0
  {
    assert SeamProblem(p, k) == None;
  }

  lemma SwapEnds(p: Plan, k: nat, tp: real)
    requires Playable(p) && k < |p.seams| && p.seams[k].bars >= 2 && p.seams[k].bars % 2 == 0
    ensures BarAt(p, k, tp, SwapBars(p, k)) == tp + HalfSwapS(p, k)
  {
    hide Track.BarS;
    var bars := p.seams[k].bars;
    assert bars == 2 * (bars / 2);
    assert SwapBars(p, k) as real == bars as real / 2.0;
  }

  lemma SoundIsPlayable(p: Plan)
    requires Sound(p)
    ensures Playable(p)
  {
  }

  lemma LongEnough(p: Plan, k: nat)
    requires Sound(p) && k <= |p.seams|
    ensures var t := p.tracks[k];
      StopsAt(p, k) >= t.enterS + t.RideSrcS() + (if k < |p.seams| then t.SourceBarS() else LAST_FADE_S * t.ExitRatio())
      && StopsAt(p, k) > t.enterS + t.RideSrcS()
  {
    if k < |p.seams| {
      assert SeamProblem(p, k) == None;
    } else {
      assert EndProblem(p) == None;
    }
  }

  lemma SeamTiles(p: Plan, k: nat, t: real)
    requires Sound(p) && k < |p.seams|
    ensures Tiles(SeamVideo(p, k, t), t, t + SeamS(p, k))
  {
    hide Tiles, Sound, Played, SwapPicture, HalfSwapS, Track.PlayOutS, Track.RideSrcS;
    SoundIsPlayable(p);
    var a, tp := p.tracks[k], t + BodyS(p, k);
    LongEnough(p, k);
    PlayedTiles(a, k, t, p.seams[k].outS);
    if p.seams[k].recipe == BassSwap {
      SwapFacts(p, k);
      SwapTiles(p, k, tp, SwapBars(p, k));
      SwapEnds(p, k, tp);
      TilesConcat(Played(a, k, t, p.seams[k].outS), SwapPicture(p, k, tp, SwapBars(p, k)), t, tp, t + SeamS(p, k));
    } else {
      assert SeamVideo(p, k, t) == Played(a, k, t, p.seams[k].outS);
    }
  }

  lemma {:induction false} VideoTiles(p: Plan, n: nat)
    requires Sound(p) && n <= |p.seams|
    ensures Tiles(VideoUpTo(p, n), 0.0, StartAt(p, n))
  {
    hide Tiles, Sound, SeamVideo, SeamS;
    SoundIsPlayable(p);
    if n == 0 {
      NoTiles(0.0);
    } else {
      VideoTiles(p, n - 1);
      SeamTiles(p, n - 1, StartAt(p, n - 1));
      TilesConcat(VideoUpTo(p, n - 1), SeamVideo(p, n - 1, StartAt(p, n - 1)), 0.0, StartAt(p, n - 1), StartAt(p, n));
    }
  }

  lemma AllTile(p: Plan)
    requires Sound(p)
    ensures Tiles(AllVideo(p), 0.0, DurationS(p))
  {
    hide Tiles, Sound, SeamVideo, SeamS, Played, Track.PlayOutS;
    SoundIsPlayable(p);
    var n := |p.seams|;
    VideoTiles(p, n);
    LongEnough(p, n);
    PlayedTiles(p.tracks[n], n, StartAt(p, n), p.endS);
    TilesConcat(VideoUpTo(p, n), Played(p.tracks[n], n, StartAt(p, n), p.endS), 0.0, StartAt(p, n), DurationS(p));
  }

  lemma {:induction false} TilesInOrder(s: seq<VideoSegment>, start: real, end: real, i: nat, j: nat)
    requires Tiles(s, start, end) && i < j < |s|
    ensures s[i].End() <= s[j].outStart
    decreases j - i
  {
    if i + 1 < j {
      TilesInOrder(s, start, end, i, j - 1);
      assert s[j - 1].End() == s[j].outStart;
    }
  }

  /** The picture of a validated set tiles the whole set, and the sort at the end never moves anything. */
  lemma PictureTiles(p: Plan)
    requires Sound(p)
    ensures LayoutOf(p).video == AllVideo(p)
    ensures Tiles(LayoutOf(p).video, 0.0, LayoutOf(p).durationS)
  {
    hide Sound, AllVideo, AllAudio, DurationS;
    SoundIsPlayable(p);
    AllTile(p);
    var s := AllVideo(p);
    forall i, j | 0 <= i < j < |s|
      ensures NoLater(s[i], s[j])
    {
      TilesInOrder(s, 0.0, DurationS(p), i, j);
    }
    SortOfSorted(NoLater, s);
  }

  /** At every instant of the set exactly one segment is on screen. */
  lemma OneOnScreen(s: seq<VideoSegment>, start: real, end: real, t: real) returns (k: nat)
    requires Tiles(s, start, end) && start <= t < end
    ensures k < |s| && s[k].outStart <= t < s[k].End()
    ensures forall j | 0 <= j < |s| && s[j].outStart <= t < s[j].End() :: j == k
  {
    k := 0;
    while s[k].End() <= t
      invariant k < |s| && s[k].outStart <= t
      decreases |s| - k
    {
      assert k + 1 < |s| ==> s[k].End() == s[k + 1].outStart;
      k := k + 1;
    }
    forall j | 0 <= j < |s| && j != k
      ensures !(s[j].outStart <= t < s[j].End())
    {
      if j < k {
        TilesInOrder(s, start, end, j, k);
      } else {
        TilesInOrder(s, start, end, k, j);
      }
    }
  }
}
