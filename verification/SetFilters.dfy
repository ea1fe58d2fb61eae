/** What every layer of a compiled set is for and how it is filtered, told from the layout and the plan alone. */
module SetFilters {
  import opened Common
  import opened SetPlan
  import opened SetLayout
  import opened SetPicture
  import opened SetSync
  import opened SetPass

  // ---- the roles -------------------------------------------------------------

  /** When song `n` starts playing alone, as the layout records it. */
  function AloneFrom(layout: Layout, n: nat): real
    requires n <= |layout.seamAtS|
  {
    if n == 0 then 0.0 else layout.seamAtS[n - 1]
  }

  /** How long the song fades out at the end of its own layer: two seconds to close the set, a click's length before a
      cut, a little more elsewhere. */
  function ClosingS(p: Plan, n: nat): real
    requires n <= |p.seams|
  {
    if n == |p.seams| then 2.0 else if p.seams[n].recipe == DropMix then 0.01 else 0.02
  }

  /** The fade-out that ends with a layer of `len` seconds, starting with it at the earliest. */
  predicate ClosesWith(f: Filter, len: real, fade: real) {
    f.FadeOut? && f.len == fade && (if len < fade then f.start == 0.0 else f.start + f.len == len)
  }

  /** A song at full band, from the instant it plays alone: nothing but its closing fade. */
  ghost predicate IsOwn(p: Plan, layout: Layout, n: nat, l: AudioLayer)
    requires Playable(p) && |layout.seamAtS| == |p.seams|
  {
    && n <= |p.seams| && l.track == n && l.outStart == AloneFrom(layout, n)
    && l.srcStart == p.tracks[n].enterS && l.ratio == p.tracks[n].ratio
    && (if p.tracks[n].Rides() then l.ride == Some(p.tracks[n].RideOf()) else l.ride == None)
    && |l.filters| == 1 && ClosesWith(l.filters[0], l.outLen, ClosingS(p, n))
  }

  /** How long half of seam `k`'s swap lasts. */
  function HalfS(p: Plan, k: nat): real
    requires Playable(p) && k < |p.seams|
  {
    p.tracks[k].BarS() * p.seams[k].bars as real / 2.0
  }

  /** The outgoing song of a bass swap, from the instant the next one plays alone, for half the swap: no bass, and under
      a sweep no treble either. */
  ghost predicate IsTail(p: Plan, layout: Layout, k: nat, l: AudioLayer)
    requires Playable(p) && |layout.seamAtS| == |p.seams|
  {
    && k < |p.seams| && p.seams[k].recipe == BassSwap
    && l.track == k && l.outStart == layout.seamAtS[k] && l.outLen == HalfS(p, k) && l.ride == None
    && |l.filters| == (if p.seams[k].sweep then 4 else 3)
    && l.filters[0] == HighPass(250)
    && (p.seams[k].sweep ==> l.filters[1] == LowPass(1200))
    && l.filters[|l.filters| - 2] == FadeIn(0.0, 0.02)
    && ClosesWith(l.filters[|l.filters| - 1], l.outLen, l.outLen / 2.0)
  }

  /** The incoming song of a bass swap, for half the swap up to when it plays alone: no bass, rising for a bar. */
  ghost predicate IsLeadIn(p: Plan, layout: Layout, k: nat, l: AudioLayer)
    requires Playable(p) && |layout.seamAtS| == |p.seams|
  {
    && k < |p.seams| && p.seams[k].recipe == BassSwap
    && l.track == k + 1 && l.outStart + l.outLen == layout.seamAtS[k] && l.outLen == HalfS(p, k) && l.ride == None
    && |l.filters| == 3
    && l.filters[0] == HighPass(250)
    && l.filters[1] == FadeIn(0.0, if p.tracks[k].BarS() < l.outLen then p.tracks[k].BarS() else l.outLen)
    && ClosesWith(l.filters[2], l.outLen, 0.02)
  }

  /** The last bar of a song that echoes out, and two more for it to die away in, echoing every three quarters of a
      beat: a bar is four beats, and the delay is in whole milliseconds. */
  ghost predicate IsEcho(p: Plan, layout: Layout, k: nat, l: AudioLayer)
    requires Playable(p) && |layout.seamAtS| == |p.seams|
  {
    k < |p.seams| && p.seams[k].recipe == EchoOut &&
    var bar := p.tracks[k].BarS();
    && l.track == k && l.outStart + bar == layout.seamAtS[k] && l.outLen == bar + 2.0 * bar && l.ride == None
    && |l.filters| == 3
    && l.filters[0].Echo? && l.filters[0].delayMs as real <= 187.5 * bar < l.filters[0].delayMs as real + 1.0
    && l.filters[1] == FadeIn(0.0, 0.02)
    && ClosesWith(l.filters[2], l.outLen, 2.0 * bar)
  }

  // ---- every layer has one ---------------------------------------------------

  lemma Closes(len: real, fade: real)
    requires fade >= 0.0
    ensures ClosesWith(FadingOut(len - fade, fade), len, fade)
  {
  }

  lemma OwnIs(p: Plan, layout: Layout, n: nat)
    requires Playable(p) && n <= |p.seams| && |layout.seamAtS| == |p.seams|
    requires AloneFrom(layout, n) == StartAt(p, n)
    ensures IsOwn(p, layout, n, OwnLayer(p, n, StartAt(p, n)))
  {
    hide OwnLayerS, StartAt, AloneFrom, FadingOut, ClosesWith;
    Closes(OwnLayerS(p, n), OwnFadeS(p, n));
    assert OwnFadeS(p, n) == ClosingS(p, n);
  }

  lemma HalfIsSwap(p: Plan, k: nat)
    requires Playable(p) && k < |p.seams|
    ensures HalfS(p, k) == HalfSwapS(p, k)
  {
    hide Track.BarS;
  }

  lemma TailIs(p: Plan, layout: Layout, k: nat)
    requires Playable(p) && k < |p.seams| && |layout.seamAtS| == |p.seams| && p.seams[k].recipe == BassSwap
    requires layout.seamAtS[k] == StartAt(p, k + 1)
    ensures IsTail(p, layout, k, TailLayer(p, k, StartAt(p, k) + BodyS(p, k)))
  {
    hide Track.BarS, Track.ExitRatio, HalfSwapS, HalfS, BodyS, FadingOut, ClosesWith;
    var half := HalfSwapS(p, k);
    HalfIsSwap(p, k);
    HalfNonNegative(p, k);
    assert half - half / 2.0 == half / 2.0;
    Closes(half, half / 2.0);
    assert StartAt(p, k + 1) == StartAt(p, k) + SeamS(p, k);
  }

  lemma HalfNonNegative(p: Plan, k: nat)
    requires Playable(p) && k < |p.seams|
    ensures HalfSwapS(p, k) >= 0.0
  {
    ProductNonNegative(p.seams[k].bars as real / 2.0, p.tracks[k].BarS());
  }

  lemma LeadInIsLeadIn(p: Plan, layout: Layout, k: nat)
    requires Playable(p) && k < |p.seams| && |layout.seamAtS| == |p.seams| && p.seams[k].recipe == BassSwap
    requires layout.seamAtS[k] == StartAt(p, k + 1)
    ensures IsLeadIn(p, layout, k, LeadInLayer(p, k, StartAt(p, k) + BodyS(p, k)))
  {
    hide Track.BarS, HalfSwapS, HalfS, BodyS, FadingOut, ClosesWith;
    HalfIsSwap(p, k);
    Closes(HalfSwapS(p, k), SHORT_FADE_S);
    assert StartAt(p, k + 1) == StartAt(p, k) + SeamS(p, k);
  }

  lemma EchoIs(p: Plan, layout: Layout, k: nat)
    requires Playable(p) && k < |p.seams| && |layout.seamAtS| == |p.seams| && p.seams[k].recipe == EchoOut
    requires layout.seamAtS[k] == StartAt(p, k + 1)
    ensures IsEcho(p, layout, k, EchoLayer(p, k, StartAt(p, k) + BodyS(p, k)))
  {
    hide Track.BarS, Track.ExitRatio, BodyS, FadingOut, ClosesWith;
    var bar := p.tracks[k].BarS();
    assert 3.0 * bar - 2.0 * bar == bar;
    Closes(3.0 * bar, 2.0 * bar);
    assert bar / 4.0 * 0.75 * 1000.0 == 187.5 * bar;
    assert StartAt(p, k + 1) == StartAt(p, k) + SeamS(p, k);
  }

  /** What a layer is for. */
  ghost predicate HasRole(p: Plan, layout: Layout, l: AudioLayer)
    requires Playable(p) && |layout.seamAtS| == |p.seams|
  {
    exists k: nat ::
      IsOwn(p, layout, k, l) || IsTail(p, layout, k, l) || IsLeadIn(p, layout, k, l) || IsEcho(p, layout, k, l)
  }

  lemma SeamRoles(p: Plan, layout: Layout, k: nat)
    requires Playable(p) && k < |p.seams| && |layout.seamAtS| == |p.seams|
    requires AloneFrom(layout, k) == StartAt(p, k) && layout.seamAtS[k] == StartAt(p, k + 1)
    ensures forall l <- SeamAudio(p, k, StartAt(p, k)) :: HasRole(p, layout, l)
    ensures var audio := SeamAudio(p, k, StartAt(p, k));
      && (exists l <- audio :: IsOwn(p, layout, k, l))
      && (p.seams[k].recipe == BassSwap ==>
            (exists l <- audio :: IsTail(p, layout, k, l)) && (exists l <- audio :: IsLeadIn(p, layout, k, l)))
      && (p.seams[k].recipe == EchoOut ==> exists l <- audio :: IsEcho(p, layout, k, l))
  {
    hide IsOwn, IsTail, IsLeadIn, IsEcho, OwnLayer, TailLayer, LeadInLayer, EchoLayer, StartAt, BodyS, AloneFrom;
    OwnIs(p, layout, k);
    assert OwnLayer(p, k, StartAt(p, k)) in SeamAudio(p, k, StartAt(p, k));
    var tp := StartAt(p, k) + BodyS(p, k);
    match p.seams[k].recipe {
      case BassSwap =>
        TailIs(p, layout, k);
        LeadInIsLeadIn(p, layout, k);
        assert TailLayer(p, k, tp) in SeamAudio(p, k, StartAt(p, k));
        assert LeadInLayer(p, k, tp) in SeamAudio(p, k, StartAt(p, k));
      case EchoOut =>
        EchoIs(p, layout, k);
        assert EchoLayer(p, k, tp) in SeamAudio(p, k, StartAt(p, k));
      case DropMix =>
    }
  }

  ghost predicate InSeam(p: Plan, k: nat, l: AudioLayer)
    requires Playable(p)
  {
    k < |p.seams| && l in SeamAudio(p, k, StartAt(p, k))
  }

  lemma {:induction false} AudioFrom(p: Plan, n: nat, l: AudioLayer)
    requires Playable(p) && n <= |p.seams|
    ensures l in AudioUpTo(p, n) <==> exists k: nat :: k < n && InSeam(p, k, l)
  {
    hide SeamAudio, StartAt;
    if n > 0 {
      var m := n - 1;
      AudioFrom(p, m, l);
      assert l in AudioUpTo(p, n) <==> l in AudioUpTo(p, m) || InSeam(p, m, l);
    }
  }

  lemma SeamTimes(p: Plan)
    requires Playable(p)
    ensures var layout := LayoutOf(p);
      && |layout.seamAtS| == |p.seams| && layout.audio == AllAudio(p)
      && (forall n | 0 <= n <= |p.seams| :: AloneFrom(layout, n) == StartAt(p, n))
      && (forall k | 0 <= k < |p.seams| :: layout.seamAtS[k] == StartAt(p, k + 1))
  {
    hide AllAudio, AllVideo, DurationS;
  }

  /** Song `n` has its own layer. */
  ghost predicate OwnLaid(p: Plan, layout: Layout, n: nat)
    requires Playable(p) && |layout.seamAtS| == |p.seams|
  {
    exists l <- layout.audio :: IsOwn(p, layout, n, l)
  }

  /** Seam `k` has a tail and a lead-in if it is a bass swap, and its bar if it is an echo. */
  ghost predicate SeamLaid(p: Plan, layout: Layout, k: nat)
    requires Playable(p) && |layout.seamAtS| == |p.seams| && k < |p.seams|
  {
    && (p.seams[k].recipe == BassSwap ==>
          (exists l <- layout.audio :: IsTail(p, layout, k, l))
          && (exists l <- layout.audio :: IsLeadIn(p, layout, k, l)))
    && (p.seams[k].recipe == EchoOut ==> exists l <- layout.audio :: IsEcho(p, layout, k, l))
  }

  lemma SeamIsLaid(p: Plan, layout: Layout, k: nat)
    requires Playable(p) && k < |p.seams| && |layout.seamAtS| == |p.seams| && layout.audio == AllAudio(p)
    requires AloneFrom(layout, k) == StartAt(p, k) && layout.seamAtS[k] == StartAt(p, k + 1)
    ensures OwnLaid(p, layout, k) && SeamLaid(p, layout, k)
  {
    hide IsOwn, IsTail, IsLeadIn, IsEcho, SeamAudio, AudioUpTo, AloneFrom, StartAt, OwnLayer;
    SeamRoles(p, layout, k);
    forall l <- SeamAudio(p, k, StartAt(p, k))
      ensures l in layout.audio
    {
      AudioFrom(p, |p.seams|, l);
      assert InSeam(p, k, l);
    }
  }

  lemma LastIsLaid(p: Plan, layout: Layout)
    requires Playable(p) && |layout.seamAtS| == |p.seams| && layout.audio == AllAudio(p)
    requires AloneFrom(layout, |p.seams|) == StartAt(p, |p.seams|)
    ensures OwnLaid(p, layout, |p.seams|)
    ensures HasRole(p, layout, OwnLayer(p, |p.seams|, StartAt(p, |p.seams|)))
  {
    hide IsOwn, AudioUpTo, AloneFrom, StartAt, OwnLayer;
    OwnIs(p, layout, |p.seams|);
    assert OwnLayer(p, |p.seams|, StartAt(p, |p.seams|)) in layout.audio;
  }

  lemma LayerHasRole(p: Plan, layout: Layout, l: AudioLayer)
    requires Playable(p) && |layout.seamAtS| == |p.seams| && layout.audio == AllAudio(p) && l in layout.audio
    requires forall n | 0 <= n <= |p.seams| :: AloneFrom(layout, n) == StartAt(p, n)
    requires forall k | 0 <= k < |p.seams| :: layout.seamAtS[k] == StartAt(p, k + 1)
    ensures HasRole(p, layout, l)
  {
    hide HasRole, IsOwn, IsTail, IsLeadIn, IsEcho, SeamAudio, AudioUpTo, AloneFrom, StartAt, OwnLayer;
    LastIsLaid(p, layout);
    AudioFrom(p, |p.seams|, l);
    if k: nat :| k < |p.seams| && InSeam(p, k, l) {
      SeamRoles(p, layout, k);
    }
  }

  /** The layers of a compiled set are exactly these: each has such a role, with the filters that go with it, and every
      song and every seam has the layers it calls for. */
  lemma EveryLayerHasRole(p: Plan)
    requires Playable(p)
    ensures var layout := LayoutOf(p);
      && |layout.seamAtS| == |p.seams|
      && (forall l <- layout.audio :: HasRole(p, layout, l))
      && (forall n | 0 <= n <= |p.seams| :: OwnLaid(p, layout, n))
      && (forall k | 0 <= k < |p.seams| :: SeamLaid(p, layout, k))
  {
    hide LayoutOf, HasRole, OwnLaid, SeamLaid, AllAudio, AloneFrom, StartAt, OwnLayer;
    SeamTimes(p);
    var layout := LayoutOf(p);
    LastIsLaid(p, layout);
    forall k | 0 <= k < |p.seams|
      ensures OwnLaid(p, layout, k) && SeamLaid(p, layout, k)
    {
      SeamIsLaid(p, layout, k);
    }
    forall l <- layout.audio
      ensures HasRole(p, layout, l)
    {
      LayerHasRole(p, layout, l);
    }
  }

  // ---- what follows ----------------------------------------------------------

  /** In a compiled set each song plays alone strictly later than the one before it. */
  lemma {:induction false} AloneLater(p: Plan, i: nat, j: nat)
    requires Sound(p) && Playable(p) && i < j <= |p.seams|
    ensures StartAt(p, i) < StartAt(p, j)
    decreases j
  {
    hide Sound, BodyS, SeamS;
    BodyPositive(p, j - 1);
    assert StartAt(p, j) == StartAt(p, j - 1) + SeamS(p, j - 1);
    if i < j - 1 {
      AloneLater(p, i, j - 1);
    }
  }

  predicate LowPassed(l: AudioLayer) {
    exists k :: 0 <= k < |l.filters| && l.filters[k].LowPass?
  }

  lemma OwnIsPlain(p: Plan, layout: Layout, l: AudioLayer)
    requires Playable(p) && |layout.seamAtS| == |p.seams| && IsOwn(p, layout, l.track, l)
    ensures !LowPassed(l)
  {
  }

  /** The treble goes exactly where a sweep asks for it: on the outgoing song, from when the next one plays alone. */
  lemma SweptIffAsked(p: Plan, l: AudioLayer)
    requires Sound(p) && Playable(p) && l in LayoutOf(p).audio
    ensures |LayoutOf(p).seamAtS| == |p.seams|
    ensures LowPassed(l) <==>
      l.track < |p.seams| && p.seams[l.track].recipe == BassSwap && p.seams[l.track].sweep
      && l.outStart == LayoutOf(p).seamAtS[l.track]
  {
    hide Sound, LayoutOf, IsOwn, IsTail, IsLeadIn, IsEcho, LowPassed, StartAt, AloneFrom;
    EveryLayerHasRole(p);
    SeamTimes(p);
    var layout := LayoutOf(p);
    if IsOwn(p, layout, l.track, l) {
      OwnIsPlain(p, layout, l);
      OwnStarts(p, layout, l);
      if l.track < |p.seams| {
        AloneLater(p, l.track, l.track + 1);
      }
    } else {
      var k := SeamRole(p, layout, l);
      SeamLayerSwept(p, layout, k, l);
      if IsLeadIn(p, layout, k, l) && l.track < |p.seams| {
        AloneLater(p, k + 1, k + 2);
      }
    }
  }

  lemma OwnStarts(p: Plan, layout: Layout, l: AudioLayer)
    requires Playable(p) && |layout.seamAtS| == |p.seams| && IsOwn(p, layout, l.track, l)
    ensures l.track <= |p.seams| && l.outStart == AloneFrom(layout, l.track)
  {
  }

  lemma SeamRole(p: Plan, layout: Layout, l: AudioLayer) returns (k: nat)
    requires Playable(p) && |layout.seamAtS| == |p.seams| && HasRole(p, layout, l) && !IsOwn(p, layout, l.track, l)
    ensures IsTail(p, layout, k, l) || IsLeadIn(p, layout, k, l) || IsEcho(p, layout, k, l)
  {
    k :| IsOwn(p, layout, k, l) || IsTail(p, layout, k, l) || IsLeadIn(p, layout, k, l) || IsEcho(p, layout, k, l);
    hide IsTail, IsLeadIn, IsEcho;
  }

  lemma SeamLayerSwept(p: Plan, layout: Layout, k: nat, l: AudioLayer)
    requires Playable(p) && |layout.seamAtS| == |p.seams|
    requires IsTail(p, layout, k, l) || IsLeadIn(p, layout, k, l) || IsEcho(p, layout, k, l)
    ensures k < |p.seams|
    ensures IsTail(p, layout, k, l) ==>
              l.track == k && p.seams[k].recipe == BassSwap && l.outStart == layout.seamAtS[k]
              && (LowPassed(l) <==> p.seams[k].sweep)
    ensures IsLeadIn(p, layout, k, l) ==> l.track == k + 1 && l.outStart <= layout.seamAtS[k] && !LowPassed(l)
    ensures IsEcho(p, layout, k, l) ==> l.track == k && p.seams[k].recipe == EchoOut && !LowPassed(l)
  {
    hide HalfS, Track.BarS;
    if IsTail(p, layout, k, l) && p.seams[k].sweep {
      assert l.filters[1].LowPass?;
    }
    if IsLeadIn(p, layout, k, l) {
      HalfIsSwap(p, k);
      HalfNonNegative(p, k);
    }
  }

  /** Wherever the bass or the treble is cut it is at the one frequency, every layer ends in exactly one fade-out, which
      ends with the layer, and nothing else fades out. */
  ghost predicate WellFiltered(l: AudioLayer) {
    && (forall f <- l.filters :: (f.HighPass? ==> f.hz == 250) && (f.LowPass? ==> f.hz == 1200))
    && l.filters != []
    && var out := l.filters[|l.filters| - 1];
       && out.FadeOut? && (if l.outLen < out.len then out.start == 0.0 else out.start + out.len == l.outLen)
       && forall k | 0 <= k < |l.filters| - 1 :: !l.filters[k].FadeOut?
  }

  lemma RoleIsWellFiltered(p: Plan, layout: Layout, k: nat, l: AudioLayer)
    requires Playable(p) && |layout.seamAtS| == |p.seams|
    requires IsOwn(p, layout, k, l) || IsTail(p, layout, k, l) || IsLeadIn(p, layout, k, l) || IsEcho(p, layout, k, l)
    ensures WellFiltered(l)
  {
    hide HalfS, Track.BarS, AloneFrom;
  }

  lemma EveryLayerFadesOut(p: Plan)
    requires Playable(p)
    ensures forall l <- LayoutOf(p).audio :: WellFiltered(l)
  {
    hide LayoutOf, IsOwn, IsTail, IsLeadIn, IsEcho, WellFiltered;
    EveryLayerHasRole(p);
    var layout := LayoutOf(p);
    forall l <- layout.audio
      ensures WellFiltered(l)
    {
      var k: nat :| IsOwn(p, layout, k, l) || IsTail(p, layout, k, l) || IsLeadIn(p, layout, k, l)
                    || IsEcho(p, layout, k, l);
      RoleIsWellFiltered(p, layout, k, l);
    }
  }
}
