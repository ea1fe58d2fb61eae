/** Picture and sound: at every instant the song and source position on screen are those of a layer sounding. */
module SetSync {
  import opened Common
  import opened SetPlan
  import opened SetLayout
  import opened SetPicture

  /** The position in its file that a segment shows at set second `t`. */
  function Shown(v: VideoSegment, t: real): real {
    v.srcStart + (t - v.outStart) * v.ratio
  }

  /** Seconds of the file a ride has read after `dt`, within its first `n` bars. */
  function WithinRide(r: Ride, n: nat, dt: real): real
    requires r.Valid() && n <= |r.ratios|
  {
    if n == 0 then 0.0
    else if dt >= r.OutUpTo(n - 1) then (n - 1) as real * r.barSrcS + (dt - r.OutUpTo(n - 1)) * r.ratios[n - 1]
    else WithinRide(r, n - 1, dt)
  }

  /** The position in its file that a layer plays `dt` after it starts: through its ride bar by bar, then native. */
  function Heard(l: AudioLayer, dt: real): real
    requires l.Valid()
  {
    match l.ride
    case None => l.srcStart + dt * l.ratio
    case Some(r) =>
      l.srcStart + if dt < r.OutS() then WithinRide(r, |r.ratios|, dt) else r.SrcS() + (dt - r.OutS())
  }

  predicate Sounds(l: AudioLayer, t: real) {
    l.outStart <= t < l.End()
  }

  /** The layer sounds at `t`, and plays the very position the segment shows. */
  ghost predicate Matches(v: VideoSegment, l: AudioLayer, t: real) {
    l.Valid() && l.track == v.track && Sounds(l, t) && Heard(l, t - l.outStart) == Shown(v, t)
  }

  ghost predicate InStepAt(v: VideoSegment, layers: seq<AudioLayer>, t: real) {
    exists l :: l in layers && Matches(v, l, t)
  }

  /** Whatever of the picture is on screen, some layer is playing the same place in the same song. */
  ghost predicate InStep(picture: seq<VideoSegment>, layers: seq<AudioLayer>) {
    forall v, t: real :: v in picture && v.outStart <= t < v.End() ==> InStepAt(v, layers, t)
  }

  lemma InStepConcat(a: seq<VideoSegment>, x: seq<AudioLayer>, b: seq<VideoSegment>, y: seq<AudioLayer>)
    requires InStep(a, x) && InStep(b, y)
    ensures InStep(a + b, x + y)
  {
    forall v, t: real | v in a + b && v.outStart <= t < v.End()
      ensures InStepAt(v, x + y, t)
    {
      if v in a {
        assert InStepAt(v, x, t);
        var l :| l in x && Matches(v, l, t);
        assert l in x + y;
      } else {
        assert InStepAt(v, y, t);
        var l :| l in y && Matches(v, l, t);
        assert l in x + y;
      }
    }
  }

  // ---- the ride --------------------------------------------------------------

  lemma {:induction false} BarHeard(r: Ride, n: nat, i: nat, dt: real)
    requires r.Valid() && i < n <= |r.ratios|
    requires r.OutUpTo(i) <= dt < r.OutUpTo(i + 1)
    ensures WithinRide(r, n, dt) == i as real * r.barSrcS + (dt - r.OutUpTo(i)) * r.ratios[i]
  {
    if i < n - 1 {
      r.OutMonotone(i + 1, n - 1);
      BarHeard(r, n - 1, i, dt);
    }
  }

  /** Bar by bar, the ride's picture shows what its sound plays. */
  lemma RideMatches(l: AudioLayer, i: nat, t: real)
    requires l.Valid() && l.ride.Some? && i < |l.ride.value.ratios|
    requires var v := RideBar(l.ride.value, l.track, l.srcStart, l.outStart, i); v.outStart <= t < v.End()
    requires l.ride.value.OutS() <= l.outLen
    ensures Matches(RideBar(l.ride.value, l.track, l.srcStart, l.outStart, i), l, t)
  {
    var r := l.ride.value;
    r.BarTakesTime(i);
    r.OutMonotone(0, i);
    r.OutMonotone(i + 1, |r.ratios|);
    BarHeard(r, |r.ratios|, i, t - l.outStart);
  }

  lemma {:induction false} RideBarOf(r: Ride, index: nat, enterS: real, at: real, n: nat, v: VideoSegment)
    returns (i: nat)
    requires r.Valid() && n <= |r.ratios| && v in RidePicture(r, index, enterS, at, n)
    ensures i < n && v == RideBar(r, index, enterS, at, i)
  {
    hide RideBar;
    if v == RideBar(r, index, enterS, at, n - 1) {
      i := n - 1;
    } else {
      i := RideBarOf(r, index, enterS, at, n - 1, v);
    }
  }

  // ---- one song --------------------------------------------------------------

  /** Past its ride a song's own layer runs at the exit ratio, from where the ride left the file. */
  lemma OwnPastRide(p: Plan, k: nat, t: real, dt: real)
    requires Playable(p) && k <= |p.seams|
    requires dt >= p.tracks[k].RideOutS()
    ensures var a := p.tracks[k];
      OwnLayer(p, k, t).Valid()
      && Heard(OwnLayer(p, k, t), dt) == a.enterS + a.RideSrcS() + (dt - a.RideOutS()) * a.ExitRatio()
  {
    hide OwnLayerS, OwnFadeS;
  }

  /** A phrase ends exactly where its seam says in the file. */
  lemma PhraseEndsAt(p: Plan, k: nat)
    requires Playable(p) && k <= |p.seams|
    ensures var a := p.tracks[k];
      a.enterS + a.RideSrcS() + (BodyS(p, k) - a.RideOutS()) * a.ExitRatio() == StopsAt(p, k)
  {
    hide Track.RideOutS, Track.RideSrcS, Track.ExitRatio;
    var a := p.tracks[k];
    QuotientPositive(StopsAt(p, k) - a.enterS - a.RideSrcS(), a.ExitRatio());
  }

  /** A stretch of file `src` seconds long, in bars of `bar` at `ratio`. */
  lemma QuotientScale(src: real, bar: real, ratio: real, n: real)
    requires ratio > 0.0 && src >= n * bar
    ensures src / ratio >= n * (bar / ratio)
  {
    QuotientPositive(src - n * bar, ratio);
    assert (src - n * bar) / ratio == src / ratio - n * (bar / ratio);
  }

  /** A song plays its ride out before anything of its seam begins. */
  lemma RideInsideOwn(p: Plan, k: nat)
    requires Sound(p) && k <= |p.seams|
    ensures p.tracks[k].RideOutS() < OwnLayerS(p, k)
  {
    var a := p.tracks[k];
    LongEnough(p, k);
    QuotientPositive(StopsAt(p, k) - a.enterS - a.RideSrcS(), a.ExitRatio());
    if k < |p.seams| {
      assert SeamProblem(p, k) == None;
      if p.seams[k].recipe == EchoOut {
        QuotientScale(p.seams[k].outS - a.enterS - a.RideSrcS(), a.SourceBarS(), a.ExitRatio(), 2.0);
      }
    }
  }

  /** Where song `k`'s file is `d` after its phrase ends, at the exit ratio; before it for a negative `d`. */
  function PastPhrase(p: Plan, k: nat, d: real): real
    requires Playable(p) && k <= |p.seams|
  {
    StopsAt(p, k) + d * p.tracks[k].ExitRatio()
  }

  lemma OwnFacts(p: Plan, k: nat, t: real)
    requires Playable(p) && k <= |p.seams|
    ensures var own, a := OwnLayer(p, k, t), p.tracks[k];
      own.Valid() && own.track == k && own.outStart == t && own.outLen == OwnLayerS(p, k) && own.srcStart == a.enterS
      && own.ride == RideFor(a)
  {
  }

  /** The picture of a song's ride is in step with the song's own layer. */
  lemma RideInStep(p: Plan, k: nat, t: real, v: VideoSegment, at: real)
    requires Sound(p) && k <= |p.seams|
    requires Playable(p)
             && v in RidePicture(p.tracks[k].RideOf(), k, p.tracks[k].enterS, t, |p.tracks[k].RideOf().ratios|)
    requires v.outStart <= at < v.End()
    ensures Matches(v, OwnLayer(p, k, t), at)
  {
    hide Sound, RideBar, OwnLayer, Track.RideOf;
    var a, r := p.tracks[k], p.tracks[k].RideOf();
    RideInsideOwn(p, k);
    OwnFacts(p, k, t);
    var i := RideBarOf(r, k, a.enterS, t, |r.ratios|, v);
    RideMatches(OwnLayer(p, k, t), i, at);
  }

  /** Past the ride, whether the song's own layer still plays or its last bar is already ringing out. */
  lemma RestInStep(p: Plan, k: nat, t: real, at: real)
    requires Sound(p) && k <= |p.seams| && Playable(p)
    requires var v := RestPicture(p.tracks[k], k, t, StopsAt(p, k)); v.outStart <= at < v.End()
    ensures var v := RestPicture(p.tracks[k], k, t, StopsAt(p, k));
      if at < t + OwnLayerS(p, k) then Matches(v, OwnLayer(p, k, t), at)
      else k < |p.seams| && p.seams[k].recipe == EchoOut && Matches(v, EchoLayer(p, k, t + BodyS(p, k)), at)
  {
    hide Sound, Heard, Track.RideOutS, Track.RideSrcS, Track.ExitRatio, Track.BarS, OwnLayer, EchoLayer, Shown;
    hide PastPhrase;
    var a := p.tracks[k];
    RestShown(p, k, t, at);
    OwnFacts(p, k, t);
    RideOutNonNegative(a);
    if at < t + OwnLayerS(p, k) {
      OwnPastRide(p, k, t, at - t);
    } else {
      SwapPositive(p, k);
      EchoHeard(p, k, t + BodyS(p, k), at);
    }
  }

  /** The rest of a song's picture, measured from the ride's end or from the phrase's. */
  lemma RestShown(p: Plan, k: nat, t: real, at: real)
    requires Playable(p) && k <= |p.seams|
    ensures var a, v, tp := p.tracks[k], RestPicture(p.tracks[k], k, t, StopsAt(p, k)), t + BodyS(p, k);
      && v.outStart == t + a.RideOutS() && v.End() == tp
      && Shown(v, at) == a.enterS + a.RideSrcS() + (at - t - a.RideOutS()) * a.ExitRatio() == PastPhrase(p, k, at - tp)
  {
    hide Track.RideOutS, Track.RideSrcS, Track.ExitRatio;
    var a := p.tracks[k];
    PhraseEndsAt(p, k);
    Shifted(at - t - a.RideOutS(), BodyS(p, k) - a.RideOutS(), a.ExitRatio());
  }

  lemma RideOutNonNegative(a: Track)
    requires a.Playable()
    ensures a.RideOutS() >= 0.0
  {
  }

  lemma SwapPositive(p: Plan, k: nat)
    requires Playable(p) && k < |p.seams|
    ensures HalfSwapS(p, k) >= 0.0
  {
    hide Track.BarS;
    ProductNonNegative(p.seams[k].bars as real / 2.0, p.tracks[k].BarS());
  }

  /** The echo plays the phrase's last bar, and would reach its end just as the phrase does. */
  lemma EchoHeard(p: Plan, k: nat, tp: real, at: real)
    requires Playable(p) && k < |p.seams|
    ensures var e := EchoLayer(p, k, tp);
      && e.Valid() && e.track == k && e.outStart == tp - p.tracks[k].BarS() && e.End() >= tp
      && Heard(e, at - e.outStart) == PastPhrase(p, k, at - tp)
  {
    hide Track.BarS, Track.ExitRatio;
    var bl, c := p.tracks[k].BarS(), p.tracks[k].ExitRatio();
    Shifted(at - (tp - bl), bl, c);
  }

  // ---- the swap --------------------------------------------------------------

  lemma BarsInside(p: Plan, k: nat, tp: real, bar: nat)
    requires Sound(p) && k < |p.seams| && p.seams[k].recipe == BassSwap && bar < SwapBars(p, k) && Playable(p)
    ensures tp <= BarAt(p, k, tp, bar) && 0.0 <= HeldS(p, k, bar) <= p.tracks[k].BarS()
    ensures HeldS(p, k, bar) + IncomingBeats(bar, SwapBars(p, k)) as real * (p.tracks[k].BarS() / 4.0)
            == p.tracks[k].BarS()
    ensures BarAt(p, k, tp, bar) + p.tracks[k].BarS() <= tp + HalfSwapS(p, k)
  {
    hide Sound, HeldS, BarAt, HalfSwapS, IncomingBeats, SwapBars, Track.BarS;
    HeldWithinBar(p, k, bar);
    BarWithinSwap(p, k, tp, bar);
  }

  lemma HeldWithinBar(p: Plan, k: nat, bar: nat)
    requires Playable(p) && k < |p.seams|
    ensures 0.0 <= HeldS(p, k, bar) <= p.tracks[k].BarS()
    ensures HeldS(p, k, bar) + IncomingBeats(bar, SwapBars(p, k)) as real * (p.tracks[k].BarS() / 4.0)
            == p.tracks[k].BarS()
  {
    hide IncomingBeats, SwapBars, Track.BarS;
    BeatsInBar(bar, SwapBars(p, k));
    BeatsFill(IncomingBeats(bar, SwapBars(p, k)), p.tracks[k].BarS());
  }

  lemma BarWithinSwap(p: Plan, k: nat, tp: real, bar: nat)
    requires Sound(p) && k < |p.seams| && p.seams[k].recipe == BassSwap && bar < SwapBars(p, k) && Playable(p)
    ensures tp <= BarAt(p, k, tp, bar) && BarAt(p, k, tp, bar) + p.tracks[k].BarS() <= tp + HalfSwapS(p, k)
  {
    hide Sound, HalfSwapS, SwapBars, Track.BarS;
    SwapFacts(p, k);
    SwapEnds(p, k, tp);
    BarsFit(bar, SwapBars(p, k), p.tracks[k].BarS());
  }

  lemma BarsFit(bar: nat, n: nat, bl: real)
    requires bar < n && bl > 0.0
    ensures 0.0 <= bar as real * bl && bar as real * bl + bl <= n as real * bl
  {
    ProductNonNegative(bar as real, bl);
    ProductNonNegative((n - bar - 1) as real, bl);
    assert n as real * bl == bar as real * bl + bl + (n - bar - 1) as real * bl;
  }

  /** Past its phrase a song plays on at its exit ratio. */
  lemma OwnPastPhrase(p: Plan, k: nat, t: real, at: real)
    requires Sound(p) && k < |p.seams| && Playable(p) && at >= t + BodyS(p, k)
    ensures OwnLayer(p, k, t).Valid()
         && Heard(OwnLayer(p, k, t), at - t) == p.seams[k].outS + (at - (t + BodyS(p, k))) * p.tracks[k].ExitRatio()
  {
    hide Sound, Heard, Track.RideOutS, Track.RideSrcS, Track.ExitRatio, Track.BarS, Track.PlayOutS, OwnLayer;
    var a, body := p.tracks[k], BodyS(p, k);
    PhraseEndsAt(p, k);
    PhraseOutlastsRide(p, k);
    OwnPastRide(p, k, t, at - t);
    var d, c := a.RideOutS(), a.ExitRatio();
    Shifted(at - t - d, body - d, c);
  }

  lemma PhraseOutlastsRide(p: Plan, k: nat)
    requires Sound(p) && k <= |p.seams| && Playable(p)
    ensures p.tracks[k].RideOutS() < BodyS(p, k)
  {
    var a := p.tracks[k];
    LongEnough(p, k);
    QuotientPositive(StopsAt(p, k) - a.enterS - a.RideSrcS(), a.ExitRatio());
  }

  lemma OutgoingInStep(p: Plan, k: nat, t: real, bar: nat, at: real)
    requires Sound(p) && k < |p.seams| && p.seams[k].recipe == BassSwap && bar < SwapBars(p, k) && Playable(p)
    requires var v := OutgoingCut(p, k, BarAt(p, k, t + BodyS(p, k), bar), bar); v.outStart <= at < v.End()
    ensures Matches(OutgoingCut(p, k, BarAt(p, k, t + BodyS(p, k), bar), bar), OwnLayer(p, k, t), at)
  {
    hide Sound, HeldS, HalfSwapS, BodyS, Track.ExitRatio, Track.BarS, OwnLayer, OutgoingCut, Heard, Shown;
    var tp := t + BodyS(p, k);
    OutgoingShown(p, k, tp, bar, at);
    BarsInside(p, k, tp, bar);
    OwnFacts(p, k, t);
    PhraseOutlastsRide(p, k);
    RideOutNonNegative(p.tracks[k]);
    OwnPastPhrase(p, k, t, at);
  }

  lemma OutgoingShown(p: Plan, k: nat, tp: real, bar: nat, at: real)
    requires Playable(p) && k < |p.seams|
    ensures var v := OutgoingCut(p, k, BarAt(p, k, tp, bar), bar);
      v.track == k && v.outStart == BarAt(p, k, tp, bar) && v.outLen == HeldS(p, k, bar)
      && Shown(v, at) == p.seams[k].outS + (at - tp) * p.tracks[k].ExitRatio()
  {
    hide HeldS, Track.ExitRatio, Track.BarS;
    Shifted(at - tp, bar as real * p.tracks[k].BarS(), p.tracks[k].ExitRatio());
  }

  lemma IncomingInStep(p: Plan, k: nat, tp: real, bar: nat, at: real)
    requires Sound(p) && k < |p.seams| && p.seams[k].recipe == BassSwap && bar < SwapBars(p, k) && Playable(p)
    requires var v := IncomingCut(p, k, BarAt(p, k, tp, bar), bar); v.outStart <= at < v.End()
    ensures Matches(IncomingCut(p, k, BarAt(p, k, tp, bar), bar), LeadInLayer(p, k, tp), at)
  {
    hide Sound, HalfSwapS, HeldS, IncomingBeats, Track.ExitRatio, Track.BarS;
    var c, into := p.tracks[k + 1].ratio, bar as real * p.tracks[k].BarS() + HeldS(p, k, bar);
    BarsInside(p, k, tp, bar);
    var v, l := IncomingCut(p, k, BarAt(p, k, tp, bar), bar), LeadInLayer(p, k, tp);
    assert Sounds(l, at);
    assert Heard(l, at - tp) == Shown(v, at) by { Shifted(at - tp, into, c); }
  }

  lemma {:induction false} SwapInStep(p: Plan, k: nat, t: real, n: nat, v: VideoSegment, at: real)
    requires Sound(p) && k < |p.seams| && p.seams[k].recipe == BassSwap && n <= SwapBars(p, k) && Playable(p)
    requires v in SwapPicture(p, k, t + BodyS(p, k), n) && v.outStart <= at < v.End()
    ensures Matches(v, OwnLayer(p, k, t), at) || Matches(v, LeadInLayer(p, k, t + BodyS(p, k)), at)
  {
    hide Sound, Matches, IncomingCut, OutgoingCut, BodyS, BarAt;
    var tp := t + BodyS(p, k);
    if v in SwapPicture(p, k, tp, n - 1) {
      SwapInStep(p, k, t, n - 1, v, at);
    } else if v == IncomingCut(p, k, BarAt(p, k, tp, n - 1), n - 1) {
      IncomingInStep(p, k, tp, n - 1, at);
    } else {
      OutgoingInStep(p, k, t, n - 1, at);
    }
  }

  // ---- the whole set ---------------------------------------------------------

  lemma PlayedInStep(p: Plan, k: nat, t: real, v: VideoSegment, at: real)
    requires Sound(p) && k <= |p.seams| && Playable(p)
    requires v in Played(p.tracks[k], k, t, StopsAt(p, k)) && v.outStart <= at < v.End()
    ensures Matches(v, OwnLayer(p, k, t), at)
         || (k < |p.seams| && p.seams[k].recipe == EchoOut && Matches(v, EchoLayer(p, k, t + BodyS(p, k)), at))
  {
    hide Sound, Matches, RestPicture, Track.RideOf, BodyS, OwnLayerS;
    if v == RestPicture(p.tracks[k], k, t, StopsAt(p, k)) {
      RestInStep(p, k, t, at);
    } else {
      RideInStep(p, k, t, v, at);
    }
  }

  /** One seam's picture is in step with that seam's sound. */
  lemma SeamInStep(p: Plan, k: nat, t: real)
    requires Sound(p) && k < |p.seams| && Playable(p)
    ensures InStep(SeamVideo(p, k, t), SeamAudio(p, k, t))
  {
    hide Sound, Matches, Played, SwapPicture, OwnLayer, EchoLayer, LeadInLayer, TailLayer, BodyS;
    var tp, layers := t + BodyS(p, k), SeamAudio(p, k, t);
    forall v, at: real | v in SeamVideo(p, k, t) && v.outStart <= at < v.End()
      ensures InStepAt(v, layers, at)
    {
      if v in Played(p.tracks[k], k, t, p.seams[k].outS) {
        PlayedInStep(p, k, t, v, at);
        assert OwnLayer(p, k, t) == layers[0];
        assert p.seams[k].recipe == EchoOut ==> EchoLayer(p, k, tp) == layers[1];
      } else {
        SwapInStep(p, k, t, SwapBars(p, k), v, at);
        assert OwnLayer(p, k, t) == layers[0] && LeadInLayer(p, k, tp) == layers[2];
      }
    }
  }

  lemma {:induction false} SeamsInStep(p: Plan, n: nat)
    requires Sound(p) && n <= |p.seams| && Playable(p)
    ensures InStep(VideoUpTo(p, n), AudioUpTo(p, n))
  {
    hide Sound, SeamVideo, SeamAudio;
    if n > 0 {
      hide InStep;
      SeamsInStep(p, n - 1);
      SeamInStep(p, n - 1, StartAt(p, n - 1));
      InStepConcat(VideoUpTo(p, n - 1), AudioUpTo(p, n - 1), SeamVideo(p, n - 1, StartAt(p, n - 1)),
                   SeamAudio(p, n - 1, StartAt(p, n - 1)));
    }
  }

  lemma LastInStep(p: Plan, t: real)
    requires Sound(p) && Playable(p)
    ensures var n := |p.seams|; InStep(Played(p.tracks[n], n, t, p.endS), [OwnLayer(p, n, t)])
  {
    hide Sound, Matches, Played, OwnLayer, EchoLayer;
    var n := |p.seams|;
    forall v, at: real | v in Played(p.tracks[n], n, t, p.endS) && v.outStart <= at < v.End()
      ensures InStepAt(v, [OwnLayer(p, n, t)], at)
    {
      PlayedInStep(p, n, t, v, at);
      assert OwnLayer(p, n, t) in [OwnLayer(p, n, t)];
    }
  }

  /** For a validated set, through every ride bar, every cut of every swap, every lead-in and every echo: at each
      instant of each segment on screen, some audio layer is playing that position of that song. */
  lemma PictureInStep(p: Plan)
    requires Sound(p)
    ensures InStep(LayoutOf(p).video, LayoutOf(p).audio)
  {
    hide Sound, InStep, VideoUpTo, AudioUpTo, Played, OwnLayer, StartAt, DurationS;
    SoundIsPlayable(p);
    var n := |p.seams|;
    PictureTiles(p);
    SeamsInStep(p, n);
    LastInStep(p, StartAt(p, n));
    InStepConcat(VideoUpTo(p, n), AudioUpTo(p, n), Played(p.tracks[n], n, StartAt(p, n), p.endS),
                 [OwnLayer(p, n, StartAt(p, n))]);
  }
}
