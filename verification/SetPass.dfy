/** Each song's file is read as one continuous forward pass, and nothing but an echo outlasts the set. */
module SetPass {
  import opened Common
  import opened SetPlan
  import opened SetLayout
  import opened SetPicture
  import opened SetSync

  /** The layers of song `n`, in the order they were pushed. */
  function OfTrack(layers: seq<AudioLayer>, n: nat): seq<AudioLayer> {
    if layers == [] then []
    else
      var last := layers[|layers| - 1];
      OfTrack(layers[..|layers| - 1], n) + if last.track == n then [last] else []
  }

  lemma {:induction false} OfTrackConcat(a: seq<AudioLayer>, b: seq<AudioLayer>, n: nat)
    ensures OfTrack(a + b, n) == OfTrack(a, n) + OfTrack(b, n)
  {
    if b == [] {
      assert a + b == a;
    } else {
      var init := b[..|b| - 1];
      assert (a + b)[..|a + b| - 1] == a + init;
      OfTrackConcat(a, init, n);
    }
  }

  /** `y` starts where `x` stops, in the file and in the set. */
  ghost predicate Follows(x: AudioLayer, y: AudioLayer) {
    x.Valid() && y.srcStart == x.srcStart + x.SrcLen() && y.outStart == x.End()
  }

  /** One continuous forward read of the file, laid without a break on the set's timeline. */
  ghost predicate OnePass(layers: seq<AudioLayer>) {
    && layers != []
    && (forall l :: l in layers ==> l.Valid() && l.SrcLen() > 0.0)
    && (forall i, j | 0 <= i < j < |layers| && j == i + 1 :: Follows(layers[i], layers[j]))
  }

  // ---- what each song's layers are -------------------------------------------

  function LeadIn(p: Plan, n: nat): seq<AudioLayer>
    requires Playable(p) && n <= |p.seams|
  {
    if n > 0 && p.seams[n - 1].recipe == BassSwap then [LeadInLayer(p, n - 1, StartAt(p, n - 1) + BodyS(p, n - 1))]
    else []
  }

  function Leaving(p: Plan, n: nat, tp: real): seq<AudioLayer>
    requires Playable(p) && n <= |p.seams|
  {
    if n == |p.seams| then []
    else
      match p.seams[n].recipe
      case BassSwap => [TailLayer(p, n, tp)]
      case EchoOut => [EchoLayer(p, n, tp)]
      case DropMix => []
  }

  function SongLayers(p: Plan, n: nat): seq<AudioLayer>
    requires Playable(p) && n <= |p.seams|
  {
    LeadIn(p, n) + [OwnLayer(p, n, StartAt(p, n))] + Leaving(p, n, StartAt(p, n) + BodyS(p, n))
  }

  lemma SeamOfTrack(p: Plan, k: nat, n: nat)
    requires Playable(p) && k < |p.seams| && n <= |p.seams|
    ensures OfTrack(SeamAudio(p, k, StartAt(p, k)), n)
         == if n == k then [OwnLayer(p, k, StartAt(p, k))] + Leaving(p, k, StartAt(p, k) + BodyS(p, k))
            else if n == k + 1 then LeadIn(p, n)
            else []
  {
    hide BodyS, StartAt, OwnLayer, TailLayer, LeadInLayer, EchoLayer, OfTrack;
    var t := StartAt(p, k);
    var tp := t + BodyS(p, k);
    var own := OwnLayer(p, k, t);
    LayerTracks(p, k, t, tp);
    OfTrackOne(own, n);
    match p.seams[k].recipe {
      case BassSwap =>
        var tail, lead := TailLayer(p, k, tp), LeadInLayer(p, k, tp);
        OfTrackOne(tail, n);
        OfTrackOne(lead, n);
        OfTrackConcat([own], [tail], n);
        OfTrackConcat([own] + [tail], [lead], n);
        assert SeamAudio(p, k, t) == [own] + [tail] + [lead];
      case EchoOut =>
        var echo := EchoLayer(p, k, tp);
        OfTrackOne(echo, n);
        OfTrackConcat([own], [echo], n);
        assert SeamAudio(p, k, t) == [own] + [echo];
      case DropMix =>
        assert SeamAudio(p, k, t) == [own];
    }
  }

  lemma OfTrackOne(l: AudioLayer, n: nat)
    ensures OfTrack([l], n) == if l.track == n then [l] else []
  {
    assert [l][..0] == [];
  }

  lemma LayerTracks(p: Plan, k: nat, t: real, tp: real)
    requires Playable(p) && k < |p.seams|
    ensures OwnLayer(p, k, t).track == TailLayer(p, k, tp).track == EchoLayer(p, k, tp).track == k
    ensures LeadInLayer(p, k, tp).track == k + 1
  {
  }

  lemma {:induction false} AudioOfTrack(p: Plan, m: nat, n: nat)
    requires Playable(p) && m <= |p.seams| && n <= |p.seams|
    ensures OfTrack(AudioUpTo(p, m), n) == if m < n then [] else if m == n then LeadIn(p, n) else SongLayers(p, n)
  {
    hide SeamAudio, OwnLayer, Leaving, LeadIn, BodyS, StartAt, OfTrack, AudioUpTo;
    AudioNone(p, n);
    LeadInOnce(p, n);
    if m > 0 {
      var earlier, seam, t := AudioUpTo(p, m - 1), SeamAudio(p, m - 1, StartAt(p, m - 1)), StartAt(p, n);
      AudioStep(p, m);
      AudioOfTrack(p, m - 1, n);
      SeamOfTrack(p, m - 1, n);
      Gathered(earlier, seam, m - 1, n, LeadIn(p, n), [OwnLayer(p, n, t)], Leaving(p, n, t + BodyS(p, n)));
    }
  }

  lemma AudioNone(p: Plan, n: nat)
    requires Playable(p)
    ensures OfTrack(AudioUpTo(p, 0), n) == []
  {
  }

  lemma AudioStep(p: Plan, m: nat)
    requires Playable(p) && 0 < m <= |p.seams|
    ensures AudioUpTo(p, m) == AudioUpTo(p, m - 1) + SeamAudio(p, m - 1, StartAt(p, m - 1))
  {
    hide SeamAudio, StartAt;
  }

  lemma Gathered(earlier: seq<AudioLayer>, seam: seq<AudioLayer>, k: nat, n: nat,
                 lead: seq<AudioLayer>, own: seq<AudioLayer>, leaving: seq<AudioLayer>)
    requires OfTrack(earlier, n) == if k < n then [] else if k == n then lead else lead + own + leaving
    requires OfTrack(seam, n) == if n == k then own + leaving else if n == k + 1 then lead else []
    ensures OfTrack(earlier + seam, n) == if k + 1 < n then [] else if k + 1 == n then lead else lead + own + leaving
  {
    OfTrackConcat(earlier, seam, n);
    hide OfTrack;
    if k == n {
      assert lead + (own + leaving) == lead + own + leaving;
    }
  }

  lemma AllOfTrack(p: Plan, n: nat)
    requires Playable(p) && n <= |p.seams|
    ensures OfTrack(AllAudio(p), n) == SongLayers(p, n)
  {
    hide SeamAudio, BodyS, AudioUpTo, LeadIn, OwnLayerS;
    var m := |p.seams|;
    AudioOfTrack(p, m, n);
    OfTrackConcat(AudioUpTo(p, m), [OwnLayer(p, m, StartAt(p, m))], n);
  }

  // ---- how they meet ---------------------------------------------------------

  /** A song's own layer reads its file up to its phrase's end, and as far past it as it plays past it. */
  lemma OwnReads(p: Plan, k: nat, t: real)
    requires Sound(p) && k <= |p.seams| && Playable(p)
    ensures var a, own := p.tracks[k], OwnLayer(p, k, t);
      own.Valid() && own.SrcLen() > 0.0
      && own.srcStart + own.SrcLen() == PastPhrase(p, k, OwnLayerS(p, k) - BodyS(p, k))
  {
    hide Sound, Track.RideOutS, Track.RideSrcS, Track.ExitRatio, Track.BarS, Track.PlayOutS, OwnLayerS;
    var a, own, len := p.tracks[k], OwnLayer(p, k, t), OwnLayerS(p, k);
    OwnReadLength(p, k, t);
    RideInsideOwn(p, k);
    PhraseEndsAt(p, k);
    var d, c, body := a.RideOutS(), a.ExitRatio(), BodyS(p, k);
    assert (len - d) * c == (body - d) * c + (len - body) * c;
    ProductPositive(len - d, c);
  }

  lemma OwnReadLength(p: Plan, k: nat, t: real)
    requires Playable(p) && k <= |p.seams|
    ensures var a, own := p.tracks[k], OwnLayer(p, k, t);
      own.Valid() && own.srcStart == a.enterS && a.RideSrcS() >= 0.0
      && own.SrcLen() == a.RideSrcS() + (OwnLayerS(p, k) - a.RideOutS()) * a.ExitRatio()
  {
    hide OwnLayerS, OwnFadeS;
  }

  lemma LeadInFollowed(p: Plan, n: nat)
    requires Sound(p) && Playable(p) && 0 < n <= |p.seams| && p.seams[n - 1].recipe == BassSwap
    ensures var lead := LeadInLayer(p, n - 1, StartAt(p, n - 1) + BodyS(p, n - 1));
      lead.SrcLen() > 0.0 && Follows(lead, OwnLayer(p, n, StartAt(p, n))) && lead.srcStart >= -SLACK_S
  {
    hide Sound, HalfSwapS, BodyS, Track.BarS, Track.ExitRatio;
    SwapIsPositive(p, n - 1);
    ProductPositive(HalfSwapS(p, n - 1), p.tracks[n].ratio);
  }

  lemma SwapIsPositive(p: Plan, k: nat)
    requires Sound(p) && k < |p.seams| && p.seams[k].recipe == BassSwap && Playable(p)
    ensures HalfSwapS(p, k) > 0.0
    ensures p.tracks[k + 1].enterS + SLACK_S >= HalfSwapS(p, k) * p.tracks[k + 1].ratio
  {
    hide Track.BarS;
    SwapFacts(p, k);
    ProductPositive(p.seams[k].bars as real / 2.0, p.tracks[k].BarS());
    assert SeamProblem(p, k) == None;
  }

  lemma LeavingFollows(p: Plan, n: nat, t: real)
    requires Sound(p) && Playable(p) && n <= |p.seams| && Leaving(p, n, t + BodyS(p, n)) != []
    ensures var l := Leaving(p, n, t + BodyS(p, n))[0];
      l.Valid() && l.SrcLen() > 0.0 && Follows(OwnLayer(p, n, t), l)
  {
    hide Sound, HalfSwapS, BodyS, Track.BarS, Track.ExitRatio, AudioLayer.SrcLen, TailLayer, EchoLayer, OwnLayer;
    hide Follows;
    if p.seams[n].recipe == BassSwap {
      TailFollows(p, n, t);
    } else {
      EchoFollows(p, n, t);
    }
  }

  lemma TailFollows(p: Plan, n: nat, t: real)
    requires Sound(p) && Playable(p) && n < |p.seams| && p.seams[n].recipe == BassSwap
    ensures var l := TailLayer(p, n, t + BodyS(p, n)); l.Valid() && l.SrcLen() > 0.0 && Follows(OwnLayer(p, n, t), l)
  {
    TailShape(p, n, t + BodyS(p, n));
    hide Sound, HalfSwapS, BodyS, Track.BarS, Track.ExitRatio, AudioLayer.SrcLen, OwnLayer, TailLayer, PastPhrase;
    OwnReads(p, n, t);
    OwnFacts(p, n, t);
    SwapIsPositive(p, n);
    PlainLength(TailLayer(p, n, t + BodyS(p, n)));
    assert OwnLayerS(p, n) - BodyS(p, n) == HalfSwapS(p, n);
  }

  lemma TailShape(p: Plan, n: nat, tp: real)
    requires Playable(p) && n < |p.seams|
    ensures var l := TailLayer(p, n, tp);
      && l.ride == None && l.outStart == tp + HalfSwapS(p, n) && l.outLen == HalfSwapS(p, n) && l.ratio > 0.0
      && l.srcStart == PastPhrase(p, n, HalfSwapS(p, n))
  {
    hide HalfSwapS, Track.ExitRatio;
  }

  lemma EchoFollows(p: Plan, n: nat, t: real)
    requires Sound(p) && Playable(p) && n < |p.seams| && p.seams[n].recipe == EchoOut
    ensures var l := EchoLayer(p, n, t + BodyS(p, n)); l.Valid() && l.SrcLen() > 0.0 && Follows(OwnLayer(p, n, t), l)
  {
    EchoShape(p, n, t + BodyS(p, n));
    hide Sound, BodyS, Track.BarS, Track.ExitRatio, AudioLayer.SrcLen, OwnLayer, EchoLayer, PastPhrase;
    OwnReads(p, n, t);
    OwnFacts(p, n, t);
    PlainLength(EchoLayer(p, n, t + BodyS(p, n)));
    assert OwnLayerS(p, n) - BodyS(p, n) == -p.tracks[n].BarS();
  }

  lemma EchoShape(p: Plan, n: nat, tp: real)
    requires Playable(p) && n < |p.seams|
    ensures var l, bl := EchoLayer(p, n, tp), p.tracks[n].BarS();
      && l.ride == None && l.outStart == tp - bl && l.outLen == 3.0 * bl > 0.0 && l.ratio > 0.0
      && l.srcStart == PastPhrase(p, n, -bl)
  {
    hide Track.BarS, Track.ExitRatio;
    Shifted(0.0, p.tracks[n].BarS(), p.tracks[n].ExitRatio());
  }

  lemma PlainLength(l: AudioLayer)
    requires l.ride == None
    ensures l.SrcLen() == l.outLen * l.ratio
    ensures l.outLen > 0.0 && l.ratio > 0.0 ==> l.SrcLen() > 0.0
  {
    if l.outLen > 0.0 && l.ratio > 0.0 {
      ProductPositive(l.outLen, l.ratio);
    }
  }

  /** A song enters through its lead-in, plays on its own and leaves through its tail or echo as one
      uninterrupted read of its file, starting no earlier than the file does. */
  lemma SongReadOnce(p: Plan, n: nat)
    requires Sound(p) && n < |p.tracks|
    ensures OnePass(OfTrack(LayoutOf(p).audio, n))
    ensures OfTrack(LayoutOf(p).audio, n)[0].srcStart >= -SLACK_S
  {
    hide Sound, OnePass, AllAudio, SongLayers, DurationS;
    SoundIsPlayable(p);
    AllOfTrack(p, n);
    SongIsOnePass(p, n);
  }

  lemma SongIsOnePass(p: Plan, n: nat)
    requires Sound(p) && Playable(p) && n <= |p.seams|
    ensures OnePass(SongLayers(p, n)) && SongLayers(p, n)[0].srcStart >= -SLACK_S
  {
    hide Sound, LeadIn, Leaving, OwnLayer, BodyS, StartAt, Follows, AudioLayer.SrcLen, AudioLayer.Valid;
    var t := StartAt(p, n);
    assert p.tracks[n].enterS >= 0.0 by { EntersInFile(p, n); }
    OwnReads(p, n, t);
    OwnFacts(p, n, t);
    LeadInOnce(p, n);
    LeavingOnce(p, n, t);
    if LeadIn(p, n) != [] {
      LeadInFollowed(p, n);
      PlainIsValid(p, n);
      LeadInIs(p, n);
    }
    if Leaving(p, n, t + BodyS(p, n)) != [] {
      LeavingFollows(p, n, t);
    }
  }

  lemma EntersInFile(p: Plan, n: nat)
    requires Playable(p) && n <= |p.seams|
    ensures p.tracks[n].enterS >= 0.0
  {
    assert p.tracks[n].Playable();
  }

  lemma LeadInOnce(p: Plan, n: nat)
    requires Playable(p) && n <= |p.seams|
    ensures |LeadIn(p, n)| <= 1 && (LeadIn(p, n) != [] ==> 0 < n && p.seams[n - 1].recipe == BassSwap)
  {
  }

  lemma LeadInIs(p: Plan, n: nat)
    requires Playable(p) && 0 < n <= |p.seams| && p.seams[n - 1].recipe == BassSwap
    ensures LeadIn(p, n) == [LeadInLayer(p, n - 1, StartAt(p, n - 1) + BodyS(p, n - 1))]
  {
  }

  lemma LeavingOnce(p: Plan, n: nat, t: real)
    requires Playable(p) && n <= |p.seams|
    ensures |Leaving(p, n, t + BodyS(p, n))| <= 1
  {
  }

  lemma PlainIsValid(p: Plan, n: nat)
    requires Playable(p) && n <= |p.seams| && LeadIn(p, n) != []
    ensures LeadIn(p, n)[0].Valid()
  {
  }

  /** What a layer reads is what it plays. */
  lemma ReadsWhatItPlays(l: AudioLayer)
    requires l.Valid() && (l.ride.Some? ==> l.ride.value.OutS() <= l.outLen)
    ensures Heard(l, l.outLen) == l.srcStart + l.SrcLen()
  {
  }

  // ---- where layers start and stop -------------------------------------------

  lemma BodyPositive(p: Plan, k: nat)
    requires Sound(p) && Playable(p) && k <= |p.seams|
    ensures BodyS(p, k) > 0.0 && (k < |p.seams| ==> SeamS(p, k) >= BodyS(p, k))
  {
    hide Sound, BodyS, HalfSwapS, Track.RideOutS;
    PhraseOutlastsRide(p, k);
    RideOutNonNegative(p.tracks[k]);
    if k < |p.seams| {
      SwapPositive(p, k);
    }
  }

  /** Every phrase ends by the end of the set. */
  lemma {:induction false} PhraseInSet(p: Plan, k: nat)
    requires Sound(p) && Playable(p) && k <= |p.seams|
    ensures StartAt(p, k) + BodyS(p, k) <= DurationS(p)
    decreases |p.seams| - k
  {
    hide Sound, BodyS, SeamS;
    if k < |p.seams| {
      PhraseInSet(p, k + 1);
      BodyPositive(p, k);
      BodyPositive(p, k + 1);
    }
  }

  lemma {:induction false} StartsInSet(p: Plan, k: nat)
    requires Sound(p) && Playable(p) && k <= |p.seams|
    ensures 0.0 <= StartAt(p, k)
  {
    hide Sound, BodyS, SeamS;
    if k > 0 {
      StartsInSet(p, k - 1);
      BodyPositive(p, k - 1);
    }
  }

  /** The incoming song plays alone for at least as long as the tail laid over it, give or take the slack. */
  lemma TailFits(p: Plan, k: nat)
    requires Sound(p) && Playable(p) && k < |p.seams| && p.seams[k].recipe == BassSwap
    ensures HalfSwapS(p, k) <= BodyS(p, k + 1) + SLACK_S
  {
    LongEnough(p, k + 1);
    hide Track.RideOutS, Track.BarS, Track.ExitRatio, Track.PlayOutS;
    assert SeamProblem(p, k) == None;
    assert StopsAt(p, k + 1) >= p.tracks[k + 1].enterS;
  }

  /** The last song has room for the whole closing fade, which then ends exactly as the song does. */
  lemma ClosingFadeFits(p: Plan)
    requires Sound(p)
    ensures var last := LayoutOf(p).audio[|LayoutOf(p).audio| - 1];
      last.outLen >= LAST_FADE_S && last.End() == LayoutOf(p).durationS
      && last.filters == [FadeOut(last.outLen - LAST_FADE_S, LAST_FADE_S)]
  {
    hide Sound, BodyS, StartAt, AudioUpTo, AllVideo, OwnLayer;
    SoundIsPlayable(p);
    LastIsLongEnough(p);
    var n := |p.seams|;
    LastLayer(p, StartAt(p, n));
    var last := OwnLayer(p, n, StartAt(p, n));
    assert LayoutOf(p).audio == AudioUpTo(p, n) + [last];
  }

  lemma LastLayer(p: Plan, t: real)
    requires Playable(p)
    ensures var n, last := |p.seams|, OwnLayer(p, |p.seams|, t);
      && last.outStart == t && last.outLen == BodyS(p, n)
      && (BodyS(p, n) >= LAST_FADE_S ==> last.filters == [FadeOut(BodyS(p, n) - LAST_FADE_S, LAST_FADE_S)])
  {
    hide BodyS;
  }

  lemma LastIsLongEnough(p: Plan)
    requires Sound(p) && Playable(p)
    ensures BodyS(p, |p.seams|) >= LAST_FADE_S
  {
    var n, t := |p.seams|, p.tracks[|p.seams|];
    LongEnough(p, n);
    RideOutNonNegative(t);
    hide Sound, Track.RideOutS, Track.RideSrcS, Track.ExitRatio;
    QuotientAtLeast(p.endS - t.enterS - t.RideSrcS(), t.ExitRatio(), LAST_FADE_S);
  }

  ghost predicate Echoes(l: AudioLayer) {
    exists f | f in l.filters :: f.Echo?
  }

  /** Every layer starts inside the set and lasts; only an echo may outlast the set by more than the slack. */
  ghost predicate InSet(p: Plan, l: AudioLayer)
    requires Playable(p)
  {
    0.0 <= l.outStart < l.End() && (l.End() <= DurationS(p) + SLACK_S || Echoes(l))
  }

  lemma OwnInSet(p: Plan, k: nat)
    requires Sound(p) && Playable(p) && k <= |p.seams|
    ensures InSet(p, OwnLayer(p, k, StartAt(p, k)))
  {
    hide Sound, OwnLayer, BodyS, StartAt, HalfSwapS, DurationS, Track.RideOutS, Track.BarS, Track.ExitRatio;
    var t := StartAt(p, k);
    OwnFacts(p, k, t);
    StartsInSet(p, k);
    RideInsideOwn(p, k);
    RideOutNonNegative(p.tracks[k]);
    PhraseInSet(p, k);
    if k < |p.seams| {
      if p.seams[k].recipe == BassSwap {
        SwapClose(p, k);
      }
    }
  }

  /** The swap itself is over before the next phrase ends. */
  lemma SwapClose(p: Plan, k: nat)
    requires Sound(p) && Playable(p) && k < |p.seams| && p.seams[k].recipe == BassSwap
    ensures var tp, half := StartAt(p, k) + BodyS(p, k), HalfSwapS(p, k);
      0.0 <= tp && half > 0.0 && tp + half <= DurationS(p) && tp + 2.0 * half <= DurationS(p) + SLACK_S
  {
    hide Sound, BodyS, HalfSwapS, DurationS;
    StartsInSet(p, k);
    BodyPositive(p, k);
    BodyPositive(p, k + 1);
    SwapIsPositive(p, k);
    TailFits(p, k);
    PhraseInSet(p, k + 1);
    assert StartAt(p, k + 1) == StartAt(p, k) + BodyS(p, k) + HalfSwapS(p, k);
  }

  lemma SwapLayersInSet(p: Plan, k: nat)
    requires Sound(p) && Playable(p) && k < |p.seams| && p.seams[k].recipe == BassSwap
    ensures var tp := StartAt(p, k) + BodyS(p, k); InSet(p, TailLayer(p, k, tp)) && InSet(p, LeadInLayer(p, k, tp))
  {
    hide Sound, BodyS, StartAt, HalfSwapS, DurationS, Track.BarS, Track.ExitRatio;
    SwapClose(p, k);
  }

  lemma EchoInSet(p: Plan, k: nat)
    requires Sound(p) && Playable(p) && k < |p.seams| && p.seams[k].recipe == EchoOut
    ensures InSet(p, EchoLayer(p, k, StartAt(p, k) + BodyS(p, k)))
  {
    hide Sound, BodyS, StartAt, DurationS, Track.BarS, Track.ExitRatio, Track.RideOutS;
    StartsInSet(p, k);
    RideInsideOwn(p, k);
    RideOutNonNegative(p.tracks[k]);
    var e := EchoLayer(p, k, StartAt(p, k) + BodyS(p, k));
    assert e.filters[0].Echo?;
  }

  lemma {:induction false} LayersInSet(p: Plan, n: nat, l: AudioLayer)
    requires Sound(p) && Playable(p) && n <= |p.seams| && l in AudioUpTo(p, n)
    ensures InSet(p, l)
  {
    hide Sound, InSet, BodyS, StartAt, OwnLayer, TailLayer, LeadInLayer, EchoLayer;
    if l in AudioUpTo(p, n - 1) {
      LayersInSet(p, n - 1, l);
    } else if l == OwnLayer(p, n - 1, StartAt(p, n - 1)) {
      OwnInSet(p, n - 1);
    } else if p.seams[n - 1].recipe == BassSwap {
      SwapLayersInSet(p, n - 1);
    } else {
      EchoInSet(p, n - 1);
    }
  }

  /** Lead-ins, bodies and bass-less tails all end by the end of the set, give or take the slack. */
  lemma OnlyEchoesOutlast(p: Plan)
    requires Sound(p)
    ensures forall l <- LayoutOf(p).audio ::
              0.0 <= l.outStart < l.End() && (l.End() <= LayoutOf(p).durationS + SLACK_S || Echoes(l))
  {
    hide Sound, InSet, Echoes, DurationS, AudioUpTo, OwnLayer, StartAt;
    SoundIsPlayable(p);
    forall l | l in AllAudio(p)
      ensures InSet(p, l)
    {
      if l in AudioUpTo(p, |p.seams|) {
        LayersInSet(p, |p.seams|, l);
      } else {
        OwnInSet(p, |p.seams|);
      }
    }
    InSetMeans(p);
  }

  lemma InSetMeans(p: Plan)
    requires Playable(p) && forall l <- AllAudio(p) :: InSet(p, l)
    ensures forall l <- AllAudio(p) :: 0.0 <= l.outStart < l.End() && (l.End() <= DurationS(p) + SLACK_S || Echoes(l))
  {
    hide AllAudio, DurationS, Echoes;
  }
}
