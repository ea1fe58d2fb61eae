/** How many layers sound at full band: one at every instant, and one more for each echo still ringing. */
module SetBand {
  import opened SetPlan
  import opened SetLayout
  import opened SetPicture
  import opened SetSync
  import opened SetPass

  predicate FullBand(l: AudioLayer, t: real) {
    Sounds(l, t) && !l.Thinned()
  }

  function FullBandCount(layers: seq<AudioLayer>, t: real): nat {
    if layers == [] then 0
    else FullBandCount(layers[..|layers| - 1], t) + if FullBand(layers[|layers| - 1], t) then 1 else 0
  }

  lemma {:induction false} CountConcat(a: seq<AudioLayer>, b: seq<AudioLayer>, t: real)
    ensures FullBandCount(a + b, t) == FullBandCount(a, t) + FullBandCount(b, t)
  {
    if b == [] {
      assert a + b == a;
    } else {
      var init := b[..|b| - 1];
      assert (a + b)[..|a + b| - 1] == a + init;
      CountConcat(a, init, t);
    }
  }

  /** Seam `k`'s echo is still ringing over the next song at `t`: for two bars past the phrase. */
  function Rings(p: Plan, k: nat, t: real): nat
    requires Playable(p) && k < |p.seams|
  {
    var tp := StartAt(p, k) + BodyS(p, k);
    if p.seams[k].recipe == EchoOut && tp <= t < tp + 2.0 * p.tracks[k].BarS() then 1 else 0
  }

  function RingingUpTo(p: Plan, n: nat, t: real): nat
    requires Playable(p) && n <= |p.seams|
  {
    if n == 0 then 0 else RingingUpTo(p, n - 1, t) + Rings(p, n - 1, t)
  }

  lemma Bands(p: Plan, k: nat, t: real, tp: real)
    requires Playable(p) && k <= |p.seams|
    ensures !OwnLayer(p, k, t).Thinned()
    ensures k < |p.seams| ==>
              TailLayer(p, k, tp).Thinned() && LeadInLayer(p, k, tp).Thinned() && !EchoLayer(p, k, tp).Thinned()
  {
    hide Track.BarS, Track.ExitRatio, OwnLayerS, HalfSwapS;
    if k < |p.seams| {
      assert TailLayer(p, k, tp).filters[0].HighPass?;
      assert LeadInLayer(p, k, tp).filters[0].HighPass?;
    }
  }

  lemma CountOne(l: AudioLayer, t: real)
    ensures FullBandCount([l], t) == if FullBand(l, t) then 1 else 0
  {
    assert [l][..0] == [];
  }

  lemma CountNone(l: AudioLayer, t: real)
    requires l.Thinned()
    ensures FullBandCount([l], t) == 0
  {
    CountOne(l, t);
  }

  lemma OwnCount(p: Plan, k: nat, at: real, t: real)
    requires Playable(p) && k <= |p.seams|
    ensures FullBandCount([OwnLayer(p, k, at)], t) == if at <= t < at + OwnLayerS(p, k) then 1 else 0
  {
    hide OwnLayer, OwnLayerS;
    Bands(p, k, at, at);
    OwnFacts(p, k, at);
    CountOne(OwnLayer(p, k, at), t);
  }

  lemma EchoCount(p: Plan, k: nat, tp: real, t: real)
    requires Playable(p) && k < |p.seams|
    ensures var bl := p.tracks[k].BarS();
      FullBandCount([EchoLayer(p, k, tp)], t) == if tp - bl <= t < tp + 2.0 * bl then 1 else 0
  {
    hide Track.BarS, Track.ExitRatio, AudioLayer.Thinned;
    Bands(p, k, tp, tp);
    CountOne(EchoLayer(p, k, tp), t);
  }

  lemma SeamCount(p: Plan, k: nat, t: real)
    requires Sound(p) && Playable(p) && k < |p.seams|
    ensures FullBandCount(SeamAudio(p, k, StartAt(p, k)), t)
         == (if StartAt(p, k) <= t < StartAt(p, k) + SeamS(p, k) then 1 else 0) + Rings(p, k, t)
  {
    hide Sound, BodyS, StartAt, HalfSwapS, OwnLayer, TailLayer, LeadInLayer, EchoLayer, FullBandCount;
    hide AudioLayer.Thinned, Track.BarS;
    var at := StartAt(p, k);
    var tp := at + BodyS(p, k);
    var own := OwnLayer(p, k, at);
    OwnCount(p, k, at, t);
    Bands(p, k, at, tp);
    match p.seams[k].recipe {
      case BassSwap =>
        var tail, lead := TailLayer(p, k, tp), LeadInLayer(p, k, tp);
        CountNone(tail, t);
        CountNone(lead, t);
        CountConcat([own], [tail], t);
        CountConcat([own] + [tail], [lead], t);
        assert [own, tail, lead] == [own] + [tail] + [lead];
      case EchoOut =>
        EchoCount(p, k, tp, t);
        RideInsideOwn(p, k);
        RideOutNonNegative(p.tracks[k]);
        CountConcat([own], [EchoLayer(p, k, tp)], t);
        assert [own, EchoLayer(p, k, tp)] == [own] + [EchoLayer(p, k, tp)];
      case DropMix =>
    }
  }

  lemma {:induction false} CountUpTo(p: Plan, n: nat, t: real)
    requires Sound(p) && Playable(p) && n <= |p.seams|
    ensures FullBandCount(AudioUpTo(p, n), t) == (if 0.0 <= t < StartAt(p, n) then 1 else 0) + RingingUpTo(p, n, t)
  {
    hide Sound, SeamAudio, SeamS, BodyS, Rings;
    if n > 0 {
      CountUpTo(p, n - 1, t);
      SeamCount(p, n - 1, t);
      CountConcat(AudioUpTo(p, n - 1), SeamAudio(p, n - 1, StartAt(p, n - 1)), t);
      StartsInSet(p, n - 1);
      BodyPositive(p, n - 1);
    }
  }

  /** At every instant of a validated set the layers at full band are one song and every echo still ringing. */
  lemma OneSongAndItsEchoes(p: Plan, t: real)
    requires Sound(p) && 0.0 <= t < LayoutOf(p).durationS
    ensures FullBandCount(LayoutOf(p).audio, t) == 1 + RingingUpTo(p, |p.seams|, t)
  {
    hide Sound, OwnLayer, StartAt, BodyS, RingingUpTo, AudioUpTo, FullBandCount;
    SoundIsPlayable(p);
    var n := |p.seams|;
    var last := OwnLayer(p, n, StartAt(p, n));
    CountUpTo(p, n, t);
    OwnCount(p, n, StartAt(p, n), t);
    CountConcat(AudioUpTo(p, n), [last], t);
    StartsInSet(p, n);
  }

  lemma {:induction false} NothingRings(p: Plan, n: nat, t: real)
    requires Playable(p) && n <= |p.seams| && forall k | 0 <= k < n :: p.seams[k].recipe != EchoOut
    ensures RingingUpTo(p, n, t) == 0
  {
    hide StartAt, BodyS;
    if n > 0 {
      NothingRings(p, n - 1, t);
    }
  }

  lemma {:induction false} SomethingRings(p: Plan, n: nat, k: nat)
    requires Playable(p) && k < n <= |p.seams| && p.seams[k].recipe == EchoOut
    ensures RingingUpTo(p, n, StartAt(p, k) + BodyS(p, k)) >= 1
  {
    hide StartAt, BodyS, Track.BarS;
    if k < n - 1 {
      SomethingRings(p, n - 1, k);
    }
  }

  ghost predicate AlwaysOneBand(p: Plan)
    requires Playable(p)
  {
    forall t: real :: 0.0 <= t < LayoutOf(p).durationS ==> FullBandCount(LayoutOf(p).audio, t) == 1
  }

  /** Exactly one layer keeps its bass at every instant, exactly when no seam is an echo. */
  lemma OneBandIffNoEcho(p: Plan)
    requires Sound(p)
    ensures AlwaysOneBand(p) <==> forall k | 0 <= k < |p.seams| :: p.seams[k].recipe != EchoOut
  {
    hide Sound, LayoutOf, FullBandCount, StartAt, BodyS, RingingUpTo;
    SoundIsPlayable(p);
    if forall k | 0 <= k < |p.seams| :: p.seams[k].recipe != EchoOut {
      forall t: real | 0.0 <= t < LayoutOf(p).durationS
        ensures FullBandCount(LayoutOf(p).audio, t) == 1
      {
        OneSongAndItsEchoes(p, t);
        NothingRings(p, |p.seams|, t);
      }
    } else {
      var k :| 0 <= k < |p.seams| && p.seams[k].recipe == EchoOut;
      var t := StartAt(p, k) + BodyS(p, k);
      NextIsInSet(p, k);
      OneSongAndItsEchoes(p, t);
      SomethingRings(p, |p.seams|, k);
    }
  }

  lemma NextIsInSet(p: Plan, k: nat)
    requires Sound(p) && Playable(p) && k < |p.seams| && p.seams[k].recipe == EchoOut
    ensures 0.0 <= StartAt(p, k) + BodyS(p, k) < LayoutOf(p).durationS
  {
    hide Sound, Playable, BodyS, DurationS, LayoutOf, StartAt, SeamS;
    LayoutLasts(p);
    StartsInSet(p, k);
    BodyPositive(p, k);
    BodyPositive(p, k + 1);
    PhraseInSet(p, k + 1);
    EchoHandsOver(p, k);
  }

  lemma EchoHandsOver(p: Plan, k: nat)
    requires Playable(p) && k < |p.seams| && p.seams[k].recipe == EchoOut
    ensures StartAt(p, k + 1) == StartAt(p, k) + BodyS(p, k)
  {
    hide Playable, BodyS;
  }

  lemma LayoutLasts(p: Plan)
    requires Playable(p)
    ensures LayoutOf(p).durationS == DurationS(p)
  {
    hide AllAudio, AllVideo, DurationS, StartAt;
  }
}
