/** The set plan: whole songs joined by seam recipes, each song possibly riding from its entry tempo back
    to its own, one step per bar. Seconds and ratios are exact. */
module SetPlan {
  import opened Common

  const RATIO_TOLERANCE := 0.002
  const SLACK_S := 0.000000001
  const LAST_FADE_S := 2.0
  const MAX_RIDE_BARS := 64

  datatype Recipe = BassSwap | EchoOut | DropMix

  /** A tempo ride: the bar's length in the file and the ratio each bar plays at. */
  datatype Ride = Ride(barSrcS: real, ratios: seq<real>) {
    ghost predicate Valid() {
      barSrcS > 0.0 && forall i | 0 <= i < |ratios| :: ratios[i] > 0.0
    }

    /** Set seconds the first `n` bars last. */
    function OutUpTo(n: nat): real
      requires n <= |ratios| && Valid()
    {
      if n == 0 then 0.0 else OutUpTo(n - 1) + barSrcS / ratios[n - 1]
    }

    function OutS(): real
      requires Valid()
    {
      OutUpTo(|ratios|)
    }

    function SrcS(): real {
      barSrcS * |ratios| as real
    }

    lemma BarTakesTime(n: nat)
      requires Valid() && n < |ratios|
      ensures OutUpTo(n + 1) == OutUpTo(n) + barSrcS / ratios[n] > OutUpTo(n)
      ensures barSrcS / ratios[n] * ratios[n] == barSrcS
    {
      QuotientPositive(barSrcS, ratios[n]);
    }

    lemma {:induction false} OutMonotone(m: nat, n: nat)
      requires Valid() && m <= n <= |ratios|
      ensures OutUpTo(m) <= OutUpTo(n)
      decreases n - m
    {
      if m < n {
        OutMonotone(m, n - 1);
        BarTakesTime(n - 1);
      }
    }
  }

  datatype Track = Track(entryId: string, path: string, nativeBpm: real, enterS: real, ratio: real, rideBars: nat) {
    predicate Playable() {
      nativeBpm > 0.0 && ratio > 0.0 && enterS >= 0.0
    }

    /** Seconds in one bar of the file. */
    function SourceBarS(): (r: real)
      requires Playable()
      ensures r > 0.0
    {
      QuotientPositive(240.0, nativeBpm);
      240.0 / nativeBpm
    }

    /** Whether the tempo rides back to native after the song enters. */
    predicate Rides() {
      rideBars > 0 && Abs(ratio - 1.0) > SLACK_S
    }

    /** The ratio once the ride is over. */
    function ExitRatio(): (r: real)
      requires Playable()
      ensures r > 0.0
    {
      if Rides() then 1.0 else ratio
    }

    /** Seconds in one bar as the set plays it when the song leaves. */
    function BarS(): (r: real)
      requires Playable()
      ensures r > 0.0 && r * ExitRatio() == SourceBarS()
    {
      QuotientPositive(SourceBarS(), ExitRatio());
      SourceBarS() / ExitRatio()
    }

    /** The ratio of bar `i` of the ride, counted from 1: one step nearer native than the bar before. */
    function RideRatio(i: nat): (r: real)
      requires Playable() && 0 < i <= rideBars
      ensures r > 0.0
    {
      var f := i as real / rideBars as real;
      StepsWithinUnit(i, rideBars);
      StepPositive(ratio, f);
      ratio + (1.0 - ratio) * f
    }

    function RideOf(): (r: Ride)
      requires Playable()
      ensures r.Valid() && |r.ratios| == if Rides() then rideBars else 0
    {
      Ride(SourceBarS(), if Rides() then seq(rideBars, i requires 0 <= i < rideBars => RideRatio(i + 1)) else [])
    }

    /** Seconds of the file the ride covers. */
    function RideSrcS(): (r: real)
      requires Playable()
      ensures r >= 0.0 && r == RideOf().SrcS()
    {
      ProductNonNegative(rideBars as real, SourceBarS());
      if Rides() then rideBars as real * SourceBarS() else 0.0
    }

    /** Set seconds the ride lasts. */
    function RideOutS(): (r: real)
      requires Playable()
      ensures r >= 0.0
    {
      RideOf().OutMonotone(0, |RideOf().ratios|);
      RideOf().OutS()
    }

    /** Set seconds taken to play `srcS` seconds of the file from where the song enters, past its ride. */
    function PlayOutS(srcS: real): real
      requires Playable()
    {
      RideOutS() + (srcS - RideSrcS()) / ExitRatio()
    }
  }

  lemma StepsWithinUnit(i: nat, n: nat)
    requires 0 < i <= n
    ensures 0.0 < i as real / n as real <= 1.0
  {
    QuotientPositive(i as real, n as real);
  }

  lemma StepPositive(ratio: real, f: real)
    requires ratio > 0.0 && 0.0 < f <= 1.0
    ensures ratio + (1.0 - ratio) * f > 0.0
  {
    assert ratio + (1.0 - ratio) * f == ratio * (1.0 - f) + f;
    ProductNonNegative(ratio, 1.0 - f);
  }

  /** The last bar of a ride is native. */
  lemma RideEndsNative(t: Track)
    requires t.Playable() && t.Rides()
    ensures t.RideOf().ratios[t.rideBars - 1] == 1.0
  {
    QuotientPositive(t.rideBars as real, t.rideBars as real);
    assert t.rideBars as real / t.rideBars as real == 1.0;
  }

  /** `bars` and `sweep` belong to a bass swap. */
  datatype Seam = Seam(recipe: Recipe, outS: real, bars: U32, sweep: bool)

  datatype Plan = Plan(tracks: seq<Track>, seams: seq<Seam>, endS: real, cardsAt: seq<real>, output: string)

  // ---- validation ------------------------------------------------------------

  datatype Problem =
    | NoTracks
    | SeamCount
    | RideTooLong(i: nat)
    | RideWithoutSwap(i: nat)
    | RepeatedEntry(i: nat)
    | BadTempo(i: nat)
    | BadRatio(i: nat)
    | BadEntry(i: nat)
    | OutTooEarly(k: nat)
    | UnevenBars(k: nat)
    | NoLeadIn(k: nat)
    | TailTooLong(k: nat)
    | TempoNotLocked(k: nat)
    | NoEchoBar(k: nat)
    | StrayBars(k: nat)
    | EndTooEarly
    | NoOutput
    | CardOutside(i: nat)
    | CardOutOfOrder(i: nat)

  /** What is wrong with track `i`, in the order it is looked for. */
  function TrackProblem(p: Plan, i: nat): Option<Problem>
    requires i < |p.tracks| && |p.seams| + 1 == |p.tracks|
  {
    var t := p.tracks[i];
    if t.rideBars > MAX_RIDE_BARS then Some(RideTooLong(i))
    else if t.rideBars > 0 && (i == 0 || p.seams[i - 1].recipe != BassSwap) then Some(RideWithoutSwap(i))
    else if exists j :: 0 <= j < i && p.tracks[j].entryId == t.entryId then Some(RepeatedEntry(i))
    else if t.nativeBpm <= 0.0 then Some(BadTempo(i))
    else if t.ratio <= 0.0 then Some(BadRatio(i))
    else if t.enterS < 0.0 then Some(BadEntry(i))
    else None
  }

  ghost predicate Playable(p: Plan) {
    && |p.seams| + 1 == |p.tracks|
    && forall i | 0 <= i < |p.tracks| :: p.tracks[i].Playable()
  }

  /** Where song `k` stops playing alone, in its own file. */
  function StopsAt(p: Plan, k: nat): real
    requires k <= |p.seams|
  {
    if k < |p.seams| then p.seams[k].outS else p.endS
  }

  /** Half the length of seam `k`'s swap, in set seconds. */
  function HalfSwapS(p: Plan, k: nat): real
    requires Playable(p) && k < |p.seams|
  {
    p.seams[k].bars as real / 2.0 * p.tracks[k].BarS()
  }

  /** How much of the incoming song's file its lead-in reads. */
  function LeadInS(p: Plan, k: nat): real
    requires Playable(p) && k < |p.seams|
  {
    HalfSwapS(p, k) * p.tracks[k + 1].ratio
  }

  /** The ratio at which `b` keeps the beat `a` leaves at. */
  function LockedRatio(a: Track, b: Track): real
    requires a.Playable() && b.Playable()
  {
    a.nativeBpm * a.ExitRatio() / b.nativeBpm
  }

  function SwapProblem(p: Plan, k: nat): Option<Problem>
    requires Playable(p) && k < |p.seams|
  {
    var a, b, s := p.tracks[k], p.tracks[k + 1], p.seams[k];
    var half := HalfSwapS(p, k);
    var stops := StopsAt(p, k + 1);
    var alone := b.PlayOutS(stops - b.enterS);
    if s.bars < 2 || s.bars % 2 != 0 then Some(UnevenBars(k))
    else if b.enterS + SLACK_S < LeadInS(p, k) then Some(NoLeadIn(k))
    else if stops >= b.enterS && alone + SLACK_S < half then Some(TailTooLong(k))
    else if Abs(b.ratio - LockedRatio(a, b)) > RATIO_TOLERANCE then Some(TempoNotLocked(k))
    else None
  }

  function SeamProblem(p: Plan, k: nat): Option<Problem>
    requires Playable(p) && k < |p.seams|
  {
    var a, s := p.tracks[k], p.seams[k];
    var playsFrom := a.enterS + a.RideSrcS();
    if s.outS < playsFrom + a.SourceBarS() then Some(OutTooEarly(k))
    else if s.recipe == BassSwap then SwapProblem(p, k)
    else if s.recipe == EchoOut && s.outS < playsFrom + 2.0 * a.SourceBarS() then Some(NoEchoBar(k))
    else if s.bars != 0 || s.sweep then Some(StrayBars(k))
    else None
  }

  function EndProblem(p: Plan): Option<Problem>
    requires Playable(p)
  {
    var last := p.tracks[|p.tracks| - 1];
    if p.endS < last.enterS + last.RideSrcS() + LAST_FADE_S * last.ExitRatio() then Some(EndTooEarly)
    else if p.output == "" then Some(NoOutput)
    else None
  }

  function CardProblem(p: Plan, i: nat, total: real): Option<Problem>
    requires i < |p.cardsAt|
  {
    if p.cardsAt[i] < 0.0 || p.cardsAt[i] > total then Some(CardOutside(i))
    else if p.cardsAt[i] < (if i == 0 then 0.0 else p.cardsAt[i - 1]) then Some(CardOutOfOrder(i))
    else None
  }

  /** Everything the layout relies on. */
  ghost predicate Sound(p: Plan) {
    && |p.tracks| > 0 && |p.seams| + 1 == |p.tracks|
    && (forall i | 0 <= i < |p.tracks| :: TrackProblem(p, i) == None)
    && Playable(p)
    && (forall k | 0 <= k < |p.seams| :: SeamProblem(p, k) == None)
    && EndProblem(p) == None
  }

  lemma TracksPlayable(p: Plan)
    requires |p.seams| + 1 == |p.tracks|
    requires forall i | 0 <= i < |p.tracks| :: TrackProblem(p, i) == None
    ensures Playable(p)
  {
    forall i | 0 <= i < |p.tracks|
      ensures p.tracks[i].Playable()
    {
      assert TrackProblem(p, i) == None;
    }
  }

  // ---- when each song starts -------------------------------------------------

  /** Set seconds song `k` plays from where it enters to where its seam's phrase ends, or the set does. */
  function BodyS(p: Plan, k: nat): real
    requires Playable(p) && k <= |p.seams|
  {
    p.tracks[k].PlayOutS(StopsAt(p, k) - p.tracks[k].enterS)
  }

  /** Set seconds from where song `k` plays alone to where the next one does: a bass swap hands over halfway. */
  function SeamS(p: Plan, k: nat): real
    requires Playable(p) && k < |p.seams|
  {
    BodyS(p, k) + if p.seams[k].recipe == BassSwap then HalfSwapS(p, k) else 0.0
  }

  /** When song `k` starts playing alone. */
  function StartAt(p: Plan, k: nat): real
    requires Playable(p) && k <= |p.seams|
  {
    if k == 0 then 0.0 else StartAt(p, k - 1) + SeamS(p, k - 1)
  }

  function DurationS(p: Plan): real
    requires Playable(p)
  {
    StartAt(p, |p.seams|) + BodyS(p, |p.seams|)
  }

  // ---- what a ride is --------------------------------------------------------

  /** A song rides when it is asked to over some bars and does not enter at its own tempo; each bar of the file then
      lasts as it does at that tempo, and the ratio moves from the one it enters at to 1 in equal steps. */
  lemma RideMeans(t: Track)
    requires t.Playable()
    ensures var r := t.RideOf();
      && r.barSrcS * t.nativeBpm == 240.0
      && |r.ratios| == (if t.rideBars > 0 && (t.ratio - 1.0 > 0.000000001 || 1.0 - t.ratio > 0.000000001)
                        then t.rideBars
                        else 0)
      && forall i | 0 <= i < |r.ratios| ::
           r.ratios[i] - (if i == 0 then t.ratio else r.ratios[i - 1]) == (1.0 - t.ratio) / t.rideBars as real
  {
    QuotientPositive(240.0, t.nativeBpm);
    var r, n := t.RideOf(), t.rideBars as real;
    forall i | 0 <= i < |r.ratios|
      ensures r.ratios[i] - (if i == 0 then t.ratio else r.ratios[i - 1]) == (1.0 - t.ratio) / n
    {
      OneStep(t.ratio, i, n);
      assert r.ratios[i] == t.RideRatio(i + 1);
      if i > 0 {
        assert r.ratios[i - 1] == t.RideRatio(i);
      }
    }
  }

  lemma OneStep(ratio: real, i: nat, n: real)
    requires n > 0.0
    ensures ratio + (1.0 - ratio) * ((i + 1) as real / n) - (ratio + (1.0 - ratio) * (i as real / n))
         == (1.0 - ratio) / n
    ensures (1.0 - ratio) * (0 as real / n) == 0.0
  {
    assert (i + 1) as real / n == i as real / n + 1.0 / n;
    assert (1.0 - ratio) * (i as real / n + 1.0 / n) == (1.0 - ratio) * (i as real / n) + (1.0 - ratio) * (1.0 / n);
    assert (1.0 - ratio) * (1.0 / n) == (1.0 - ratio) / n;
  }
}
