/** What each finding of a set plan's validation means, and that the one reported is the first there is. */
module SetProblems {
  import opened Common
  import opened SetPlan
  import opened SetLayout
  import opened SetValidation

  // ---- what is wrong ---------------------------------------------------------

  /** What is wrong with a song on its own, or with how it enters. */
  ghost predicate WrongTrack(p: Plan, q: Problem) {
    match q
    case RideTooLong(i) => i < |p.tracks| && p.tracks[i].rideBars > 64
    case RideWithoutSwap(i) =>
      i < |p.tracks| && p.tracks[i].rideBars > 0 && !(0 < i <= |p.seams| && p.seams[i - 1].recipe == BassSwap)
    case RepeatedEntry(i) => i < |p.tracks| && exists j :: 0 <= j < i && p.tracks[j].entryId == p.tracks[i].entryId
    case BadTempo(i) => i < |p.tracks| && !(p.tracks[i].nativeBpm > 0.0)
    case BadRatio(i) => i < |p.tracks| && !(p.tracks[i].ratio > 0.0)
    case BadEntry(i) => i < |p.tracks| && p.tracks[i].enterS < 0.0
    case _ => false
  }

  /** The tempo a song comes in at, and the one it leaves at. */
  function EntryBpm(t: Track): real {
    t.ratio * t.nativeBpm
  }

  function ExitBpm(t: Track): real
    requires t.Playable()
  {
    t.nativeBpm * t.ExitRatio()
  }

  /** Where song `i` of a set stops playing alone. */
  function AloneUntil(p: Plan, i: nat): real {
    if i < |p.seams| then p.seams[i].outS else p.endS
  }

  /** Half of a swap's bars, as long as the outgoing song's bars last. */
  function SwapHalf(p: Plan, k: nat): real
    requires Playable(p) && k < |p.seams|
  {
    p.tracks[k].BarS() * p.seams[k].bars as real / 2.0
  }

  /** What is wrong with a seam: with where it lies in the outgoing song, or with what its recipe needs. */
  ghost predicate WrongSeam(p: Plan, q: Problem)
    requires Playable(p)
  {
    match q
    case OutTooEarly(k) =>
      k < |p.seams| && p.seams[k].outS - p.tracks[k].enterS - p.tracks[k].RideSrcS() < p.tracks[k].SourceBarS()
    case UnevenBars(k) =>
      k < |p.seams| && p.seams[k].recipe == BassSwap && !(p.seams[k].bars >= 2 && p.seams[k].bars % 2 == 0)
    case NoLeadIn(k) =>
      k < |p.seams| && p.seams[k].recipe == BassSwap
      && p.tracks[k + 1].enterS + 0.000000001 < SwapHalf(p, k) * p.tracks[k + 1].ratio
    case TailTooLong(k) =>
      k < |p.seams| && p.seams[k].recipe == BassSwap && p.tracks[k + 1].enterS <= AloneUntil(p, k + 1)
      && p.tracks[k + 1].PlayOutS(AloneUntil(p, k + 1) - p.tracks[k + 1].enterS) + 0.000000001 < SwapHalf(p, k)
    case TempoNotLocked(k) =>
      k < |p.seams| && p.seams[k].recipe == BassSwap
      && Abs(EntryBpm(p.tracks[k + 1]) - ExitBpm(p.tracks[k])) > 0.002 * p.tracks[k + 1].nativeBpm
    case NoEchoBar(k) =>
      k < |p.seams| && p.seams[k].recipe == EchoOut
      && p.seams[k].outS - p.tracks[k].enterS - p.tracks[k].RideSrcS() < 2.0 * p.tracks[k].SourceBarS()
    case StrayBars(k) =>
      k < |p.seams| && p.seams[k].recipe != BassSwap && (p.seams[k].bars > 0 || p.seams[k].sweep)
    case _ => false
  }

  /** What is wrong with the end of the set, where it goes, or the cards over it. */
  ghost predicate WrongEnd(p: Plan, q: Problem)
    requires Playable(p)
  {
    match q
    case EndTooEarly =>
      var last := p.tracks[|p.seams|];
      p.endS - last.enterS - last.RideSrcS() < 2.0 * last.ExitRatio()
    case NoOutput => |p.output| == 0
    case CardOutside(i) => i < |p.cardsAt| && !(0.0 <= p.cardsAt[i] <= DurationS(p))
    case CardOutOfOrder(i) => 0 < i < |p.cardsAt| && p.cardsAt[i] < p.cardsAt[i - 1]
    case _ => false
  }

  /** The plan has this problem, whatever others it has. Seams and the end can only be judged of songs that can be
      played. */
  ghost predicate Wrong(p: Plan, q: Problem) {
    || (q.NoTracks? && p.tracks == [])
    || (q.SeamCount? && |p.tracks| != |p.seams| + 1)
    || WrongTrack(p, q)
    || (Playable(p) && (WrongSeam(p, q) || WrongEnd(p, q)))
  }

  // ---- in which order --------------------------------------------------------

  /** When a problem is looked for: in which part of the plan, at which place in it, and after how many others there. */
  function Rank(q: Problem): (r: (nat, nat, nat)) {
    match q
    case NoTracks => (0, 0, 0)
    case SeamCount => (1, 0, 0)
    case RideTooLong(i) => (2, i, 0)
    case RideWithoutSwap(i) => (2, i, 1)
    case RepeatedEntry(i) => (2, i, 2)
    case BadTempo(i) => (2, i, 3)
    case BadRatio(i) => (2, i, 4)
    case BadEntry(i) => (2, i, 5)
    case OutTooEarly(k) => (3, k, 0)
    case UnevenBars(k) => (3, k, 1)
    case NoLeadIn(k) => (3, k, 2)
    case TailTooLong(k) => (3, k, 3)
    case TempoNotLocked(k) => (3, k, 4)
    case NoEchoBar(k) => (3, k, 5)
    case StrayBars(k) => (3, k, 6)
    case EndTooEarly => (4, 0, 0)
    case NoOutput => (4, 0, 1)
    case CardOutside(i) => (5, i, 0)
    case CardOutOfOrder(i) => (5, i, 1)
  }

  /** The plan has `q`, and nothing that is looked for before it. */
  ghost predicate IsFirst(p: Plan, q: Problem) {
    Wrong(p, q) && forall e | Sooner(Rank(e), Rank(q)) :: !Wrong(p, e)
  }

  lemma OneRank(a: Problem, b: Problem)
    requires Rank(a) == Rank(b)
    ensures a == b
  {
  }

  lemma RanksCompare(a: Problem, b: Problem)
    ensures Rank(a) == Rank(b) || Sooner(Rank(a), Rank(b)) || Sooner(Rank(b), Rank(a))
  {
    hide Rank;
  }

  lemma OneFirst(p: Plan, a: Problem, b: Problem)
    requires IsFirst(p, a) && IsFirst(p, b)
    ensures a == b
  {
    hide Wrong, Rank;
    RanksCompare(a, b);
    OneRank(a, b);
  }

  // ---- one place at a time ---------------------------------------------------

  /** Of what is looked for at one place, `found` is the first the plan has. */
  ghost predicate FirstAt(p: Plan, found: Option<Problem>, stage: nat, at: nat) {
    && (found.Some? ==> Wrong(p, found.value) && Rank(found.value).0 == stage && Rank(found.value).1 == at)
    && forall e | Rank(e).0 == stage && Rank(e).1 == at && (found.Some? ==> Rank(e).2 < Rank(found.value).2) ::
      !Wrong(p, e)
  }

  lemma TrackFirst(p: Plan, i: nat)
    requires i < |p.tracks| && |p.seams| + 1 == |p.tracks|
    ensures FirstAt(p, TrackProblem(p, i), 2, i)
  {
    hide Playable;
  }

  lemma LockedRatioIs(a: Track, b: Track)
    requires a.Playable() && b.Playable()
    ensures LockedRatio(a, b) * b.nativeBpm == ExitBpm(a)
  {
    hide Track.ExitRatio;
    QuotientPositive(ExitBpm(a), b.nativeBpm);
  }

  /** The tempo check, without dividing. */
  lemma TempoUndivided(a: Track, b: Track)
    requires a.Playable() && b.Playable()
    ensures Abs(b.ratio - LockedRatio(a, b)) > 0.002 <==> Abs(EntryBpm(b) - ExitBpm(a)) > 0.002 * b.nativeBpm
  {
    LockedRatioIs(a, b);
    hide LockedRatio, ExitBpm;
    ScaledDistance(b.ratio, LockedRatio(a, b), b.nativeBpm, 0.002, EntryBpm(b), ExitBpm(a));
  }

  lemma HalfIs(p: Plan, k: nat)
    requires Playable(p) && k < |p.seams|
    ensures SwapHalf(p, k) == HalfSwapS(p, k)
  {
    hide Track.BarS;
  }

  lemma LeadInIs(p: Plan, k: nat)
    requires Playable(p) && k < |p.seams| && p.seams[k].recipe == BassSwap
    ensures WrongSeam(p, NoLeadIn(k)) <==> p.tracks[k + 1].enterS + SLACK_S < LeadInS(p, k)
  {
    HalfIs(p, k);
    hide SwapHalf, HalfSwapS;
  }

  lemma TailIs(p: Plan, k: nat)
    requires Playable(p) && k < |p.seams| && p.seams[k].recipe == BassSwap
    ensures var b, stops := p.tracks[k + 1], StopsAt(p, k + 1);
      WrongSeam(p, TailTooLong(k)) <==> stops >= b.enterS && b.PlayOutS(stops - b.enterS) + SLACK_S < HalfSwapS(p, k)
  {
    HalfIs(p, k);
    hide SwapHalf, HalfSwapS, Track.PlayOutS;
    assert StopsAt(p, k + 1) == AloneUntil(p, k + 1);
  }

  lemma TempoIs(p: Plan, k: nat)
    requires Playable(p) && k < |p.seams| && p.seams[k].recipe == BassSwap
    ensures var a, b := p.tracks[k], p.tracks[k + 1];
      WrongSeam(p, TempoNotLocked(k)) <==> Abs(b.ratio - LockedRatio(a, b)) > RATIO_TOLERANCE
  {
    TempoUndivided(p.tracks[k], p.tracks[k + 1]);
    hide EntryBpm, ExitBpm, LockedRatio, Track.RideSrcS, Track.SourceBarS, SwapHalf, Track.PlayOutS;
  }

  /** A swap's checks, one after another. */
  lemma SwapProblemIs(p: Plan, k: nat)
    requires Playable(p) && k < |p.seams| && p.seams[k].recipe == BassSwap
    ensures SwapProblem(p, k) == if WrongSeam(p, UnevenBars(k)) then Some(UnevenBars(k))
                                 else if WrongSeam(p, NoLeadIn(k)) then Some(NoLeadIn(k))
                                 else if WrongSeam(p, TailTooLong(k)) then Some(TailTooLong(k))
                                 else if WrongSeam(p, TempoNotLocked(k)) then Some(TempoNotLocked(k))
                                 else None
  {
    LeadInIs(p, k);
    TailIs(p, k);
    TempoIs(p, k);
    assert WrongSeam(p, UnevenBars(k)) <==> p.seams[k].bars < 2 || p.seams[k].bars % 2 != 0;
    hide WrongSeam, HalfSwapS, LeadInS, StopsAt, Track.PlayOutS, LockedRatio, Playable, Abs;
  }

  lemma SwapRanks(e: Problem, k: nat)
    requires Rank(e).0 == 3 && Rank(e).1 == k && 0 < Rank(e).2 < 5
    ensures e == UnevenBars(k) || e == NoLeadIn(k) || e == TailTooLong(k) || e == TempoNotLocked(k)
  {
  }

  lemma SwapFirst(p: Plan, k: nat)
    requires Playable(p) && k < |p.seams| && p.seams[k].recipe == BassSwap
    ensures match SwapProblem(p, k)
            case Some(q) =>
              WrongSeam(p, q) && Rank(q).0 == 3 && Rank(q).1 == k && 0 < Rank(q).2 < 5
              && forall e | Rank(e).0 == 3 && Rank(e).1 == k && 0 < Rank(e).2 < Rank(q).2 :: !WrongSeam(p, e)
            case None =>
              forall e | Rank(e).0 == 3 && Rank(e).1 == k && 0 < Rank(e).2 < 5 :: !WrongSeam(p, e)
  {
    SwapProblemIs(p, k);
    hide SwapProblem, WrongSeam, Playable;
    forall e | Rank(e).0 == 3 && Rank(e).1 == k && 0 < Rank(e).2 < 5
      ensures e == UnevenBars(k) || e == NoLeadIn(k) || e == TailTooLong(k) || e == TempoNotLocked(k)
    {
      SwapRanks(e, k);
    }
  }

  lemma SeamFirst(p: Plan, k: nat)
    requires Playable(p) && k < |p.seams|
    ensures FirstAt(p, SeamProblem(p, k), 3, k)
  {
    if p.seams[k].recipe == BassSwap {
      SwapFirst(p, k);
    }
    hide Track.ExitRatio, Track.BarS, Track.PlayOutS, Track.RideSrcS, Track.SourceBarS, Playable, SwapProblem;
    forall e | Rank(e).0 == 3
      ensures Wrong(p, e) <==> WrongSeam(p, e)
    {
    }
  }

  lemma EndFirst(p: Plan)
    requires Playable(p)
    ensures FirstAt(p, EndProblem(p), 4, 0)
  {
    assert |p.seams| + 1 == |p.tracks|;
    assert |p.output| == 0 <==> p.output == "";
    hide Track.ExitRatio, Track.RideSrcS, Playable;
  }

  lemma CardFirst(p: Plan, i: nat)
    requires Playable(p) && i < |p.cardsAt| && (i > 0 ==> p.cardsAt[i - 1] >= 0.0)
    ensures FirstAt(p, CardProblem(p, i, DurationS(p)), 5, i)
  {
    hide DurationS, Playable;
  }

  // ---- one part of the plan at a time ----------------------------------------

  /** Of what is looked for in one part of the plan from place `from` on, `found` is the first the plan has. */
  ghost predicate FirstIn(p: Plan, found: Option<Problem>, stage: nat, from: nat) {
    && (found.Some? ==> Wrong(p, found.value) && Rank(found.value).0 == stage && Rank(found.value).1 >= from)
    && forall e | Rank(e).0 == stage && Rank(e).1 >= from && (found.Some? ==> Sooner(Rank(e), Rank(found.value))) ::
         !Wrong(p, e)
  }

  lemma Onwards(p: Plan, here: Option<Problem>, later: Option<Problem>, stage: nat, at: nat)
    requires FirstAt(p, here, stage, at) && FirstIn(p, later, stage, at + 1)
    ensures FirstIn(p, if here.Some? then here else later, stage, at)
  {
    hide Wrong, Rank;
  }

  lemma {:induction false} TracksFirst(p: Plan, i: nat)
    requires i <= |p.tracks| && |p.seams| + 1 == |p.tracks|
    ensures FirstIn(p, FirstTrack(p, i), 2, i)
    decreases |p.tracks| - i
  {
    hide TrackProblem;
    if i < |p.tracks| {
      TrackFirst(p, i);
      TracksFirst(p, i + 1);
      Onwards(p, TrackProblem(p, i), FirstTrack(p, i + 1), 2, i);
    } else {
      NoTrackPast(p, i);
    }
  }

  lemma NoTrackPast(p: Plan, i: nat)
    requires i >= |p.tracks|
    ensures FirstIn(p, None, 2, i)
  {
    hide Playable;
  }

  lemma {:induction false} SeamsFirst(p: Plan, k: nat)
    requires Playable(p) && k <= |p.seams|
    ensures FirstIn(p, FirstSeam(p, k), 3, k)
    decreases |p.seams| - k
  {
    hide SeamProblem;
    if k < |p.seams| {
      SeamFirst(p, k);
      SeamsFirst(p, k + 1);
      Onwards(p, SeamProblem(p, k), FirstSeam(p, k + 1), 3, k);
    } else {
      NoSeamPast(p, k);
    }
  }

  lemma NoSeamPast(p: Plan, k: nat)
    requires Playable(p) && k >= |p.seams|
    ensures FirstIn(p, None, 3, k)
  {
    hide Playable, Track.ExitRatio, Track.BarS, Track.PlayOutS, Track.RideSrcS, Track.SourceBarS;
  }

  lemma {:induction false} CardsFirst(p: Plan, i: nat)
    requires Playable(p) && i <= |p.cardsAt| && (i > 0 ==> p.cardsAt[i - 1] >= 0.0)
    ensures FirstIn(p, FirstCard(p, i), 5, i)
    decreases |p.cardsAt| - i
  {
    hide DurationS, Playable, Wrong, Rank, FirstIn, FirstAt;
    if i < |p.cardsAt| {
      CardFirst(p, i);
      if CardProblem(p, i, DurationS(p)) == None {
        CardsFirst(p, i + 1);
        Onwards(p, None, FirstCard(p, i + 1), 5, i);
      } else {
        JustHere(p, CardProblem(p, i, DurationS(p)), 5, i);
      }
    } else {
      NoCardPast(p, i);
    }
  }

  lemma JustHere(p: Plan, here: Option<Problem>, stage: nat, at: nat)
    requires FirstAt(p, here, stage, at) && here.Some?
    ensures FirstIn(p, here, stage, at)
  {
    hide Wrong, Rank;
  }

  lemma NoCardPast(p: Plan, i: nat)
    requires Playable(p) && i >= |p.cardsAt|
    ensures FirstIn(p, None, 5, i)
  {
    hide Playable, DurationS;
  }

  // ---- the whole plan --------------------------------------------------------

  ghost predicate Clear(p: Plan, stages: nat) {
    forall e | Rank(e).0 < stages :: !Wrong(p, e)
  }

  lemma NothingEarlier(p: Plan, found: Option<Problem>, stage: nat)
    requires Clear(p, stage) && FirstIn(p, found, stage, 0)
    ensures if found.Some? then IsFirst(p, found.value) else Clear(p, stage + 1)
  {
    hide Wrong, Rank;
  }

  lemma ShapeFirst(p: Plan)
    ensures p.tracks == [] ==> IsFirst(p, NoTracks)
    ensures p.tracks != [] && |p.seams| + 1 != |p.tracks| ==> IsFirst(p, SeamCount)
    ensures p.tracks != [] && |p.seams| + 1 == |p.tracks| ==> Clear(p, 2)
  {
    hide WrongTrack, WrongSeam, WrongEnd, Playable;
    assert forall e | Rank(e).0 < 2 :: e == NoTracks || e == SeamCount;
    ShapeOnly(p, NoTracks);
    ShapeOnly(p, SeamCount);
  }

  lemma ShapeOnly(p: Plan, q: Problem)
    requires q == NoTracks || q == SeamCount
    ensures !WrongTrack(p, q) && (Playable(p) ==> !WrongSeam(p, q) && !WrongEnd(p, q))
  {
    hide Playable;
  }

  lemma EndOnly(p: Plan, found: Option<Problem>)
    requires FirstAt(p, found, 4, 0)
    ensures FirstIn(p, found, 4, 0)
  {
    hide Wrong;
    assert forall e | Rank(e).0 == 4 :: Rank(e).1 == 0;
  }

  /** What is reported is the first thing wrong, and nothing is reported exactly when nothing is. */
  lemma ReportsFirst(p: Plan)
    ensures FirstProblem(p).Some? ==> IsFirst(p, FirstProblem(p).value)
    ensures FirstProblem(p) == None ==> forall q :: !Wrong(p, q)
  {
    hide Wrong, Rank, IsFirst, FirstIn, FirstAt, Clear, FirstTrack, FirstSeam, EndProblem, FirstCard, Playable;
    ShapeFirst(p);
    if p.tracks != [] && |p.seams| + 1 == |p.tracks| {
      TracksFirst(p, 0);
      NothingEarlier(p, FirstTrack(p, 0), 2);
      if FirstTrack(p, 0) == None {
        AllTracksPass(p, 0);
        TracksPlayable(p);
        SeamsFirst(p, 0);
        NothingEarlier(p, FirstSeam(p, 0), 3);
        if FirstSeam(p, 0) == None {
          EndFirst(p);
          EndOnly(p, EndProblem(p));
          NothingEarlier(p, EndProblem(p), 4);
          if EndProblem(p) == None {
            CardsFirst(p, 0);
            NothingEarlier(p, FirstCard(p, 0), 5);
            if FirstCard(p, 0) == None {
              ClearIsAll(p);
            }
          }
        }
      }
    }
  }

  lemma ClearIsAll(p: Plan)
    requires Clear(p, 6)
    ensures forall q :: !Wrong(p, q)
  {
    hide Wrong;
    assert forall q :: Rank(q).0 < 6;
  }

  /** So a problem is the one reported if and only if the plan has it and has none that is looked for sooner. */
  lemma ReportedIffFirst(p: Plan, q: Problem)
    ensures FirstProblem(p) == Some(q) <==> IsFirst(p, q)
  {
    hide Wrong, Rank, FirstProblem;
    ReportsFirst(p);
    if IsFirst(p, q) && FirstProblem(p).Some? {
      OneFirst(p, q, FirstProblem(p).value);
    }
  }

  /** And a plan is accepted if and only if nothing is wrong with it. */
  lemma AcceptedIffNothingWrong(p: Plan)
    ensures FirstProblem(p) == None <==> forall q :: !Wrong(p, q)
  {
    hide Wrong, Rank, FirstProblem;
    ReportsFirst(p);
  }

  // ---- what the tempo check is for -------------------------------------------

  /** Over a bass swap of an accepted plan the incoming song's bars, played at its ratio, are as long as the outgoing
      song's to within two thousandths. */
  lemma BeatsLocked(p: Plan, k: nat)
    requires FirstProblem(p) == None && k < |p.seams| && p.seams[k].recipe == BassSwap
    ensures Playable(p)
    ensures var a, b := p.tracks[k], p.tracks[k + 1];
      Abs(b.ratio * a.BarS() - b.SourceBarS()) <= 0.002 * a.BarS()
  {
    hide FirstProblem, Sound, Playable, Wrong;
    ValidIsSound(p);
    SoundPlays(p);
    AcceptedIffNothingWrong(p);
    TempoWithin(p, k);
    BarsOfTempo(p.tracks[k], p.tracks[k + 1]);
  }

  lemma SoundPlays(p: Plan)
    requires Sound(p)
    ensures Playable(p) && forall i | 0 <= i < |p.tracks| :: p.tracks[i].Playable()
  {
  }

  lemma TempoWithin(p: Plan, k: nat)
    requires Playable(p) && k < |p.seams| && p.seams[k].recipe == BassSwap && !Wrong(p, TempoNotLocked(k))
    ensures Abs(EntryBpm(p.tracks[k + 1]) - ExitBpm(p.tracks[k])) <= 0.002 * p.tracks[k + 1].nativeBpm
  {
    hide EntryBpm, ExitBpm, Abs;
  }

  lemma BarsOfTempo(a: Track, b: Track)
    requires a.Playable() && b.Playable() && Abs(EntryBpm(b) - ExitBpm(a)) <= 0.002 * b.nativeBpm
    ensures Abs(b.ratio * a.BarS() - b.SourceBarS()) <= 0.002 * a.BarS()
  {
    var la, lb, eb, xa := a.BarS(), b.SourceBarS(), EntryBpm(b), ExitBpm(a);
    BarTimesBpm(a);
    SourceBarTimesBpm(b);
    LockedBars(b.ratio, la, lb, b.nativeBpm, eb, xa);
  }

  lemma BarTimesBpm(a: Track)
    requires a.Playable()
    ensures ExitBpm(a) * a.BarS() == 240.0
  {
    SourceBarTimesBpm(a);
    Reassociated(a.nativeBpm, a.ExitRatio(), a.BarS());
    hide Track.ExitRatio, Track.BarS, Track.SourceBarS;
  }

  lemma Reassociated(x: real, y: real, z: real)
    ensures x * y * z == x * (z * y)
  {
  }

  lemma SourceBarTimesBpm(b: Track)
    requires b.Playable()
    ensures b.nativeBpm * b.SourceBarS() == 240.0
  {
    QuotientPositive(240.0, b.nativeBpm);
  }

  /** With `240 == bpm * lb == xa * la` and the tempos `eb == ratio * bpm` and `xa` within a tolerance of each other. */
  lemma LockedBars(ratio: real, la: real, lb: real, bpm: real, eb: real, xa: real)
    requires la > 0.0 && bpm > 0.0 && eb == ratio * bpm
    requires xa * la == 240.0 && bpm * lb == 240.0 && Abs(eb - xa) <= 0.002 * bpm
    ensures Abs(ratio * la - lb) <= 0.002 * la
  {
    var off := ratio * la - lb;
    assert off * bpm == (eb - xa) * la by {
      Reassociated(ratio, la, bpm);
      Shifted(eb, xa, la);
      assert eb * la == ratio * (bpm * la);
    }
    Bounded(eb - xa, la, 0.002 * bpm);
    assert 0.002 * bpm * la == 0.002 * la * bpm;
    AtMost(off, bpm, 0.002 * la);
    assert (-off) * bpm == -(off * bpm);
    AtMost(-off, bpm, 0.002 * la);
  }

  lemma Bounded(x: real, d: real, m: real)
    requires d > 0.0 && Abs(x) <= m
    ensures -(m * d) <= x * d <= m * d
  {
    ProductNonNegative(m - x, d);
    ProductNonNegative(m + x, d);
    Shifted(m, x, d);
    assert (m + x) * d == m * d + x * d;
  }
}
