/** What each finding about a chapter means, and whose stem plays at each of its bars. */
module ChapterLaws {
  import opened Common
  import opened ChapterPlan

  // ---- what is wrong ---------------------------------------------------------

  /** A length in seconds times the tempo it is at, in beats a minute: four beats, a bar, come to 240. */
  function BarByTempo(p: Plan): real {
    p.barSeconds * p.bpm
  }

  function LandingByTempo(h: Hook): real {
    h.landingS * h.nativeBpm
  }

  /** The chapter has this problem, whatever others it has. */
  ghost predicate Wrong(p: Plan, q: Problem) {
    match q
    case BadTempo => !(p.bpm > 0.0)
    case BarOffTempo => p.bpm > 0.0 && Abs(BarByTempo(p) - 240.0) > 0.001 * p.bpm
    case NoHooks => |p.hooks| == 0
    case RepeatedEntry(i) => i < |p.hooks| && exists j :: 0 <= j < i && p.hooks[j].entryId == p.hooks[i].entryId
    case BadNativeTempo(i) => i < |p.hooks| && !(p.hooks[i].nativeBpm > 0.0)
    case NoFullBars(i) => i < |p.hooks| && p.hooks[i].full < 1
    case NothingToSingOver(i) => i == 0 < |p.hooks| && p.hooks[i].vocalOver > 0
    case LandsTooEarly(i) =>
      i < |p.hooks| && p.hooks[i].nativeBpm > 0.0 && LandingByTempo(p.hooks[i]) < 960.0
    case PastRegion(i) => i < |p.hooks| && BarsAfter(p, i) % U32_SIZE > 18
  }

  /** When a problem is looked for: for the whole chapter, or at which hook and after how many others there. */
  function Rank(q: Problem): (r: (nat, nat, nat)) {
    match q
    case BadTempo => (0, 0, 0)
    case BarOffTempo => (0, 0, 1)
    case NoHooks => (0, 0, 2)
    case RepeatedEntry(i) => (1, i, 0)
    case BadNativeTempo(i) => (1, i, 1)
    case NoFullBars(i) => (1, i, 2)
    case NothingToSingOver(i) => (1, i, 3)
    case LandsTooEarly(i) => (1, i, 4)
    case PastRegion(i) => (1, i, 5)
  }

  ghost predicate IsFirst(p: Plan, q: Problem) {
    Wrong(p, q) && forall e | Sooner(Rank(e), Rank(q)) :: !Wrong(p, e)
  }

  lemma OneFirst(p: Plan, a: Problem, b: Problem)
    requires IsFirst(p, a) && IsFirst(p, b)
    ensures a == b
  {
    hide Wrong, Rank;
    RanksCompare(a, b);
  }

  lemma RanksCompare(a: Problem, b: Problem)
    ensures a == b || Sooner(Rank(a), Rank(b)) || Sooner(Rank(b), Rank(a))
  {
  }

  lemma TempoIs(p: Plan)
    requires p.bpm > 0.0
    ensures Wrong(p, BarOffTempo) <==> Abs(p.barSeconds - 240.0 / p.bpm) > BAR_SECONDS_TOLERANCE
  {
    QuotientPositive(240.0, p.bpm);
    OffBy(p, 240.0 / p.bpm);
  }

  lemma OffBy(p: Plan, exact: real)
    requires p.bpm > 0.0 && exact * p.bpm == 240.0
    ensures Wrong(p, BarOffTempo) <==> Abs(p.barSeconds - exact) > BAR_SECONDS_TOLERANCE
  {
    ScaledDistance(p.barSeconds, exact, p.bpm, 0.001, BarByTempo(p), 240.0);
    hide BarByTempo, Abs;
  }

  lemma LandingIs(h: Hook)
    requires h.nativeBpm > 0.0
    ensures h.landingS < REGION_BARS_BEFORE as real * h.NativeBarS() <==> LandingByTempo(h) < 960.0
  {
    QuotientPositive(240.0, h.nativeBpm);
    FourBars(h.NativeBarS(), h.nativeBpm);
    ScaledOrder(4.0 * h.NativeBarS(), h.landingS, h.nativeBpm, 960.0, LandingByTempo(h));
  }

  lemma FourBars(bar: real, bpm: real)
    requires bar * bpm == 240.0
    ensures 4.0 * bar * bpm == 960.0
  {
  }

  lemma UsedIs(a: U32, b: U32, c: U32)
    ensures WrapAdd(WrapAdd(a, b), c) == (a + b + c) % U32_SIZE
  {
  }

  /** Of what is looked for at hook `i`, `found` is the first the chapter has. */
  ghost predicate FirstAt(p: Plan, found: Option<Problem>, i: nat) {
    && (found.Some? ==> Wrong(p, found.value) && Rank(found.value).0 == 1 && Rank(found.value).1 == i)
    && forall e | Rank(e).0 == 1 && Rank(e).1 == i && (found.Some? ==> Rank(e).2 < Rank(found.value).2) :: !Wrong(p, e)
  }

  lemma HookFirst(p: Plan, i: nat)
    requires i < |p.hooks|
    ensures FirstAt(p, HookProblem(p, i), i)
  {
    var h := p.hooks[i];
    if h.nativeBpm > 0.0 {
      LandingIs(h);
    }
    UsedIs(h.vocalOver, h.full, NextOver(p, i));
    assert UsedBars(p, i) == BarsAfter(p, i) % U32_SIZE;
    hide WrapAdd, UsedBars, BarsAfter, NextOver, Hook.NativeBarS, LandingByTempo, BarByTempo;
  }

  ghost predicate FirstFrom(p: Plan, found: Option<Problem>, i: nat) {
    && (found.Some? ==> Wrong(p, found.value) && Rank(found.value).0 == 1 && Rank(found.value).1 >= i)
    && forall e | Rank(e).0 == 1 && Rank(e).1 >= i && (found.Some? ==> Sooner(Rank(e), Rank(found.value))) ::
      !Wrong(p, e)
  }

  lemma {:induction false} HooksFirst(p: Plan, i: nat)
    requires i <= |p.hooks|
    ensures FirstFrom(p, FirstHook(p, i), i)
    decreases |p.hooks| - i
  {
    hide HookProblem;
    if i < |p.hooks| {
      HookFirst(p, i);
      HooksFirst(p, i + 1);
      Onwards(p, HookProblem(p, i), FirstHook(p, i + 1), i);
    } else {
      NoHookPast(p, i);
    }
  }

  lemma Onwards(p: Plan, here: Option<Problem>, later: Option<Problem>, i: nat)
    requires FirstAt(p, here, i) && FirstFrom(p, later, i + 1)
    ensures FirstFrom(p, if here.Some? then here else later, i)
  {
    hide Wrong, Rank;
  }

  lemma NoHookPast(p: Plan, i: nat)
    requires i >= |p.hooks|
    ensures FirstFrom(p, None, i)
  {
  }

  /** What is reported is the first thing wrong, and nothing is reported exactly when nothing is. */
  lemma ReportsFirst(p: Plan)
    ensures FirstProblem(p).Some? ==> IsFirst(p, FirstProblem(p).value)
    ensures FirstProblem(p) == None ==> forall q :: !Wrong(p, q)
  {
    if p.bpm > 0.0 {
      TempoIs(p);
    }
    HooksFirst(p, 0);
    Chapterwide(p);
    hide FirstHook, Wrong;
  }

  /** The three things looked for before any hook. */
  lemma Chapterwide(p: Plan)
    ensures Wrong(p, BadTempo) <==> p.bpm <= 0.0
    ensures Wrong(p, NoHooks) <==> p.hooks == []
    ensures forall e | Rank(e).0 == 0 :: e == BadTempo || e == BarOffTempo || e == NoHooks
    ensures forall e :: Rank(e).0 <= 1
  {
  }

  /** So a problem is the one reported if and only if the chapter has it and has none that is looked for sooner; and a
      chapter is accepted if and only if nothing is wrong with it. */
  lemma ReportedIffFirst(p: Plan, q: Problem)
    ensures FirstProblem(p) == Some(q) <==> IsFirst(p, q)
    ensures FirstProblem(p) == None <==> forall e :: !Wrong(p, e)
  {
    hide Wrong, Rank, FirstProblem;
    ReportsFirst(p);
    if IsFirst(p, q) && FirstProblem(p).Some? {
      OneFirst(p, q, FirstProblem(p).value);
    }
  }

  // ---- who plays -------------------------------------------------------------

  /** The layer plays what it should at `bar`, `into` bars after hook `i` entered: the hook's vocal from its landing on,
      and under it first the previous song's instrumental, from the bar where that song's own bars ended, and then the
      hook's own, at the same bar as the vocal. */
  predicate PlaysHook(p: Plan, l: Layer, i: nat, bar: nat, into: nat)
    requires i < |p.hooks| && l.atBar <= bar
  {
    var plays := l.fromBar + (bar - l.atBar);
    if l.stem == NoVocals && into < p.hooks[i].vocalOver then
      0 < i && l.hook == i - 1 && plays == p.hooks[i - 1].vocalOver + p.hooks[i - 1].full + into
    else
      l.hook == i && plays == into
  }

  ghost predicate PlaysRight(p: Plan, l: Layer, bar: nat)
    requires l.atBar <= bar
  {
    exists i: nat | i < |p.hooks| && EntersAt(p, i) <= bar < EntersAt(p, i) + p.hooks[i].vocalOver + p.hooks[i].full ::
      PlaysHook(p, l, i, bar, bar - EntersAt(p, i))
  }

  lemma HookPlays(p: Plan, i: nat, l: Layer, bar: nat)
    requires i < |p.hooks| && StartsFit(p) && p.hooks[0].vocalOver == 0
    requires l in HookLayers(p, i, OutBar(p, i)) && l.Covers(bar)
    ensures PlaysRight(p, l, bar)
  {
    var h, at := p.hooks[i], EntersAt(p, i);
    assert at + h.vocalOver < U32_SIZE;
    OutBarExact(p, i);
    NoWrap(at, h.vocalOver);
    if i > 0 {
      var prev := p.hooks[i - 1];
      assert EntersAt(p, i) == EntersAt(p, i - 1) + HookBars(p, i - 1);
      NoWrap(prev.vocalOver, prev.full);
      hide OutBar, WrapAdd, EntersAt, StartsFit;
      HookParts(p, i, at);
    }
    assert PlaysHook(p, l, i, bar, bar - at);
  }

  lemma NoWrap(a: U32, b: U32)
    ensures a + b < U32_SIZE ==> WrapAdd(a, b) == a + b
  {
  }

  lemma {:induction false} FromHook(p: Plan, n: nat, l: Layer) returns (i: nat)
    requires n <= |p.hooks| && l in LayersUpTo(p, n)
    ensures i < n && l in HookLayers(p, i, OutBar(p, i))
  {
    hide HookLayers, OutBar;
    i := n - 1;
    if l !in HookLayers(p, n - 1, OutBar(p, n - 1)) {
      i := FromHook(p, n - 1, l);
    }
  }

  /** At every bar of a chapter whose starts fit, whatever plays there plays what it should, where it should. */
  lemma EveryBarPlaysRight(p: Plan, l: Layer, bar: nat)
    requires Accepted(p) && StartsFit(p) && l in AllLayers(p) && l.Covers(bar)
    ensures PlaysRight(p, l, bar)
  {
    assert HookProblem(p, 0) == None;
    hide StartsFit, HookLayers, PlaysRight;
    var i := FromHook(p, |p.hooks|, l);
    HookPlays(p, i, l, bar);
  }

  /** A layer is read from four bars before the landing on: so a bar of it is that many bars of the song, at its own
      tempo, past where the separated stem begins. */
  lemma ReadsItsBars(p: Plan, l: Layer)
    requires l.hook < |p.hooks| && p.hooks[l.hook].nativeBpm > 0.0
    ensures NativeStart(p, l) * p.hooks[l.hook].nativeBpm == 240.0 * (4 + l.fromBar) as real
    ensures NativeLen(p, l) * p.hooks[l.hook].nativeBpm == 240.0 * l.bars as real
    ensures RegionLen(p.hooks[l.hook]) * p.hooks[l.hook].nativeBpm == 240.0 * 22.0
  {
    var h := p.hooks[l.hook];
    QuotientPositive(240.0, h.nativeBpm);
    BarsTimes((4 + l.fromBar) as real, h.NativeBarS(), h.nativeBpm);
    BarsTimes(l.bars as real, h.NativeBarS(), h.nativeBpm);
    BarsTimes(22.0, h.NativeBarS(), h.nativeBpm);
    hide Hook.NativeBarS;
  }

  lemma BarsTimes(n: real, bar: real, bpm: real)
    requires bar * bpm == 240.0
    ensures n * bar * bpm == 240.0 * n
  {
    assert n * bar * bpm == n * (bar * bpm);
  }
}
