/** A chapter's bars: each hook's vocal over the previous song's instrumental, then with its own. */
module ChapterPlan {
  import opened Common

  const REGION_BARS_BEFORE := 4
  const REGION_BARS_AFTER := 18
  const BAR_SECONDS_TOLERANCE := 0.001

  /** Addition of 32-bit counts, which wraps. */
  function WrapAdd(a: U32, b: U32): U32 {
    (a + b) % U32_SIZE
  }

  datatype Hook = Hook(entryId: string, landingS: real, nativeBpm: real, vocalOver: U32, full: U32) {
    function NativeBarS(): real
      requires nativeBpm > 0.0
    {
      240.0 / nativeBpm
    }
  }

  datatype Plan = Plan(bpm: real, barSeconds: real, hooks: seq<Hook>)

  // ---- validation ------------------------------------------------------------

  datatype Problem =
    | BadTempo
    | BarOffTempo
    | NoHooks
    | RepeatedEntry(i: nat)
    | BadNativeTempo(i: nat)
    | NoFullBars(i: nat)
    | NothingToSingOver(i: nat)
    | LandsTooEarly(i: nat)
    | PastRegion(i: nat)

  function NextOver(p: Plan, i: nat): U32
    requires i < |p.hooks|
  {
    if i + 1 < |p.hooks| then p.hooks[i + 1].vocalOver else 0
  }

  /** Bars after the landing hook `i` is said to use, in 32-bit counts. */
  function UsedBars(p: Plan, i: nat): U32
    requires i < |p.hooks|
  {
    WrapAdd(WrapAdd(p.hooks[i].vocalOver, p.hooks[i].full), NextOver(p, i))
  }

  function HookProblem(p: Plan, i: nat): Option<Problem>
    requires i < |p.hooks|
  {
    var h := p.hooks[i];
    if exists j :: 0 <= j < i && p.hooks[j].entryId == h.entryId then Some(RepeatedEntry(i))
    else if h.nativeBpm <= 0.0 then Some(BadNativeTempo(i))
    else if h.full == 0 then Some(NoFullBars(i))
    else if i == 0 && h.vocalOver != 0 then Some(NothingToSingOver(i))
    else if h.landingS < REGION_BARS_BEFORE as real * h.NativeBarS() then Some(LandsTooEarly(i))
    else if UsedBars(p, i) > REGION_BARS_AFTER then Some(PastRegion(i))
    else None
  }

  /** The hooks of the plan pass every check made of them. */
  ghost predicate Accepted(p: Plan) {
    && p.bpm > 0.0 && Abs(p.barSeconds - 240.0 / p.bpm) <= BAR_SECONDS_TOLERANCE
    && p.hooks != []
    && forall i | 0 <= i < |p.hooks| :: HookProblem(p, i) == None
  }

  /** The first thing wrong among the tempo and the hooks, looked for in the order the checks run. */
  ghost function FirstProblem(p: Plan): Option<Problem> {
    if p.bpm <= 0.0 then Some(BadTempo)
    else if Abs(p.barSeconds - 240.0 / p.bpm) > BAR_SECONDS_TOLERANCE then Some(BarOffTempo)
    else if p.hooks == [] then Some(NoHooks)
    else FirstHook(p, 0)
  }

  ghost function FirstHook(p: Plan, i: nat): Option<Problem>
    requires i <= |p.hooks|
    decreases |p.hooks| - i
  {
    if i == |p.hooks| then None else if HookProblem(p, i).Some? then HookProblem(p, i) else FirstHook(p, i + 1)
  }

  method ValidateHooks(p: Plan) returns (r: Option<Problem>)
    ensures r == FirstProblem(p)
    ensures r == None <==> Accepted(p)
    ensures p.bpm <= 0.0 ==> r == Some(BadTempo)
    ensures p.bpm > 0.0 && Abs(p.barSeconds - 240.0 / p.bpm) > BAR_SECONDS_TOLERANCE ==> r == Some(BarOffTempo)
    ensures p.bpm > 0.0 && Abs(p.barSeconds - 240.0 / p.bpm) <= BAR_SECONDS_TOLERANCE && p.hooks == [] ==>
              r == Some(NoHooks)
    ensures p.bpm > 0.0 && p.hooks != [] && Abs(p.barSeconds - 240.0 / p.bpm) <= BAR_SECONDS_TOLERANCE && r.Some? ==>
              exists i :: 0 <= i < |p.hooks| && r == HookProblem(p, i)
                          && forall j | 0 <= j < i :: HookProblem(p, j) == None
  {
    if p.bpm <= 0.0 {
      return Some(BadTempo);
    }
    if Abs(p.barSeconds - 240.0 / p.bpm) > BAR_SECONDS_TOLERANCE {
      return Some(BarOffTempo);
    }
    if p.hooks == [] {
      return Some(NoHooks);
    }
    for i := 0 to |p.hooks|
      invariant FirstHook(p, 0) == FirstHook(p, i)
      invariant forall j | 0 <= j < i :: HookProblem(p, j) == None
    {
      var problem := HookProblem(p, i);
      if problem.Some? {
        return problem;
      }
    }
    return None;
  }

  /** Bars after the landing hook `i` really uses. */
  function BarsAfter(p: Plan, i: nat): nat
    requires i < |p.hooks|
  {
    p.hooks[i].vocalOver + p.hooks[i].full + NextOver(p, i)
  }

  /** No hook's bars add up past a 32-bit count. */
  predicate Countable(p: Plan) {
    forall i | 0 <= i < |p.hooks| :: BarsAfter(p, i) < U32_SIZE
  }

  lemma WrapExact(a: U32, b: U32, c: U32)
    ensures a + b + c < U32_SIZE ==> WrapAdd(WrapAdd(a, b), c) == a + b + c
  {
  }

  /** An accepted plan's hooks stay within the separated bars exactly when their counts do not wrap. */
  lemma AcceptedUses(p: Plan)
    requires Accepted(p)
    ensures Countable(p) <==> forall i | 0 <= i < |p.hooks| :: BarsAfter(p, i) <= REGION_BARS_AFTER
  {
    forall i | 0 <= i < |p.hooks| && BarsAfter(p, i) < U32_SIZE
      ensures BarsAfter(p, i) <= REGION_BARS_AFTER
    {
      assert HookProblem(p, i) == None;
      WrapExact(p.hooks[i].vocalOver, p.hooks[i].full, NextOver(p, i));
    }
  }

  // ---- the layers ------------------------------------------------------------

  datatype Stem = Vocals | NoVocals

  /** An excerpt of a hook's stem: `bars` of its own bars from `fromBar` after the landing, at chapter bar `atBar`. */
  datatype Layer = Layer(hook: nat, stem: Stem, fromBar: nat, bars: nat, atBar: nat) {
    function EndBar(): nat {
      fromBar + bars
    }

    predicate Covers(bar: int) {
      atBar <= bar < atBar + bars
    }
  }

  /** Hook `i`'s layers when it enters at chapter bar `at`. */
  function HookLayers(p: Plan, i: nat, at: U32): seq<Layer>
    requires i < |p.hooks|
  {
    var h := p.hooks[i];
    if i == 0 then [Layer(0, Vocals, 0, h.full, at), Layer(0, NoVocals, 0, h.full, at)]
    else
      var prev := p.hooks[i - 1];
      (if h.vocalOver > 0 then
         [Layer(i - 1, NoVocals, WrapAdd(prev.vocalOver, prev.full), h.vocalOver, at),
          Layer(i, Vocals, 0, h.vocalOver, at)]
       else [])
      + [Layer(i, Vocals, h.vocalOver, h.full, WrapAdd(at, h.vocalOver)),
         Layer(i, NoVocals, h.vocalOver, h.full, WrapAdd(at, h.vocalOver))]
  }

  function HookBars(p: Plan, i: nat): nat
    requires i < |p.hooks|
  {
    p.hooks[i].vocalOver + p.hooks[i].full
  }

  /** The chapter bar hook `i` enters at; the whole chapter's bars past the last. */
  function EntersAt(p: Plan, i: nat): nat
    requires i <= |p.hooks|
  {
    if i == 0 then 0 else EntersAt(p, i - 1) + HookBars(p, i - 1)
  }

  function TotalBars(p: Plan): nat {
    EntersAt(p, |p.hooks|)
  }

  /** The same as the 32-bit running count has it. */
  function OutBar(p: Plan, i: nat): U32
    requires i <= |p.hooks|
  {
    EntersAt(p, i) % U32_SIZE
  }

  /** Every hook's full bars start at a bar a 32-bit count can name. */
  predicate StartsFit(p: Plan) {
    forall i | 0 <= i < |p.hooks| :: EntersAt(p, i) + p.hooks[i].vocalOver < U32_SIZE
  }

  lemma {:induction false} EntersInside(p: Plan, i: nat, n: nat)
    requires i <= n <= |p.hooks|
    ensures EntersAt(p, i) <= EntersAt(p, n)
    decreases n - i
  {
    if i < n {
      EntersInside(p, i, n - 1);
    }
  }

  lemma OutBarExact(p: Plan, i: nat)
    requires i <= |p.hooks| && EntersAt(p, i) < U32_SIZE
    ensures OutBar(p, i) == EntersAt(p, i)
  {
    hide EntersAt;
  }

  function LayersUpTo(p: Plan, n: nat): seq<Layer>
    requires n <= |p.hooks|
  {
    if n == 0 then [] else LayersUpTo(p, n - 1) + HookLayers(p, n - 1, OutBar(p, n - 1))
  }

  function AllLayers(p: Plan): seq<Layer> {
    LayersUpTo(p, |p.hooks|)
  }

  method Layers(p: Plan) returns (layers: seq<Layer>, totalBars: U32)
    ensures layers == AllLayers(p) && totalBars == OutBar(p, |p.hooks|)
  {
    hide HookLayers, WrapAdd, OutBar;
    layers := [];
    var outBar: U32 := 0;
    OutBarSteps(p, 0);
    for i := 0 to |p.hooks|
      invariant layers == LayersUpTo(p, i) && outBar == OutBar(p, i)
    {
      var h := p.hooks[i];
      var more := LayHook(p, i, outBar);
      layers := layers + more;
      OutBarSteps(p, i);
      outBar := WrapAdd(outBar, WrapAdd(h.vocalOver, h.full));
    }
    totalBars := outBar;
  }

  lemma WrapCounts(at: nat, a: U32, b: U32)
    ensures WrapAdd(at % U32_SIZE, WrapAdd(a, b)) == (at + (a + b)) % U32_SIZE
  {
  }

  /** How the 32-bit running count goes on from hook `i`. */
  lemma OutBarSteps(p: Plan, i: nat)
    requires i <= |p.hooks|
    ensures OutBar(p, 0) == 0
    ensures i < |p.hooks| ==> OutBar(p, i + 1) == WrapAdd(OutBar(p, i), WrapAdd(p.hooks[i].vocalOver, p.hooks[i].full))
  {
    if i < |p.hooks| {
      WrapCounts(EntersAt(p, i), p.hooks[i].vocalOver, p.hooks[i].full);
    }
  }

  method LayHook(p: Plan, i: nat, outBar: U32) returns (layers: seq<Layer>)
    requires i < |p.hooks|
    ensures layers == HookLayers(p, i, outBar)
  {
    var h := p.hooks[i];
    if i == 0 {
      return [Layer(i, Vocals, 0, h.full, outBar), Layer(i, NoVocals, 0, h.full, outBar)];
    }
    layers := [];
    if h.vocalOver > 0 {
      var prev := p.hooks[i - 1];
      layers := layers + [Layer(i - 1, NoVocals, WrapAdd(prev.vocalOver, prev.full), h.vocalOver, outBar)];
      layers := layers + [Layer(i, Vocals, 0, h.vocalOver, outBar)];
    }
    var fullAt := WrapAdd(outBar, h.vocalOver);
    layers := layers + [Layer(i, Vocals, h.vocalOver, h.full, fullAt)];
    layers := layers + [Layer(i, NoVocals, h.vocalOver, h.full, fullAt)];
  }

  // ---- one of each at every bar ----------------------------------------------

  function CountAt(layers: seq<Layer>, stem: Stem, bar: int): nat {
    if layers == [] then 0
    else
      var last := layers[|layers| - 1];
      CountAt(layers[..|layers| - 1], stem, bar) + if last.stem == stem && last.Covers(bar) then 1 else 0
  }

  lemma {:induction false} CountConcat(a: seq<Layer>, b: seq<Layer>, stem: Stem, bar: int)
    ensures CountAt(a + b, stem, bar) == CountAt(a, stem, bar) + CountAt(b, stem, bar)
  {
    if b == [] {
      assert a + b == a;
    } else {
      assert (a + b)[..|a + b| - 1] == a + b[..|b| - 1];
      CountConcat(a, b[..|b| - 1], stem, bar);
    }
  }

  /** Whether a layer plays `stem` at `bar`, as a count. */
  function Plays(l: Layer, stem: Stem, bar: int): nat {
    if l.stem == stem && l.Covers(bar) then 1 else 0
  }

  lemma CountPair(x: Layer, y: Layer, stem: Stem, bar: int)
    ensures CountAt([x, y], stem, bar) == Plays(x, stem, bar) + Plays(y, stem, bar)
  {
    assert [x, y][..1] == [x] && [x][..0] == [];
    assert CountAt([x], stem, bar) == Plays(x, stem, bar);
  }

  /** A vocal and an instrumental over the same bars play one of each there. */
  lemma PairCount(x: Layer, y: Layer, stem: Stem, bar: int)
    requires x.stem == Vocals && y.stem == NoVocals && x.atBar == y.atBar && x.bars == y.bars
    ensures CountAt([x, y], stem, bar) == if x.atBar <= bar < x.atBar + x.bars then 1 else 0
    ensures CountAt([y, x], stem, bar) == if x.atBar <= bar < x.atBar + x.bars then 1 else 0
  {
    hide CountAt;
    CountPair(x, y, stem, bar);
    CountPair(y, x, stem, bar);
  }

  /** A hook's layers: under the previous instrumental its vocal, then its full bars. */
  lemma HookParts(p: Plan, i: nat, at: U32)
    requires 0 < i < |p.hooks| && at + p.hooks[i].vocalOver < U32_SIZE
    ensures var h, from := p.hooks[i], WrapAdd(p.hooks[i - 1].vocalOver, p.hooks[i - 1].full);
      HookLayers(p, i, at)
      == (if h.vocalOver > 0 then [Layer(i - 1, NoVocals, from, h.vocalOver, at), Layer(i, Vocals, 0, h.vocalOver, at)]
          else [])
         + [Layer(i, Vocals, h.vocalOver, h.full, at + h.vocalOver),
            Layer(i, NoVocals, h.vocalOver, h.full, at + h.vocalOver)]
  {
  }

  lemma HookCount(p: Plan, i: nat, at: U32, stem: Stem, bar: int)
    requires i < |p.hooks| && at + p.hooks[i].vocalOver < U32_SIZE && (i == 0 ==> p.hooks[0].vocalOver == 0)
    ensures CountAt(HookLayers(p, i, at), stem, bar) == if at <= bar < at + HookBars(p, i) then 1 else 0
  {
    hide CountAt, WrapAdd;
    var h := p.hooks[i];
    if i == 0 {
      PairCount(Layer(i, Vocals, 0, h.full, at), Layer(i, NoVocals, 0, h.full, at), stem, bar);
    } else {
      hide HookLayers;
      HookParts(p, i, at);
      var full := HookLayers(p, i, at)[if h.vocalOver > 0 then 2 else 0..];
      PairCount(full[0], full[1], stem, bar);
      if h.vocalOver > 0 {
        var over := HookLayers(p, i, at)[..2];
        PairCount(over[1], over[0], stem, bar);
        CountConcat(over, full, stem, bar);
      }
    }
  }

  lemma CountNone(stem: Stem, bar: int)
    ensures CountAt([], stem, bar) == 0
  {
  }

  lemma LayersStep(p: Plan, n: nat)
    requires n < |p.hooks|
    ensures LayersUpTo(p, n + 1) == LayersUpTo(p, n) + HookLayers(p, n, OutBar(p, n))
  {
  }

  /** While every start can be counted, the layers so far play one of each at every bar so far. */
  lemma {:induction false} CountUpTo(p: Plan, n: nat, stem: Stem, bar: int)
    requires n <= |p.hooks| && (p.hooks != [] ==> p.hooks[0].vocalOver == 0)
    requires forall i | 0 <= i < n :: EntersAt(p, i) + p.hooks[i].vocalOver < U32_SIZE
    ensures CountAt(LayersUpTo(p, n), stem, bar) == if 0 <= bar < EntersAt(p, n) then 1 else 0
  {
    hide HookLayers, CountAt, LayersUpTo, OutBar;
    if n == 0 {
      NoneYet(p, stem, bar);
    } else {
      var m := n - 1;
      assert EntersAt(p, m) + p.hooks[m].vocalOver < U32_SIZE;
      OutBarExact(p, m);
      CountUpTo(p, m, stem, bar);
      HookCount(p, m, OutBar(p, m), stem, bar);
      LayersStep(p, m);
      CountConcat(LayersUpTo(p, m), HookLayers(p, m, OutBar(p, m)), stem, bar);
    }
  }

  lemma NoneYet(p: Plan, stem: Stem, bar: int)
    ensures CountAt(LayersUpTo(p, 0), stem, bar) == 0
  {
    CountNone(stem, bar);
  }

  /** One of each stem at every bar of the chapter, and none past its end. */
  ghost predicate OneOfEach(p: Plan) {
    forall stem, bar: int :: CountAt(AllLayers(p), stem, bar) == if 0 <= bar < TotalBars(p) then 1 else 0
  }

  lemma {:induction false} CountsGrow(p: Plan, m: nat, n: nat, stem: Stem, bar: int)
    requires m <= n <= |p.hooks|
    ensures CountAt(LayersUpTo(p, m), stem, bar) <= CountAt(LayersUpTo(p, n), stem, bar)
    decreases n - m
  {
    hide HookLayers, CountAt, LayersUpTo, OutBar;
    if m < n {
      CountsGrow(p, m, n - 1, stem, bar);
      LayersStep(p, n - 1);
      CountConcat(LayersUpTo(p, n - 1), HookLayers(p, n - 1, OutBar(p, n - 1)), stem, bar);
    }
  }

  /** A hook's full bars always sound where its 32-bit start says. */
  lemma FullBarsSound(p: Plan, i: nat, at: U32)
    requires 0 < i < |p.hooks| && p.hooks[i].full > 0
    ensures CountAt(HookLayers(p, i, at), Vocals, WrapAdd(at, p.hooks[i].vocalOver)) >= 1
  {
    var layers, h := HookLayers(p, i, at), p.hooks[i];
    var n, start := |layers|, WrapAdd(at, h.vocalOver);
    CountPair(layers[n - 2], layers[n - 1], Vocals, start);
    CountConcat(layers[..n - 2], [layers[n - 2], layers[n - 1]], Vocals, start);
    assert layers == layers[..n - 2] + [layers[n - 2], layers[n - 1]];
    assert layers[n - 2] == Layer(i, Vocals, h.vocalOver, h.full, start);
  }

  /** A start past the 32-bit counts comes round to a bar another vocal already has. */
  lemma WrappedBefore(at: nat, over: U32)
    requires at + over >= U32_SIZE
    ensures WrapAdd(at % U32_SIZE, over) < at
  {
  }

  lemma WrapsBefore(p: Plan, i: nat)
    requires i < |p.hooks| && EntersAt(p, i) + p.hooks[i].vocalOver >= U32_SIZE
    ensures WrapAdd(OutBar(p, i), p.hooks[i].vocalOver) < EntersAt(p, i)
  {
    hide EntersAt;
    WrappedBefore(EntersAt(p, i), p.hooks[i].vocalOver);
  }

  lemma HasFullBars(p: Plan, i: nat)
    requires Accepted(p) && i < |p.hooks|
    ensures p.hooks[i].full > 0 && p.hooks[0].vocalOver == 0
  {
    assert HookProblem(p, 0) == None && HookProblem(p, i) == None;
  }

  lemma FirstWrapDoubles(p: Plan, i: nat)
    requires Accepted(p) && i < |p.hooks| && EntersAt(p, i) + p.hooks[i].vocalOver >= U32_SIZE
    requires forall j | 0 <= j < i :: EntersAt(p, j) + p.hooks[j].vocalOver < U32_SIZE
    ensures !OneOfEach(p)
  {
    HasFullBars(p, i);
    hide HookProblem, HookLayers, CountAt, LayersUpTo, AllLayers, OutBar, WrapAdd, Accepted, OneOfEach;
    assert i > 0 by { NotTheFirst(p, i); }
    WrapsBefore(p, i);
    EntersInside(p, i, |p.hooks|);
    hide EntersAt;
    var bar := WrapAdd(OutBar(p, i), p.hooks[i].vocalOver);
    CountUpTo(p, i, Vocals, bar);
    FullBarsSound(p, i, OutBar(p, i));
    LayersStep(p, i);
    CountConcat(LayersUpTo(p, i), HookLayers(p, i, OutBar(p, i)), Vocals, bar);
    CountsGrow(p, i + 1, |p.hooks|, Vocals, bar);
    TooManyVocals(p, bar);
  }

  lemma NotTheFirst(p: Plan, i: nat)
    requires i < |p.hooks| && p.hooks[0].vocalOver == 0 && EntersAt(p, i) + p.hooks[i].vocalOver >= U32_SIZE
    ensures i > 0
  {
  }

  lemma TooManyVocals(p: Plan, bar: int)
    requires CountAt(LayersUpTo(p, |p.hooks|), Vocals, bar) >= 2
    ensures !OneOfEach(p)
  {
    hide CountAt, LayersUpTo, TotalBars;
    assert CountAt(AllLayers(p), Vocals, bar) >= 2;
  }

  /** In an accepted chapter exactly one vocal and exactly one instrumental play at every bar, and none past its
      end, if and only if every hook's full bars start at a bar a 32-bit count can name. */
  lemma OneOfEachIffStartsFit(p: Plan)
    requires Accepted(p)
    ensures OneOfEach(p) <==> StartsFit(p)
  {
    assert HookProblem(p, 0) == None;
    hide HookProblem, HookLayers, CountAt, LayersUpTo, HookBars;
    if StartsFit(p) {
      forall stem, bar: int
        ensures CountAt(AllLayers(p), stem, bar) == if 0 <= bar < TotalBars(p) then 1 else 0
      {
        CountUpTo(p, |p.hooks|, stem, bar);
      }
    } else {
      var i := FirstUncounted(p, 0);
      FirstWrapDoubles(p, i);
    }
  }

  lemma FirstUncounted(p: Plan, from: nat) returns (i: nat)
    requires !StartsFit(p) && from <= |p.hooks|
    requires forall j | 0 <= j < from :: EntersAt(p, j) + p.hooks[j].vocalOver < U32_SIZE
    ensures i < |p.hooks| && EntersAt(p, i) + p.hooks[i].vocalOver >= U32_SIZE
    ensures forall j | 0 <= j < i :: EntersAt(p, j) + p.hooks[j].vocalOver < U32_SIZE
    decreases |p.hooks| - from
  {
    hide EntersAt;
    if EntersAt(p, from) + p.hooks[from].vocalOver >= U32_SIZE {
      i := from;
    } else {
      i := FirstUncounted(p, from + 1);
    }
  }

  const HUGE_FULL: U32 := 0xFFFF_FFFF

  /** Three hooks, the second as long as its counts can say. */
  const ROUND_AGAIN := Plan(120.0, 2.0, [Hook("a", 20.0, 120.0, 0, 1), Hook("b", 20.0, 120.0, 1, HUGE_FULL),
                                         Hook("c", 20.0, 120.0, 0, 1)])

  /** The condition is needed: this plan is accepted, is counted as two bars long, and in the second of them the
      last song's vocal comes in over another's. */
  lemma TwoVocalsAtOnce()
    ensures Accepted(ROUND_AGAIN) && !StartsFit(ROUND_AGAIN)
    ensures OutBar(ROUND_AGAIN, 3) == 2 && CountAt(AllLayers(ROUND_AGAIN), Vocals, 1) == 2
  {
    var p := ROUND_AGAIN;
    assert "a" != "b" && "a" != "c" && "b" != "c";
    assert HookProblem(p, 0) == None;
    assert HookProblem(p, 1) == None;
    assert HookProblem(p, 2) == None;
    hide HookProblem;
    assert EntersAt(p, 0) == 0;
    assert EntersAt(p, 1) == 1;
    assert EntersAt(p, 2) == 1 + U32_SIZE;
    assert EntersAt(p, 3) == 2 + U32_SIZE;
    CountUpTo(p, 2, Vocals, 1);
    LayersStep(p, 2);
    var last := HookLayers(p, 2, OutBar(p, 2));
    assert last == [Layer(2, Vocals, 0, 1, 1), Layer(2, NoVocals, 0, 1, 1)];
    CountPair(last[0], last[1], Vocals, 1);
    CountConcat(LayersUpTo(p, 2), last, Vocals, 1);
  }

  // ---- one stem, one pass ----------------------------------------------------

  function OfStem(layers: seq<Layer>, hook: nat, stem: Stem): seq<Layer> {
    if layers == [] then []
    else
      var last := layers[|layers| - 1];
      OfStem(layers[..|layers| - 1], hook, stem) + if last.hook == hook && last.stem == stem then [last] else []
  }

  lemma {:induction false} OfStemConcat(a: seq<Layer>, b: seq<Layer>, hook: nat, stem: Stem)
    ensures OfStem(a + b, hook, stem) == OfStem(a, hook, stem) + OfStem(b, hook, stem)
  {
    if b == [] {
      assert a + b == a;
    } else {
      assert (a + b)[..|a + b| - 1] == a + b[..|b| - 1];
      OfStemConcat(a, b[..|b| - 1], hook, stem);
    }
  }

  /** What a hook's stem plays, in order: its vocal-over then its full bars, or its full bars and then the bars
      it carries on under the next vocal. */
  function StemLayers(p: Plan, i: nat, stem: Stem): seq<Layer>
    requires i < |p.hooks|
  {
    Entered(p, i, stem) + if stem == NoVocals then Carried(p, i) else []
  }

  /** What it plays while its own hook is on. */
  function Entered(p: Plan, i: nat, stem: Stem): seq<Layer>
    requires i < |p.hooks|
  {
    var h, at := p.hooks[i], OutBar(p, i);
    if i == 0 then [Layer(0, stem, 0, h.full, at)]
    else (if stem == Vocals && h.vocalOver > 0 then [Layer(i, Vocals, 0, h.vocalOver, at)] else [])
         + [Layer(i, stem, h.vocalOver, h.full, WrapAdd(at, h.vocalOver))]
  }

  function Carried(p: Plan, i: nat): seq<Layer>
    requires i < |p.hooks|
  {
    if i + 1 < |p.hooks| && p.hooks[i + 1].vocalOver > 0
    then [Layer(i, NoVocals, WrapAdd(p.hooks[i].vocalOver, p.hooks[i].full), p.hooks[i + 1].vocalOver,
                OutBar(p, i + 1))]
    else []
  }

  /** `y` picks the stem up at the very bar where `x` left it, in the file and in the chapter. */
  predicate Follows(x: Layer, y: Layer) {
    y.fromBar == x.EndBar() && y.atBar == x.atBar + x.bars
  }

  ghost predicate OnePass(layers: seq<Layer>) {
    forall j, k | 0 <= j < k < |layers| && k == j + 1 :: Follows(layers[j], layers[k])
  }

  lemma HookOfStem(p: Plan, k: nat, i: nat, stem: Stem)
    requires k < |p.hooks| && i < |p.hooks| && p.hooks[0].vocalOver == 0
    ensures OfStem(HookLayers(p, k, OutBar(p, k)), i, stem)
         == if k == i then Entered(p, i, stem)
            else if k == i + 1 && stem == NoVocals then Carried(p, i)
            else []
  {
    var layers := HookLayers(p, k, OutBar(p, k));
    hide OutBar, WrapAdd;
    if k > 0 && p.hooks[k].vocalOver > 0 {
      assert layers == [layers[0], layers[1]] + [layers[2], layers[3]];
      OfStemConcat([layers[0], layers[1]], [layers[2], layers[3]], i, stem);
      StemPair(layers[0], layers[1], i, stem);
      StemPair(layers[2], layers[3], i, stem);
    } else {
      assert layers == [layers[0], layers[1]];
      StemPair(layers[0], layers[1], i, stem);
    }
  }

  lemma StemPair(x: Layer, y: Layer, hook: nat, stem: Stem)
    ensures OfStem([x, y], hook, stem) == (if x.hook == hook && x.stem == stem then [x] else [])
                                        + (if y.hook == hook && y.stem == stem then [y] else [])
  {
    assert [x, y][..1] == [x] && [x][..0] == [];
    assert OfStem([x], hook, stem) == if x.hook == hook && x.stem == stem then [x] else [];
  }

  lemma OneMoreHook(earlier: seq<Layer>, hook: seq<Layer>, k: nat, i: nat, stem: Stem, entered: seq<Layer>,
                    carried: seq<Layer>)
    requires OfStem(earlier, i, stem)
          == if k <= i then [] else if k == i + 1 && stem == NoVocals then entered
             else entered + if stem == NoVocals then carried else []
    requires OfStem(hook, i, stem) == if k == i then entered else if k == i + 1 && stem == NoVocals then carried else []
    ensures OfStem(earlier + hook, i, stem)
         == if k < i then [] else if k == i && stem == NoVocals then entered
            else entered + if stem == NoVocals then carried else []
  {
    hide OfStem;
    OfStemConcat(earlier, hook, i, stem);
    assert [] + entered == entered && entered + [] == entered && entered + carried + [] == entered + carried;
  }

  lemma {:induction false} StemsUpTo(p: Plan, n: nat, i: nat, stem: Stem)
    requires n <= |p.hooks| && i < |p.hooks| && p.hooks[0].vocalOver == 0
    ensures OfStem(LayersUpTo(p, n), i, stem)
         == if n <= i then []
            else if n == i + 1 && stem == NoVocals then Entered(p, i, stem)
            else StemLayers(p, i, stem)
  {
    hide OutBar, HookLayers, Carried, Entered, OfStem;
    if n == 0 {
      NoLayers(i, stem);
    } else {
      StemsUpTo(p, n - 1, i, stem);
      HookOfStem(p, n - 1, i, stem);
      OneMoreHook(LayersUpTo(p, n - 1), HookLayers(p, n - 1, OutBar(p, n - 1)), n - 1, i, stem, Entered(p, i, stem),
                  Carried(p, i));
    }
  }

  lemma NoLayers(i: nat, stem: Stem)
    ensures OfStem([], i, stem) == []
  {
  }

  lemma NothingCarried(p: Plan, i: nat)
    requires i + 1 == |p.hooks|
    ensures Carried(p, i) == []
  {
  }

  lemma EntireStem(p: Plan, i: nat, stem: Stem)
    requires i < |p.hooks| && p.hooks[0].vocalOver == 0
    ensures OfStem(AllLayers(p), i, stem) == StemLayers(p, i, stem)
  {
    hide Entered, LayersUpTo;
    StemsUpTo(p, |p.hooks|, i, stem);
    if i + 1 == |p.hooks| {
      NothingCarried(p, i);
      assert Entered(p, i, stem) + [] == Entered(p, i, stem);
    }
  }

  lemma SmallSum(a: U32, b: U32)
    ensures WrapAdd(a, b) == a + b <==> a + b < U32_SIZE
  {
  }

  /** The 32-bit counts of hook `i` do not wrap inside what its stem plays: between its vocal-over and its full
      bars, or between its full bars and those it carries on under the next vocal. */
  predicate StemCounts(p: Plan, i: nat, stem: Stem)
    requires i < |p.hooks|
  {
    var h := p.hooks[i];
    match stem
    case Vocals => h.vocalOver > 0 ==> OutBar(p, i) + h.vocalOver < U32_SIZE
    case NoVocals =>
      NextOver(p, i) > 0 ==>
        h.vocalOver + h.full < U32_SIZE && WrapAdd(OutBar(p, i), h.vocalOver) + h.full < U32_SIZE
  }

  lemma VocalsOnePassIff(p: Plan, i: nat)
    requires i < |p.hooks| && p.hooks[0].vocalOver == 0
    ensures OnePass(StemLayers(p, i, Vocals)) <==> StemCounts(p, i, Vocals)
  {
    SmallSum(OutBar(p, i), p.hooks[i].vocalOver);
    hide OutBar, WrapAdd;
    var layers := StemLayers(p, i, Vocals);
    if |layers| == 2 {
      assert OnePass(layers) <==> Follows(layers[0], layers[1]);
    } else {
      assert |layers| == 1;
    }
  }

  lemma NoVocalsOnePassIff(p: Plan, i: nat)
    requires i < |p.hooks| && p.hooks[0].vocalOver == 0
    ensures OnePass(StemLayers(p, i, NoVocals)) <==> StemCounts(p, i, NoVocals)
  {
    var h := p.hooks[i];
    SmallSum(h.vocalOver, h.full);
    var layers := StemLayers(p, i, NoVocals);
    if NextOver(p, i) > 0 {
      CarriedFrom(p, i);
      SmallSum(WrapAdd(OutBar(p, i), h.vocalOver), h.full);
      OutBarIsCounted(p, i);
      hide OutBar, WrapAdd;
      assert layers[0].atBar == if i == 0 then OutBar(p, i) else WrapAdd(OutBar(p, i), h.vocalOver);
      assert OnePass(layers) <==> Follows(layers[0], layers[1]);
    } else {
      assert |layers| == 1;
    }
  }

  lemma CarriedFrom(p: Plan, i: nat)
    requires i < |p.hooks| && NextOver(p, i) > 0
    ensures OutBar(p, i + 1) == WrapAdd(WrapAdd(OutBar(p, i), p.hooks[i].vocalOver), p.hooks[i].full)
  {
    var h := p.hooks[i];
    WrapTwice(EntersAt(p, i), h.vocalOver, h.full);
    assert EntersAt(p, i + 1) == EntersAt(p, i) + HookBars(p, i);
  }

  lemma WrapTwice(at: nat, a: U32, b: U32)
    ensures WrapAdd(WrapAdd(at % U32_SIZE, a), b) == (at + (a + b)) % U32_SIZE
  {
  }

  lemma OutBarIsCounted(p: Plan, i: nat)
    requires i < |p.hooks| && p.hooks[0].vocalOver == 0
    ensures i == 0 ==> OutBar(p, i) == 0 == WrapAdd(OutBar(p, i), p.hooks[i].vocalOver)
  {
  }

  /** Each hook's vocal is one unbroken read, and so is its instrumental, which carries on under the next vocal from
      the very bar where the song's own bars ended, exactly when the 32-bit counts do not wrap inside it. */
  lemma StemReadOnceIff(p: Plan, i: nat, stem: Stem)
    requires Accepted(p) && i < |p.hooks|
    ensures OfStem(AllLayers(p), i, stem) == StemLayers(p, i, stem)
    ensures OnePass(OfStem(AllLayers(p), i, stem)) <==> StemCounts(p, i, stem)
  {
    assert HookProblem(p, 0) == None;
    hide HookProblem, StemLayers, OnePass, StemCounts, AllLayers;
    EntireStem(p, i, stem);
    match stem {
      case Vocals => VocalsOnePassIff(p, i);
      case NoVocals => NoVocalsOnePassIff(p, i);
    }
  }

  /** When every start can be counted, so can every stem. */
  lemma StartsFitCounts(p: Plan, i: nat, stem: Stem)
    requires StartsFit(p) && i < |p.hooks|
    ensures StemCounts(p, i, stem)
  {
    assert EntersAt(p, i) + p.hooks[i].vocalOver < U32_SIZE;
    if i + 1 < |p.hooks| {
      assert EntersAt(p, i + 1) == EntersAt(p, i) + HookBars(p, i);
      assert EntersAt(p, i + 1) + p.hooks[i + 1].vocalOver < U32_SIZE;
    }
    hide OutBar, WrapAdd, EntersAt, StartsFit;
    OutBarExact(p, i);
    SmallSum(OutBar(p, i), p.hooks[i].vocalOver);
  }

  // ---- inside the separated region -------------------------------------------

  /** Where a layer starts and ends in its stem file, which opens four bars before the landing. */
  function NativeStart(p: Plan, l: Layer): real
    requires l.hook < |p.hooks| && p.hooks[l.hook].nativeBpm > 0.0
  {
    (REGION_BARS_BEFORE + l.fromBar) as real * p.hooks[l.hook].NativeBarS()
  }

  function NativeLen(p: Plan, l: Layer): real
    requires l.hook < |p.hooks| && p.hooks[l.hook].nativeBpm > 0.0
  {
    l.bars as real * p.hooks[l.hook].NativeBarS()
  }

  /** Seconds the layer lasts once stretched to the chapter's tempo. */
  function OutLen(p: Plan, l: Layer): real
    requires l.hook < |p.hooks| && p.hooks[l.hook].nativeBpm > 0.0 && p.bpm > 0.0
  {
    QuotientPositive(p.bpm, p.hooks[l.hook].nativeBpm);
    NativeLen(p, l) / (p.bpm / p.hooks[l.hook].nativeBpm)
  }

  lemma Stretched(n: real, native: real, bpm: real)
    requires native > 0.0 && bpm > 0.0
    ensures bpm / native > 0.0 && n * (240.0 / native) / (bpm / native) == n * (240.0 / bpm)
  {
    QuotientPositive(bpm, native);
    var tempo, bar := bpm / native, 240.0 / native;
    assert tempo * native == bpm && bar * native == 240.0;
    assert 240.0 / bpm * tempo == bar by {
      assert 240.0 / bpm * bpm == 240.0;
      Cancels(240.0 / bpm * tempo, bar, native);
    }
    assert n * (240.0 / bpm) * tempo == n * bar;
    Cancels(n * bar / tempo, n * (240.0 / bpm), tempo);
  }

  /** However the song's own tempo stretches, a layer of an accepted plan keeps to the chapter's bars within the
      tolerance for every bar it lasts. */
  lemma KeepsToTheBars(p: Plan, l: Layer)
    requires Accepted(p) && l.hook < |p.hooks|
    ensures p.hooks[l.hook].nativeBpm > 0.0
    ensures Abs(l.bars as real * p.barSeconds - OutLen(p, l)) <= l.bars as real * BAR_SECONDS_TOLERANCE
  {
    NativeTempoPositive(p, l.hook);
    hide HookProblem;
    var n, exact := l.bars as real, 240.0 / p.bpm;
    Stretched(n, p.hooks[l.hook].nativeBpm, p.bpm);
    WithinEach(n, p.barSeconds - exact);
    SplitProduct(n, p.barSeconds, exact);
  }

  lemma NativeTempoPositive(p: Plan, i: nat)
    requires Accepted(p) && i < |p.hooks|
    ensures p.hooks[i].nativeBpm > 0.0
  {
    assert HookProblem(p, i) == None;
  }

  lemma SplitProduct(n: real, x: real, y: real)
    ensures n * (x - y) == n * x - n * y
  {
  }

  lemma WithinEach(n: real, off: real)
    requires n >= 0.0 && Abs(off) <= BAR_SECONDS_TOLERANCE
    ensures Abs(n * off) <= n * BAR_SECONDS_TOLERANCE
  {
    assert n * (BAR_SECONDS_TOLERANCE - off) >= 0.0 && n * (BAR_SECONDS_TOLERANCE + off) >= 0.0;
  }

  /** Seconds of the song that are separated. */
  function RegionLen(h: Hook): real
    requires h.nativeBpm > 0.0
  {
    (REGION_BARS_BEFORE + REGION_BARS_AFTER) as real * h.NativeBarS()
  }

  ghost predicate InRegion(p: Plan, l: Layer) {
    && l.hook < |p.hooks| && p.hooks[l.hook].nativeBpm > 0.0
    && 0.0 <= NativeStart(p, l) && NativeStart(p, l) + NativeLen(p, l) <= RegionLen(p.hooks[l.hook])
  }

  lemma InRegionIff(p: Plan, l: Layer)
    requires l.hook < |p.hooks| && p.hooks[l.hook].nativeBpm > 0.0
    ensures InRegion(p, l) <==> l.EndBar() <= REGION_BARS_AFTER
  {
    var bar := p.hooks[l.hook].NativeBarS();
    var slack := REGION_BARS_AFTER - l.EndBar();
    Scaled((REGION_BARS_BEFORE + l.fromBar) as real, bar);
    Scaled(slack as real, bar);
    assert RegionLen(p.hooks[l.hook]) == NativeStart(p, l) + NativeLen(p, l) + slack as real * bar;
  }

  lemma Scaled(x: real, bar: real)
    requires bar > 0.0
    ensures x >= 0.0 <==> x * bar >= 0.0
  {
  }

  ghost predicate EndsInRegion(layers: seq<Layer>) {
    forall l <- layers :: l.EndBar() <= REGION_BARS_AFTER
  }

  lemma HookInRegion(p: Plan, i: nat, at: U32)
    requires i < |p.hooks| && forall j | 0 <= j < |p.hooks| :: BarsAfter(p, j) <= REGION_BARS_AFTER
    ensures EndsInRegion(HookLayers(p, i, at))
  {
    assert BarsAfter(p, i) <= REGION_BARS_AFTER;
    if i > 0 {
      assert BarsAfter(p, i - 1) <= REGION_BARS_AFTER;
      WrapExact(p.hooks[i - 1].vocalOver, p.hooks[i - 1].full, 0);
    }
  }

  lemma {:induction false} UpToInRegion(p: Plan, n: nat)
    requires n <= |p.hooks| && forall j | 0 <= j < |p.hooks| :: BarsAfter(p, j) <= REGION_BARS_AFTER
    ensures EndsInRegion(LayersUpTo(p, n))
  {
    if n > 0 {
      UpToInRegion(p, n - 1);
      HookInRegion(p, n - 1, OutBar(p, n - 1));
    }
  }

  /** A stem's last layer ends at the last bar the hook uses. */
  lemma LastLayerEnds(p: Plan, i: nat)
    requires i < |p.hooks| && p.hooks[0].vocalOver == 0
    requires EndsInRegion(StemLayers(p, i, NoVocals))
    ensures BarsAfter(p, i) <= REGION_BARS_AFTER
  {
    var own := Entered(p, i, NoVocals);
    assert own[0] in StemLayers(p, i, NoVocals);
    WrapExact(p.hooks[i].vocalOver, p.hooks[i].full, 0);
    if NextOver(p, i) > 0 {
      assert Carried(p, i)[0] in StemLayers(p, i, NoVocals);
    }
  }

  lemma {:induction false} OfStemMembers(layers: seq<Layer>, hook: nat, stem: Stem)
    ensures forall l <- OfStem(layers, hook, stem) :: l in layers
  {
    if layers != [] {
      OfStemMembers(layers[..|layers| - 1], hook, stem);
    }
  }

  /** Every layer reads inside the separated 22 bars exactly when no hook's bars wrap a 32-bit count: that is the
      one way an accepted plan can read past its stems. */
  lemma InRegionIffCountable(p: Plan)
    requires Accepted(p)
    ensures EndsInRegion(AllLayers(p)) <==> Countable(p)
  {
    AcceptedUses(p);
    assert HookProblem(p, 0) == None;
    assert p.hooks[0].vocalOver == 0;
    hide HookProblem, LayersUpTo, StemLayers, EndsInRegion, BarsAfter;
    if Countable(p) {
      UpToInRegion(p, |p.hooks|);
    }
    if EndsInRegion(AllLayers(p)) {
      forall i | 0 <= i < |p.hooks|
        ensures BarsAfter(p, i) <= REGION_BARS_AFTER
      {
        EntireStem(p, i, NoVocals);
        OfStemMembers(AllLayers(p), i, NoVocals);
        PartEndsInRegion(AllLayers(p), StemLayers(p, i, NoVocals));
        LastLayerEnds(p, i);
      }
    }
  }

  lemma PartEndsInRegion(layers: seq<Layer>, part: seq<Layer>)
    requires EndsInRegion(layers) && forall l <- part :: l in layers
    ensures EndsInRegion(part)
  {
  }

  /** Two hooks whose counts wrap to nothing. */
  const HUGE := Plan(120.0, 2.0, [Hook("a", 20.0, 120.0, 0, 1), Hook("b", 20.0, 120.0, 1, HUGE_FULL)])

  /** It can happen: this plan is accepted, and asks for four thousand million bars of a stem 22 bars long. */
  lemma AcceptedCanWrap()
    ensures Accepted(HUGE) && !Countable(HUGE) && !EndsInRegion(AllLayers(HUGE))
  {
    assert "a" != "b";
    assert HookProblem(HUGE, 0) == None;
    assert HookProblem(HUGE, 1) == None;
    assert BarsAfter(HUGE, 1) == U32_SIZE;
    InRegionIffCountable(HUGE);
  }
}
