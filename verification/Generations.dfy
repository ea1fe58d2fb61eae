/** A whole run of generations, each ordered by its own pass over what had aired by then. */
module Generations {
  import opened Adjacency
  import opened Constrain
  import opened Ordering
  import opened OrderingLaws
  import opened Recent
  import opened SeamLaws

  /** One generation: its list, the limits of each item, and how much of the oldest history the pass was not given. */
  datatype Generation = Generation(items: seq<ItemKeys>, limits: seq<Limits>, cut: nat)

  function Keys(s: seq<Entry>): (r: seq<ItemKeys>)
    ensures |r| == |s| && forall k | 0 <= k < |s| :: r[k] == s[k].keys
  {
    seq(|s|, k requires 0 <= k < |s| => s[k].keys)
  }

  /** The pass over the full history, before any trimming. */
  function FullPass(sofar: seq<Entry>, g: Generation): Pass {
    Pass(g.items, g.limits, Keys(sofar))
  }

  /** The generation is complete, and the history it was given reaches back far enough for every item in it. */
  ghost predicate Fed(sofar: seq<Entry>, g: Generation) {
    |g.items| == |g.limits| && OutOfReach(Keys(sofar), g.cut, Bound(g.limits))
  }

  ghost function GivenPass(sofar: seq<Entry>, g: Generation): Pass
    requires Fed(sofar, g)
  {
    Trimmed(FullPass(sofar, g), g.cut)
  }

  /** What the generation adds to the stream. */
  ghost function Laid(sofar: seq<Entry>, g: Generation): (r: seq<Entry>)
    requires Fed(sofar, g)
  {
    var p := GivenPass(sofar, g);
    OrderedPermutes(p);
    seq(|Ordered(p)|, k requires 0 <= k < |Ordered(p)| => p.PlacedEntry(Ordered(p), k))
  }

  ghost predicate AllFed(gens: seq<Generation>)
    decreases |gens|, 0
  {
    gens == [] || (AllFed(gens[..|gens| - 1]) && Fed(Emitted(gens[..|gens| - 1]), gens[|gens| - 1]))
  }

  /** The whole stream, oldest first. */
  ghost function Emitted(gens: seq<Generation>): seq<Entry>
    requires AllFed(gens)
    decreases |gens|, 1
  {
    if gens == [] then [] else
      var sofar := Emitted(gens[..|gens| - 1]);
      sofar + Laid(sofar, gens[|gens| - 1])
  }

  /** The generation's pass reported nothing unresolved. */
  ghost predicate Clean(sofar: seq<Entry>, g: Generation)
    requires Fed(sofar, g)
  {
    var p := GivenPass(sofar, g);
    p.Indexes(Ordered(p)) && p.Violations(Ordered(p)) == 0
  }

  ghost predicate AllClean(gens: seq<Generation>)
    requires AllFed(gens)
    decreases |gens|
  {
    gens == [] || (AllClean(gens[..|gens| - 1]) && Clean(Emitted(gens[..|gens| - 1]), gens[|gens| - 1]))
  }

  /** `l` forbids at least what `e` does. */
  predicate AtLeastAsStrict(l: Limits, e: Limits) {
    && e.separate <= l.separate
    && match e.noRepeat {
         case Positions(n) => n == 0 || (l.noRepeat.Positions? && n <= l.noRepeat.n)
         case Within(d) => d == 0 || (l.noRepeat.Within? && d <= l.noRepeat.span)
       }
  }

  /** No generation's items carry looser limits than something that aired before them. */
  ghost predicate NeverLoosens(gens: seq<Generation>)
    requires AllFed(gens)
    decreases |gens|
  {
    gens == [] ||
    (NeverLoosens(gens[..|gens| - 1])
     && var sofar, g := Emitted(gens[..|gens| - 1]), gens[|gens| - 1];
        forall i, k | 0 <= i < |sofar| && 0 <= k < |g.limits| :: AtLeastAsStrict(g.limits[k], sofar[i].limits))
  }

  /** Dropping the earlier airing's limits changes nothing when the later one's are at least as strict. */
  lemma StricterDecides(a: ItemKeys, b: ItemKeys, la: Limits, lb: Limits, d: Distance)
    requires AtLeastAsStrict(la, lb) && d.positions > 0
    ensures Conflict(a, b, la, lb, d) == Conflict(a, b, la, NO_LIMITS, d)
  {
  }

  /** The stream as a pass judges it: what aired before carries no limits of its own. */
  ghost function Judged(sofar: seq<Entry>, laid: seq<Entry>): seq<Entry> {
    Aired(Keys(sofar)) + laid
  }

  /** One generation, whatever it changes: its pass is clean exactly when nothing it lays conflicts with
      anything before it under the new items' own limits. */
  lemma CleanPassJudges(sofar: seq<Entry>, g: Generation)
    requires Fed(sofar, g)
    ensures Clean(sofar, g) <==> ClashFree(Judged(sofar, Laid(sofar, g)), |sofar|)
  {
    hide Ordered, ClashFree, ClashingPairs;
    var full, p := FullPass(sofar, g), GivenPass(sofar, g);
    OrderedPermutes(p);
    TrimmedHistorySameOrder(full, g.cut);
    ZeroIsClashFree(full, Ordered(p));
    assert full.Stream(Ordered(p)) == Judged(sofar, Laid(sofar, g));
  }

  /** Judging leaves clashes among the new airings alone, and among the rest drops the earlier limits. */
  lemma JudgedClash(sofar: seq<Entry>, laid: seq<Entry>, i: nat, j: nat)
    requires i < j < |sofar + laid| && |sofar| <= j
    ensures var s := sofar + laid;
      Clash(Judged(sofar, laid), i, j)
      == Conflict(s[j].keys, s[i].keys, s[j].limits, if i < |sofar| then NO_LIMITS else s[i].limits, Apart(s, i, j))
  {
    SpanOfKeys(sofar + laid, Judged(sofar, laid), i, j);
  }

  /** The stream a pass judges, and the stream that airs. */
  lemma JudgedAsAired(sofar: seq<Entry>, laid: seq<Entry>)
    ensures ClashFree(sofar + laid, |sofar|) ==> ClashFree(Judged(sofar, laid), |sofar|)
    ensures (forall i, k | 0 <= i < |sofar| && 0 <= k < |laid| :: AtLeastAsStrict(laid[k].limits, sofar[i].limits)) ==>
      (ClashFree(Judged(sofar, laid), |sofar|) <==> ClashFree(sofar + laid, |sofar|))
  {
    var s, t := sofar + laid, Judged(sofar, laid);
    forall i: nat, j: nat | i < j < |s| && |sofar| <= j
      ensures Clash(t, i, j) ==> Clash(s, i, j)
      ensures (i < |sofar| ==> AtLeastAsStrict(s[j].limits, s[i].limits)) ==> Clash(s, i, j) == Clash(t, i, j)
    {
      JudgedClash(sofar, laid, i, j);
      if i < |sofar| && AtLeastAsStrict(s[j].limits, s[i].limits) {
        StricterDecides(s[j].keys, s[i].keys, s[j].limits, s[i].limits, Apart(s, i, j));
      }
    }
  }

  lemma ClashFreeExtends(s: seq<Entry>, seam: nat)
    requires seam <= |s|
    ensures ClashFree(s, 0) <==> ClashFree(s[..seam], 0) && ClashFree(s, seam)
  {
    forall i: nat, j: nat | i < j < seam
      ensures Clash(s[..seam], i, j) == Clash(s, i, j)
    {
      ClashLocal(s[..seam], s, i, j, 0);
    }
  }

  lemma LaidLimits(sofar: seq<Entry>, g: Generation)
    requires Fed(sofar, g)
    ensures forall k | 0 <= k < |Laid(sofar, g)| :: Laid(sofar, g)[k].limits in g.limits
  {
    OrderedPermutes(GivenPass(sofar, g));
  }

  /** When its items are limited at least as strictly as whatever aired before, a generation's pass is
      clean exactly when nothing it lays clashes with anything before it. */
  lemma CleanPassIsClashFree(sofar: seq<Entry>, g: Generation)
    requires Fed(sofar, g)
    requires forall i, k | 0 <= i < |sofar| && 0 <= k < |g.limits| :: AtLeastAsStrict(g.limits[k], sofar[i].limits)
    ensures Clean(sofar, g) <==> ClashFree(sofar + Laid(sofar, g), |sofar|)
  {
    hide Clean, Laid, ClashFree, AtLeastAsStrict;
    CleanPassJudges(sofar, g);
    LaidLimits(sofar, g);
    JudgedAsAired(sofar, Laid(sofar, g));
  }

  /** Whatever the limits do: a stream in which nothing clashes was laid by passes that were all clean. */
  lemma {:induction false} ClashFreeRunIsClean(gens: seq<Generation>)
    requires AllFed(gens) && ClashFree(Emitted(gens), 0)
    ensures AllClean(gens)
    decreases |gens|
  {
    if gens != [] {
      var earlier, g := gens[..|gens| - 1], gens[|gens| - 1];
      var sofar := Emitted(earlier);
      ClashFreeExtends(Emitted(gens), |sofar|);
      assert Emitted(gens)[..|sofar|] == sofar;
      ClashFreeRunIsClean(earlier);
      JudgedAsAired(sofar, Laid(sofar, g));
      CleanPassJudges(sofar, g);
    }
  }

  /** Safety over whole runs. When limits never loosen from one generation to the next, every pass of the
      run is clean exactly when no two airings anywhere in the stream clash, on either axis, however
      many generations lie between them and however each pass's history was trimmed. */
  lemma {:induction false} CleanRunIsClashFree(gens: seq<Generation>)
    requires AllFed(gens) && NeverLoosens(gens)
    ensures AllClean(gens) <==> ClashFree(Emitted(gens), 0)
    decreases |gens|
  {
    if gens != [] {
      var earlier, g := gens[..|gens| - 1], gens[|gens| - 1];
      CleanRunIsClashFree(earlier);
      var sofar := Emitted(earlier);
      CleanPassIsClashFree(sofar, g);
      ClashFreeExtends(Emitted(gens), |sofar|);
      assert Emitted(gens)[..|sofar|] == sofar;
    }
  }

  /** One setting for every item of every generation, as a channel configures it. */
  ghost predicate Uniform(gens: seq<Generation>, limits: Limits) {
    forall n, k | 0 <= n < |gens| && 0 <= k < |gens[n].limits| :: gens[n].limits[k] == limits
  }

  lemma LaidUniform(sofar: seq<Entry>, g: Generation, limits: Limits)
    requires Fed(sofar, g) && forall k | 0 <= k < |g.limits| :: g.limits[k] == limits
    ensures forall k | 0 <= k < |Laid(sofar, g)| :: Laid(sofar, g)[k].limits == limits
  {
    OrderedPermutes(GivenPass(sofar, g));
  }

  lemma {:induction false} UniformNeverLoosens(gens: seq<Generation>, limits: Limits)
    requires AllFed(gens) && Uniform(gens, limits)
    ensures NeverLoosens(gens)
    ensures forall k | 0 <= k < |Emitted(gens)| :: Emitted(gens)[k].limits == limits
    decreases |gens|
  {
    if gens != [] {
      var earlier, g := gens[..|gens| - 1], gens[|gens| - 1];
      UniformNeverLoosens(earlier, limits);
      LaidUniform(Emitted(earlier), g, limits);
    }
  }

  lemma UniformRunIsClashFree(gens: seq<Generation>, limits: Limits)
    requires AllFed(gens) && Uniform(gens, limits)
    ensures AllClean(gens) <==> ClashFree(Emitted(gens), 0)
  {
    UniformNeverLoosens(gens, limits);
    CleanRunIsClashFree(gens);
  }
}
