/** Which settings keep the promise: a channel whose limits change from generation to generation. */
module Loosening {
  import opened Adjacency
  import opened Constrain
  import opened Deferral
  import opened Ordering
  import opened OrderingLaws
  import opened SeamLaws
  import opened Generations

  /** Every item of generation `n` is limited by `settings[n]`. */
  ghost predicate Follows(gens: seq<Generation>, settings: seq<Limits>) {
    |gens| == |settings|
    && forall n, k | 0 <= n < |gens| && 0 <= k < |gens[n].limits| :: gens[n].limits[k] == settings[n]
  }

  /** No setting is looser, on any axis, than one before it. */
  predicate NeverLooser(settings: seq<Limits>) {
    forall i, j | 0 <= i < j < |settings| :: AtLeastAsStrict(settings[j], settings[i])
  }

  /** Whatever is scheduled under these settings, passes that are all clean lay a stream without a clash. */
  ghost predicate CleanIsEnough(settings: seq<Limits>) {
    forall gens | AllFed(gens) && Follows(gens, settings) && AllClean(gens) :: ClashFree(Emitted(gens), 0)
  }

  // ---- enough ----------------------------------------------------------------

  lemma {:induction false} FollowersNeverLoosen(gens: seq<Generation>, settings: seq<Limits>)
    requires AllFed(gens) && Follows(gens, settings) && NeverLooser(settings)
    ensures NeverLoosens(gens)
    ensures forall k | 0 <= k < |Emitted(gens)| :: Emitted(gens)[k].limits in settings
    decreases |gens|
  {
    if gens != [] {
      var last := |gens| - 1;
      var sofar, g := Emitted(gens[..last]), gens[last];
      FollowersNeverLoosen(gens[..last], settings[..last]);
      LaidLimits(sofar, g);
      forall k | 0 <= k < |g.limits|
        ensures g.limits[k] == settings[last]
      {
      }
    }
  }

  // ---- necessary -------------------------------------------------------------

  /** What an axis left looser lets through: two airings the earlier limits forbid and the later ones allow. */
  lemma Breach(later: Limits, earlier: Limits) returns (a: ItemKeys, b: ItemKeys, d: Distance)
    requires !AtLeastAsStrict(later, earlier)
    ensures d.positions > 0 && a.duration == d.elapsed
    ensures a.id == "" && b.id in ["", "b"]
    ensures Conflict(b, a, later, earlier, d) && !Conflict(b, a, later, NO_LIMITS, d)
  {
    if earlier.separate > later.separate {
      a, b := ItemKeys("", ["g"], 0), ItemKeys("b", ["g"], 0);
      d := Distance(earlier.separate, 0);
      assert "g" in a.group && "g" in b.group;
      assert |a.id| != |b.id|;
      return;
    }
    d := match (earlier.noRepeat, later.noRepeat)
      case (Positions(n), Positions(_)) => Distance(n, 0)
      case (Positions(n), Within(span)) => Distance(n, span + 1)
      case (Within(span), Positions(n)) => Distance(n + 1, 0)
      case (Within(span), Within(_)) => Distance(1, span);
    a, b := ItemKeys("", [], d.elapsed), ItemKeys("", [], 0);
  }

  /** Being at least as strict is exactly what makes the earlier airing's own limits redundant. */
  lemma StricterIff(later: Limits, earlier: Limits)
    ensures AtLeastAsStrict(later, earlier) <==>
      forall a, b, d: Distance | d.positions > 0 && Conflict(b, a, later, earlier, d) ::
        Conflict(b, a, later, NO_LIMITS, d)
  {
    if AtLeastAsStrict(later, earlier) {
      forall a, b, d: Distance | d.positions > 0 && Conflict(b, a, later, earlier, d)
        ensures Conflict(b, a, later, NO_LIMITS, d)
      {
        StricterDecides(b, a, later, earlier, d);
      }
    } else {
      var a, b, d := Breach(later, earlier);
    }
  }

  /** The generation as it was listed, before its pass. */
  function Listed(g: Generation): (r: seq<Entry>)
    requires |g.items| == |g.limits|
    ensures |r| == |g.items| && forall k | 0 <= k < |r| :: r[k] == Entry(g.items[k], g.limits[k])
  {
    seq(|g.items|, k requires 0 <= k < |g.items| => Entry(g.items[k], g.limits[k]))
  }

  /** A list that conflicts with nothing is laid as listed, by a clean pass. */
  lemma ListedIsLaid(sofar: seq<Entry>, g: Generation)
    requires |g.items| == |g.limits| && g.cut == 0
    requires ClashFree(Judged(sofar, Listed(g)), |sofar|)
    ensures Fed(sofar, g) && Laid(sofar, g) == Listed(g) && Clean(sofar, g)
  {
    hide Ordered, ClashFree, ClashingPairs;
    var p := GivenPass(sofar, g);
    var r := Range(|g.items|);
    assert p.preceding == Keys(sofar);
    assert p.Stream(r) == Judged(sofar, Listed(g));
    ZeroIsClashFree(p, r);
    LegalIsUntouched(p);
  }

  function Filler(k: nat): ItemKeys {
    ItemKeys(seq(k + 1, _ => 'f'), [], 0)
  }

  lemma FillersDiffer(j: nat, k: nat)
    requires j != k
    ensures Filler(j).id != Filler(k).id
  {
    assert |Filler(j).id| == j + 1 && |Filler(k).id| == k + 1;
  }

  lemma FillersAreNew(k: nat)
    ensures Filler(k).id !in ["", "b"]
  {
    assert Filler(k).id[0] == 'f' && |Filler(k).id| == k + 1;
  }

  /** The earlier airing, with fillers up to the critical distance. */
  function Opening(a: ItemKeys, setting: Limits, fillers: nat): (g: Generation)
    ensures |g.items| == |g.limits| == fillers + 1
    ensures forall k | 0 <= k <= fillers :: g.items[k] == (if k == 0 then a else Filler(k)) && g.limits[k] == setting
  {
    Generation(seq(fillers + 1, k requires 0 <= k <= fillers => if k == 0 then a else Filler(k)),
               seq(fillers + 1, _ => setting), 0)
  }

  function Closing(b: ItemKeys, setting: Limits): Generation {
    Generation([b], [setting], 0)
  }

  lemma OpeningIsClear(a: ItemKeys, setting: Limits, fillers: nat, i: nat, j: nat)
    requires a.id == "" && i < j <= fillers
    ensures !Clash(Listed(Opening(a, setting, fillers)), i, j)
  {
    hide Span;
    FillersDiffer(i, j);
    FillersAreNew(j);
    var s := Listed(Opening(a, setting, fillers));
    assert s[j].keys.group == [] && s[i].keys.id != s[j].keys.id;
  }

  lemma OpeningIsLaid(a: ItemKeys, setting: Limits, fillers: nat)
    requires a.id == ""
    ensures var g := Opening(a, setting, fillers);
      Fed([], g) && Laid([], g) == Listed(g) && Clean([], g)
  {
    hide Clean, Laid, Fed, Clash;
    var g := Opening(a, setting, fillers);
    assert Judged([], Listed(g)) == Listed(g);
    forall i: nat, j: nat | i < j <= fillers
      ensures !Clash(Listed(g), i, j)
    {
      OpeningIsClear(a, setting, fillers, i, j);
    }
    ListedIsLaid([], g);
  }

  /** Only the first airing of the opening takes any time. */
  lemma {:induction false} FillersTakeNoTime(a: ItemKeys, setting: Limits, fillers: nat, s: seq<Entry>, i: nat)
    requires 1 <= i <= fillers + 1 <= |s|
    requires s[..fillers + 1] == Listed(Opening(a, setting, fillers))
    ensures Span(s, i, fillers + 1) == 0
    decreases fillers + 1 - i
  {
    if i <= fillers {
      FillersTakeNoTime(a, setting, fillers, s, i + 1);
      assert s[i] == s[..fillers + 1][i];
    }
  }

  lemma CriticallyApart(a: ItemKeys, setting: Limits, fillers: nat, s: seq<Entry>)
    requires fillers + 1 <= |s| && s[..fillers + 1] == Listed(Opening(a, setting, fillers))
    ensures Apart(s, 0, fillers + 1) == Distance(fillers + 1, a.duration)
  {
    FillersTakeNoTime(a, setting, fillers, s, 1);
    assert s[0] == s[..fillers + 1][0];
  }

  lemma ClosingIsLaid(a: ItemKeys, b: ItemKeys, later: Limits, earlier: Limits, fillers: nat)
    requires b.id in ["", "b"]
    requires Conflict(b, a, later, earlier, Distance(fillers + 1, a.duration))
    requires !Conflict(b, a, later, NO_LIMITS, Distance(fillers + 1, a.duration))
    ensures var sofar, g := Listed(Opening(a, earlier, fillers)), Closing(b, later);
      && Fed(sofar, g) && Laid(sofar, g) == Listed(g) && Clean(sofar, g)
      && !ClashFree(sofar + Listed(g), 0)
  {
    var sofar, g := Listed(Opening(a, earlier, fillers)), Closing(b, later);
    var at := fillers + 1;
    var s := sofar + Listed(g);
    CriticallyApart(a, earlier, fillers, s);
    assert Clash(s, 0, at);
    forall i: nat | i < at
      ensures !Clash(Judged(sofar, Listed(g)), i, at)
    {
      JudgedClash(sofar, Listed(g), i, at);
      if i > 0 {
        FillersAreNew(i);
      }
    }
    ListedIsLaid(sofar, g);
  }

  lemma NothingIsLaid(sofar: seq<Entry>)
    ensures var g := Generation([], [], 0); Fed(sofar, g) && Laid(sofar, g) == [] && Clean(sofar, g)
  {
    ListedIsLaid(sofar, Generation([], [], 0));
  }

  /** A run in which only generations `i` and `j` schedule anything. */
  function Sparse(n: nat, i: nat, first: Generation, j: nat, second: Generation): (r: seq<Generation>)
    ensures |r| == n
    ensures forall k | 0 <= k < n ::
              r[k] == if k == i then first else if k == j then second else Generation([], [], 0)
  {
    seq(n, k requires 0 <= k < n => if k == i then first else if k == j then second else Generation([], [], 0))
  }

  /** After `m` clean generations the stream is `stream`. */
  ghost predicate Reaches(gens: seq<Generation>, m: nat, stream: seq<Entry>)
    requires m <= |gens|
  {
    AllFed(gens[..m]) && AllClean(gens[..m]) && Emitted(gens[..m]) == stream
  }

  lemma NothingYet(gens: seq<Generation>)
    ensures Reaches(gens, 0, [])
  {
    assert gens[..0] == [];
  }

  /** One more clean generation. */
  lemma RunGrows(gens: seq<Generation>, m: nat, sofar: seq<Entry>, laid: seq<Entry>)
    requires m < |gens| && Reaches(gens, m, sofar)
    requires Fed(sofar, gens[m]) && Clean(sofar, gens[m]) && Laid(sofar, gens[m]) == laid
    ensures Reaches(gens, m + 1, sofar + laid)
  {
    hide Fed, Clean, Laid;
    var longer := gens[..m + 1];
    assert longer[..|longer| - 1] == gens[..m];
  }

  lemma {:induction false} SparseRun(n: nat, i: nat, first: Generation, j: nat, second: Generation, m: nat)
    requires i < j < n && m <= n
    requires |first.items| == |first.limits| && |second.items| == |second.limits|
    requires Fed([], first) && Laid([], first) == Listed(first) && Clean([], first)
    requires Fed(Listed(first), second) && Laid(Listed(first), second) == Listed(second) && Clean(Listed(first), second)
    ensures Reaches(Sparse(n, i, first, j, second), m,
                    if m <= i then [] else if m <= j then Listed(first) else Listed(first) + Listed(second))
  {
    hide Clean, Laid, Fed, Listed, Sparse, Reaches;
    var gens := Sparse(n, i, first, j, second);
    if m == 0 {
      NothingYet(gens);
    } else {
      SparseRun(n, i, first, j, second, m - 1);
      var sofar := if m - 1 <= i then [] else if m - 1 <= j then Listed(first) else Listed(first) + Listed(second);
      if m - 1 == i {
        RunGrows(gens, i, [], Listed(first));
        assert [] + Listed(first) == Listed(first);
      } else if m - 1 == j {
        RunGrows(gens, j, Listed(first), Listed(second));
      } else {
        NothingIsLaid(sofar);
        RunGrows(gens, m - 1, sofar, []);
        assert sofar + [] == sofar;
      }
    }
  }

  /** A setting looser than an earlier one always lets a clash through unreported. */
  lemma LooserLetsThrough(settings: seq<Limits>, i: nat, j: nat)
    requires i < j < |settings| && !AtLeastAsStrict(settings[j], settings[i])
    ensures !CleanIsEnough(settings)
  {
    hide ClashFree, Clean, Laid, Fed, Listed, Conflict;
    var a, b, d := Breach(settings[j], settings[i]);
    var fillers := d.positions - 1;
    var first, second := Opening(a, settings[i], fillers), Closing(b, settings[j]);
    OpeningIsLaid(a, settings[i], fillers);
    assert d == Distance(fillers + 1, a.duration);
    ClosingIsLaid(a, b, settings[j], settings[i], fillers);
    var gens := Sparse(|settings|, i, first, j, second);
    SparseRun(|settings|, i, first, j, second, |settings|);
    assert gens[..|settings|] == gens;
    assert Follows(gens, settings);
    assert !ClashFree(Emitted(gens), 0);
  }

  /** The settings that keep the promise, exactly: clean passes make a clean stream, whatever is scheduled,
      if and only if no setting is looser than one before it, however many generations lie between. */
  lemma CleanIsEnoughIff(settings: seq<Limits>)
    ensures CleanIsEnough(settings) <==> NeverLooser(settings)
  {
    hide ClashFree, AtLeastAsStrict;
    if NeverLooser(settings) {
      forall gens | AllFed(gens) && Follows(gens, settings) && AllClean(gens)
        ensures ClashFree(Emitted(gens), 0)
      {
        FollowersNeverLoosen(gens, settings);
        CleanRunIsClashFree(gens);
      }
    } else {
      var i: nat, j: nat :| i < j < |settings| && !AtLeastAsStrict(settings[j], settings[i]);
      LooserLetsThrough(settings, i, j);
    }
  }

  const FILM := ItemKeys("film", [], 0)
  const ONCE := Generation([FILM], [Limits(Positions(1), 0)], 0)
  const AGAIN := Generation([FILM], [NO_LIMITS], 0)

  lemma AiredOnce()
    ensures Fed([], ONCE) && Laid([], ONCE) == Listed(ONCE) && Clean([], ONCE)
  {
    hide Ordered, ClashingPairs, Clean, Laid;
    ListedIsLaid([], ONCE);
  }

  lemma AiredAgain()
    ensures Fed(Listed(ONCE), AGAIN) && Laid(Listed(ONCE), AGAIN) == Listed(AGAIN) && Clean(Listed(ONCE), AGAIN)
  {
    hide Ordered, ClashingPairs, Clean, Laid;
    ListedIsLaid(Listed(ONCE), AGAIN);
  }

  /** The least such case: one film, forbidden to follow itself, airs twice in a row once the rule is dropped. */
  lemma LooseningCanRepeat()
    ensures var gens := [ONCE, AGAIN];
      AllFed(gens) && AllClean(gens) && Emitted(gens) == Listed(ONCE) + Listed(AGAIN)
      && !ClashFree(Emitted(gens), 0)
  {
    hide Clean, Laid, Fed;
    AiredOnce();
    AiredAgain();
    SparseRun(2, 0, ONCE, 1, AGAIN, 2);
    assert [ONCE, AGAIN] == Sparse(2, 0, ONCE, 1, AGAIN)[..2];
    assert Clash(Listed(ONCE) + Listed(AGAIN), 0, 1);
  }
}
