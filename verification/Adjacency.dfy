/** The vocabulary of the adjacency constraint pass: items, limits, distances,
    and the all-pairs meaning of a clash on the stream that actually airs. */
module Adjacency {
  import opened Common

  /** One item's identity, the values it is separated on, and its estimated runtime in nanoseconds. */
  datatype ItemKeys = ItemKeys(id: string, group: seq<string>, duration: nat) {
    predicate SharesGroupWith(other: ItemKeys) {
      && group != []
      && other.group != []
      && exists v | v in group :: v in other.group
    }
  }

  datatype RepeatGap = Positions(n: nat) | Within(span: nat) {
    /** Whether this gap alone puts a distance inside its reach. */
    predicate Conflicts(d: Distance) {
      match this
      case Positions(n) => n > 0 && d.positions <= n
      case Within(span) => span != 0 && d.elapsed <= span
    }
  }

  /** How far apart two items are, in list positions and in wall-clock time. */
  datatype Distance = Distance(positions: nat, elapsed: nat)

  datatype Reach = Reach(positions: nat, duration: nat) {
    predicate Unconstrained() {
      positions == 0 && duration == 0
    }

    function Widen(other: Reach): Reach {
      Reach(Max(positions, other.positions), Max(duration, other.duration))
    }

    /** Both axes of `other` lie inside this reach. */
    predicate Covers(other: Reach) {
      other.positions <= positions && other.duration <= duration
    }

    /** Both axes have been left behind at `d`; an axis left at zero is off. */
    predicate Exhausted(d: Distance) {
      d.positions > positions && (duration == 0 || d.elapsed > duration)
    }
  }

  datatype Limits = Limits(noRepeat: RepeatGap, separate: nat) {
    function ReachOf(): Reach {
      match noRepeat
      case Positions(n) => Reach(Max(n, separate), 0)
      case Within(d) => Reach(separate, d)
    }

    predicate Unconstrained() {
      ReachOf().Unconstrained()
    }
  }

  const NO_LIMITS := Limits(Positions(0), 0)

  /** Two items conflict at `d` when either side's own setting forbids it. */
  predicate Conflict(a: ItemKeys, b: ItemKeys, la: Limits, lb: Limits, d: Distance) {
    || (a.id == b.id && (la.noRepeat.Conflicts(d) || lb.noRepeat.Conflicts(d)))
    || (d.positions <= Max(la.separate, lb.separate) && a.SharesGroupWith(b))
  }

  /** One airing of the stream: an item together with the limits that govern it. */
  datatype Entry = Entry(keys: ItemKeys, limits: Limits)

  /** What has aired, oldest first: emitted is emitted, so no limits of its own. */
  function Aired(history: seq<ItemKeys>): (s: seq<Entry>)
    ensures |s| == |history|
    ensures forall k | 0 <= k < |s| :: s[k] == Entry(history[k], NO_LIMITS)
  {
    seq(|history|, k requires 0 <= k < |history| => Entry(history[k], NO_LIMITS))
  }

  /** Wall-clock time from the start of `s[i]` to the start of `s[j]`. */
  function Span(s: seq<Entry>, i: nat, j: nat): nat
    requires i <= j <= |s|
    decreases j - i
  {
    if i == j then 0 else s[i].keys.duration + Span(s, i + 1, j)
  }

  function Apart(s: seq<Entry>, i: nat, j: nat): Distance
    requires i < j <= |s|
  {
    Distance(j - i, Span(s, i, j))
  }

  /** The airings at `i` and `j` conflict: the definition every fast walk is measured against. */
  predicate Clash(s: seq<Entry>, i: nat, j: nat)
    requires i < j < |s|
  {
    Conflict(s[j].keys, s[i].keys, s[j].limits, s[i].limits, Apart(s, i, j))
  }

  /** Something in `s[lo..hi]` clashes with the later airing `at`. */
  ghost predicate ClashesBack(s: seq<Entry>, lo: nat, hi: nat, at: nat)
    requires hi <= at < |s|
  {
    exists i: nat | lo <= i < hi :: Clash(s, i, at)
  }

  /** Something in `s[lo..hi]` clashes with the earlier airing `at`. */
  ghost predicate ClashesAhead(s: seq<Entry>, at: nat, lo: nat, hi: nat)
    requires at < lo && hi <= |s|
  {
    exists j: nat | lo <= j < hi :: Clash(s, at, j)
  }

  /** The airing `at` clashes with a later one, or with one from before the seam. */
  ghost predicate ClashesAround(s: seq<Entry>, seam: nat, at: nat)
    requires seam <= at < |s|
  {
    ClashesAhead(s, at, at + 1, |s|) || ClashesBack(s, 0, seam, at)
  }

  /** No airing at or after `seam` clashes with anything before it. */
  ghost predicate ClashFree(s: seq<Entry>, seam: nat) {
    forall i: nat, j: nat | i < j < |s| && seam <= j :: !Clash(s, i, j)
  }

  /** Every clashing pair whose later airing is at or after `seam`. */
  ghost function ClashingPairs(s: seq<Entry>, seam: nat): set<(int, int)> {
    set i, j | 0 <= i < j < |s| && seam <= j && Clash(s, i, j) :: (i, j)
  }

  lemma {:induction false} SpanSplit(s: seq<Entry>, i: nat, m: nat, j: nat)
    requires i <= m <= j <= |s|
    ensures Span(s, i, j) == Span(s, i, m) + Span(s, m, j)
    decreases m - i
  {
    if i < m {
      SpanSplit(s, i + 1, m, j);
    }
  }

  /** A span reads only the runtimes of the airings inside it. */
  lemma {:induction false} SpanOfKeys(s: seq<Entry>, t: seq<Entry>, i: nat, j: nat)
    requires i <= j <= |s| && j <= |t|
    requires forall k | i <= k < j :: s[k].keys == t[k].keys
    ensures Span(s, i, j) == Span(t, i, j)
    decreases j - i
  {
    if i < j {
      SpanOfKeys(s, t, i + 1, j);
    }
  }

  /** A span depends only on the airings inside it, wherever they sit. */
  lemma {:induction false} SpanLocal(s: seq<Entry>, t: seq<Entry>, i: nat, j: nat, shift: nat)
    requires i <= j <= |s| && j + shift <= |t|
    requires forall k | i <= k < j :: s[k] == t[k + shift]
    ensures Span(s, i, j) == Span(t, i + shift, j + shift)
    decreases j - i
  {
    if i < j {
      SpanLocal(s, t, i + 1, j, shift);
    }
  }

  /** Whether two airings clash depends only on them and what lies between them. */
  lemma ClashLocal(s: seq<Entry>, t: seq<Entry>, i: nat, j: nat, shift: nat)
    requires i < j < |s| && j + shift < |t|
    requires forall k | i <= k <= j :: s[k] == t[k + shift]
    ensures Clash(s, i, j) == Clash(t, i + shift, j + shift)
  {
    SpanLocal(s, t, i, j, shift);
  }

  lemma ConflictSymmetric(a: ItemKeys, b: ItemKeys, la: Limits, lb: Limits, d: Distance)
    ensures Conflict(a, b, la, lb, d) == Conflict(b, a, lb, la, d)
  {
    assert a.SharesGroupWith(b) == b.SharesGroupWith(a);
  }

  /** Past an exhausted reach nothing can conflict, however much farther back it is. */
  lemma ExhaustedBack(s: seq<Entry>, k: nat, at: nat, bound: Reach)
    requires k < at < |s|
    requires bound.Covers(s[at].limits.ReachOf())
    requires forall i | 0 <= i <= k :: bound.Covers(s[i].limits.ReachOf())
    requires bound.Exhausted(Apart(s, k, at))
    ensures !ClashesBack(s, 0, k + 1, at)
  {
    forall i: nat | i <= k
      ensures !Clash(s, i, at)
    {
      SpanSplit(s, i, k, at);
    }
  }

  /** The same looking forward: everything from `k` on is out of `at`'s reach. */
  lemma ExhaustedAhead(s: seq<Entry>, at: nat, k: nat, bound: Reach)
    requires at < k < |s|
    requires bound.Covers(s[at].limits.ReachOf())
    requires forall j | k <= j < |s| :: bound.Covers(s[j].limits.ReachOf())
    requires bound.Exhausted(Apart(s, at, k))
    ensures !ClashesAhead(s, at, k, |s|)
  {
    forall j: nat | k <= j < |s|
      ensures !Clash(s, at, j)
    {
      SpanSplit(s, at, k, j);
    }
  }

  // ---- what a clash is -------------------------------------------------------

  /** One airing after another takes as long as the first of them runs. */
  lemma SpanOne(s: seq<Entry>, i: nat)
    requires i < |s|
    ensures Span(s, i, i) == 0 && Span(s, i, i + 1) == s[i].keys.duration
  {
    assert Span(s, i + 1, i + 1) == 0;
  }

  /** The gap a setting asks for between two airings of one item, on the axis it counts on; 0 asks for none. */
  predicate FarEnough(gap: RepeatGap, positions: int, elapsed: int) {
    match gap
    case Positions(n) => n == 0 || positions > n
    case Within(span) => span == 0 || elapsed > span
  }

  /** The airings at `i` and `j` are as far apart as the settings of both ask: repeats of one item, and items with a
      value in common. */
  ghost predicate KeptApart(s: seq<Entry>, i: nat, j: nat)
    requires i < j < |s|
  {
    var a, b := s[i], s[j];
    && (a.keys.id == b.keys.id ==>
          FarEnough(a.limits.noRepeat, j - i, Span(s, i, j)) && FarEnough(b.limits.noRepeat, j - i, Span(s, i, j)))
    && ((exists v :: v in a.keys.group && v in b.keys.group) ==> j - i > a.limits.separate && j - i > b.limits.separate)
  }

  lemma ClashMeans(s: seq<Entry>, i: nat, j: nat)
    requires i < j < |s|
    ensures Clash(s, i, j) <==> !KeptApart(s, i, j)
  {
    hide Span;
    var a, b := s[i], s[j];
    if v :| v in a.keys.group && v in b.keys.group {
      assert b.keys.SharesGroupWith(a.keys);
    }
    if b.keys.SharesGroupWith(a.keys) {
      var v :| v in b.keys.group && v in a.keys.group;
    }
  }

  /** So a stream without a clash is one in which everything is kept as far apart as its settings ask. */
  lemma ClashFreeMeans(s: seq<Entry>, seam: nat)
    ensures ClashFree(s, seam) <==> forall i: nat, j: nat | i < j < |s| && seam <= j :: KeptApart(s, i, j)
  {
    hide Clash, KeptApart;
    forall i: nat, j: nat | i < j < |s|
      ensures Clash(s, i, j) <==> !KeptApart(s, i, j)
    {
      ClashMeans(s, i, j);
    }
  }

  /** A reach is exhausted exactly where nothing at all could conflict any more. */
  lemma ReachIsExact(limits: Limits, d: Distance)
    requires d.positions > 0
    ensures limits.ReachOf().Exhausted(d) <==> forall a, b :: !Conflict(a, b, limits, NO_LIMITS, d)
  {
    var x := ItemKeys("", ["g"], 0);
    assert "g" in x.group;
    assert x.SharesGroupWith(x);
    if !limits.ReachOf().Exhausted(d) {
      assert Conflict(x, x, limits, NO_LIMITS, d);
    }
  }
}
