/** What a viewer can rely on: over any run of generations, one file and one item for every instant. */
module OnAir {
  import opened Common
  import opened Playout
  import opened EmitLaws

  /** `c` is the only file whose name span contains `t`. */
  ghost predicate OnlyFile(chunks: map<int, Chunk>, c: int, t: int) {
    && c in chunks && c <= t < chunks[c].finish
    && forall d <- chunks :: d <= t < chunks[d].finish ==> d == c
  }

  /** `items[k]` is the only item on air at `t`. */
  ghost predicate OnlyItem(items: seq<Item>, k: int, t: int) {
    && 0 <= k < |items| && items[k].start <= t < items[k].finish
    && forall j | 0 <= j < |items| && items[j].start <= t < items[j].finish :: j == k
  }

  /** In order of start is in order of finish. */
  lemma LastFinishesLast(items: seq<Item>)
    requires InOrder(items) && items != []
    ensures forall x <- items :: x.finish <= items[|items| - 1].finish
  {
    forall x | x in items
      ensures x.finish <= items[|items| - 1].finish
    {
      var k :| 0 <= k < |items| && items[k] == x;
      assert k < |items| - 1 ==> items[k].finish <= items[|items| - 1].start;
    }
  }

  lemma HeldSlot(grid: Grid, chunks: map<int, Chunk>, flat: seq<Item>, origin: int, c: int)
    requires Holds(grid, chunks, flat, origin) && c in chunks
    ensures grid.Valid() && grid.Boundary(c) && InOrder(flat)
    ensures chunks[c].items == Meeting(flat, c, grid.next(c)) != []
    ensures chunks[c] == ChunkFor(grid, chunks[c].items, c)
  {
    hide InOrder, Meeting, Grid.Valid, Grid.Boundary;
  }

  lemma LastOfSlot(flat: seq<Item>, lo: int, hi: int)
    requires InOrder(flat) && Meeting(flat, lo, hi) != []
    ensures var items := Meeting(flat, lo, hi);
      && InOrder(items)
      && (forall x <- items :: x in flat && Meets(x, lo, hi) && x.finish <= items[|items| - 1].finish)
      && items[|items| - 1].finish > lo
  {
    hide InOrder, Meeting;
    var items := Meeting(flat, lo, hi);
    MeetingInOrder(flat, lo, hi);
    MeetingMembers(flat, lo, hi);
    LastFinishesLast(items);
    assert items[|items| - 1] in items;
  }

  lemma SlotInOrder(grid: Grid, chunks: map<int, Chunk>, flat: seq<Item>, origin: int, c: int)
    requires Holds(grid, chunks, flat, origin) && c in chunks
    ensures chunks[c].items == Meeting(flat, c, grid.next(c)) != [] && InOrder(chunks[c].items)
    ensures forall x <- chunks[c].items :: x in flat && Meets(x, c, grid.next(c))
    ensures forall x <- chunks[c].items :: x.finish <= chunks[c].items[|chunks[c].items| - 1].finish
    ensures chunks[c].finish == Min(chunks[c].items[|chunks[c].items| - 1].finish, grid.next(c)) > c
  {
    hide Holds, InOrder, Meeting, Meets, Grid.Valid, Grid.Boundary;
    HeldSlot(grid, chunks, flat, origin, c);
    LastOfSlot(flat, c, grid.next(c));
    grid.NextIsBoundary(c);
  }

  /** A name never claims an instant its own items do not reach, and never one outside its slot. */
  lemma NameIsHonest(grid: Grid, chunks: map<int, Chunk>, flat: seq<Item>, origin: int, c: int, t: int)
    requires Holds(grid, chunks, flat, origin) && c in chunks
    requires c <= t < chunks[c].finish
    ensures grid.floor(t) == c
    ensures exists x <- chunks[c].items :: t < x.finish
  {
    SlotInOrder(grid, chunks, flat, origin, c);
    assert grid.floor(c) == c && c <= t < grid.next(c);
    var items := chunks[c].items;
    assert items[|items| - 1] in items;
  }

  /** The two-stage lookup: at every instant of a gapless schedule exactly one file's name contains it, and
      exactly one item in that file does. */
  lemma EveryInstantOnAir(grid: Grid, chunks: map<int, Chunk>, flat: seq<Item>, origin: int, t: int) returns (k: nat)
    requires Holds(grid, chunks, flat, origin) && Gapless(flat) && flat != []
    requires origin <= t && flat[0].start <= t < flat[|flat| - 1].finish
    ensures OnlyFile(chunks, grid.floor(t), t)
    ensures OnlyItem(chunks[grid.floor(t)].items, k, t)
  {
    var i := GaplessCovers(flat, t);
    ItemIsStored(grid, chunks, flat, origin, flat[i], t);
    var c := grid.floor(t);
    SlotInOrder(grid, chunks, flat, origin, c);
    assert c <= t < grid.next(c);
    var items := chunks[c].items;
    k :| 0 <= k < |items| && items[k] == flat[i];
    assert forall j | 0 <= j < |items| && items[j].start <= t < items[j].finish :: j == k;
    forall d <- chunks | d <= t < chunks[d].finish
      ensures d == c
    {
      NameIsHonest(grid, chunks, flat, origin, d, t);
    }
  }

  // ---- a whole run -----------------------------------------------------------

  /** A run of generations: where each starts, and the folder each one leaves. Every generation is emitted
      whole from where the one before it ended, into the folder it left. */
  datatype History = History(gens: seq<seq<Program>>, starts: seq<int>, folders: seq<map<int, Chunk>>)

  ghost predicate Trace(grid: Grid, h: History) {
    && grid.Valid()
    && |h.starts| == |h.folders| == |h.gens| + 1
    && h.folders[0] == map[]
    && (forall k | 0 <= k < |h.gens| :: Positive(h.gens[k]))
    && (forall k, j | 0 <= k < |h.gens| && j == k + 1 :: h.starts[j] == h.starts[k] + Total(h.gens[k]))
    && (forall k, j | 0 <= k < |h.gens| && j == k + 1 ::
          h.folders[j] == Emitted(grid, h.folders[k], Lay(h.gens[k], h.starts[k]), h.starts[k], h.starts[j]))
  }

  /** The flat schedule: the first `n` generations laid end to end. */
  ghost function Broadcast(h: History, n: nat): seq<Item>
    requires n <= |h.gens| < |h.starts|
  {
    if n == 0 then [] else Broadcast(h, n - 1) + Lay(h.gens[n - 1], h.starts[n - 1])
  }

  lemma GaplessConcat(a: seq<Item>, b: seq<Item>)
    requires Gapless(a) && Gapless(b)
    requires a != [] && b != [] ==> a[|a| - 1].finish == b[0].start
    ensures Gapless(a + b)
  {
  }

  lemma TraceStep(grid: Grid, h: History, n: nat)
    requires Trace(grid, h) && n < |h.gens|
    ensures grid.Valid() && |h.starts| == |h.folders| == |h.gens| + 1
    ensures Positive(h.gens[n]) && h.starts[n + 1] == h.starts[n] + Total(h.gens[n])
    ensures h.folders[n + 1] == Emitted(grid, h.folders[n], Lay(h.gens[n], h.starts[n]), h.starts[n], h.starts[n + 1])
  {
  }

  /** A gapless stretch from `start` to `end`, possibly nothing at all. */
  ghost predicate Stretch(s: seq<Item>, start: int, end: int) {
    && Gapless(s)
    && (forall x <- s :: x.finish <= end)
    && if s == [] then end == start else s[0].start == start && s[|s| - 1].finish == end
  }

  lemma StretchConcat(a: seq<Item>, b: seq<Item>, start: int, at: int, end: int)
    requires Stretch(a, start, at) && Stretch(b, at, end) && at <= end
    ensures Stretch(a + b, start, end)
  {
    if a != [] && b != [] {
      GaplessConcat(a, b);
    } else {
      assert a + b == a || a + b == b;
    }
  }

  lemma LayStretches(rule: seq<Program>, at: int)
    ensures Stretch(Lay(rule, at), at, at + Total(rule))
  {
    LayBounds(rule, at);
  }

  /** It runs without a gap from the first start to the frontier. */
  lemma {:induction false} BroadcastBounds(grid: Grid, h: History, n: nat)
    requires Trace(grid, h) && n <= |h.gens|
    ensures Stretch(Broadcast(h, n), h.starts[0], h.starts[n])
  {
    if n > 0 {
      hide Trace, Stretch, Lay, Total;
      TraceStep(grid, h, n - 1);
      BroadcastBounds(grid, h, n - 1);
      LayStretches(h.gens[n - 1], h.starts[n - 1]);
      StretchConcat(Broadcast(h, n - 1), Lay(h.gens[n - 1], h.starts[n - 1]), h.starts[0], h.starts[n - 1],
                    h.starts[n]);
    }
  }

  lemma {:induction false} MeetingAll(s: seq<Item>, lo: int, hi: int)
    requires forall x <- s :: Meets(x, lo, hi)
    ensures Meeting(s, lo, hi) == s
  {
    if s != [] {
      assert s[|s| - 1] in s;
      MeetingAll(s[..|s| - 1], lo, hi);
    }
  }

  /** A whole list laid from `at` joins any schedule that ends there. */
  lemma RuleJoins(flat: seq<Item>, rule: seq<Program>, at: int, end: int)
    requires Positive(rule) && end == at + Total(rule)
    requires forall x <- flat :: x.finish <= at
    ensures Joins(flat, Lay(rule, at), at, end)
    ensures Meeting(Lay(rule, at), at, end) == Lay(rule, at)
  {
    LayInOrder(rule, at);
    LayBounds(rule, at);
    WithinMeets(Lay(rule, at), at, end);
    MeetingAll(Lay(rule, at), at, end);
  }

  lemma WithinMeets(s: seq<Item>, lo: int, hi: int)
    requires InOrder(s) && forall x <- s :: lo <= x.start && x.finish <= hi
    ensures forall x <- s :: Meets(x, lo, hi)
  {
  }

  /** One more generation laid from where the schedule ends. */
  lemma GenerationExtends(grid: Grid, chunks: map<int, Chunk>, flat: seq<Item>, rule: seq<Program>, at: int, end: int,
                          origin: int, after: map<int, Chunk>)
    requires Holds(grid, chunks, flat, origin)
    requires Positive(rule) && end == at + Total(rule)
    requires forall x <- flat :: x.finish <= at
    requires after == Emitted(grid, chunks, Lay(rule, at), at, end)
    ensures Holds(grid, after, flat + Lay(rule, at), OriginAfter(grid, flat, origin, at))
  {
    RuleJoins(flat, rule, at, end);
    EmitHolds(grid, chunks, flat, Lay(rule, at), at, end, origin);
  }

  /** The same when the schedule has run from its first chunk all along. */
  lemma GenerationContinues(grid: Grid, chunks: map<int, Chunk>, flat: seq<Item>, rule: seq<Program>, at: int, end: int,
                            origin: int, after: map<int, Chunk>)
    requires Holds(grid, chunks, flat, origin)
    requires Positive(rule) && end == at + Total(rule)
    requires forall x <- flat :: x.finish <= at
    requires flat == [] ==> origin == grid.floor(at)
    requires after == Emitted(grid, chunks, Lay(rule, at), at, end)
    ensures Holds(grid, after, flat + Lay(rule, at), origin)
  {
    GenerationExtends(grid, chunks, flat, rule, at, end, origin, after);
  }

  lemma EmptyHolds(grid: Grid, origin: int, from: int)
    requires grid.Valid() && origin == grid.floor(from)
    ensures Holds(grid, map[], [], origin)
  {
    grid.FloorIsBoundary(from);
  }

  /** However many generations have grown, renamed and straddled the chunk files, at every point of the run
      they hold exactly the one flat schedule the generations so far lay end to end. */
  lemma {:induction false} RunHoldsSchedule(grid: Grid, h: History, n: nat)
    requires Trace(grid, h) && n <= |h.gens|
    ensures Holds(grid, h.folders[n], Broadcast(h, n), grid.floor(h.starts[0]))
    decreases n
  {
    hide Holds, Emitted, Trace, Broadcast, Stretch;
    RunOpens(grid, h);
    if n > 0 {
      TraceStep(grid, h, n - 1);
      BroadcastStep(grid, h, n - 1);
      RunHoldsSchedule(grid, h, n - 1);
      GenerationContinues(grid, h.folders[n - 1], Broadcast(h, n - 1), h.gens[n - 1], h.starts[n - 1], h.starts[n],
                          grid.floor(h.starts[0]), h.folders[n]);
    }
  }

  lemma RunOpens(grid: Grid, h: History)
    requires Trace(grid, h)
    ensures |h.folders| == |h.starts| == |h.gens| + 1 && grid.Valid()
    ensures Holds(grid, h.folders[0], Broadcast(h, 0), grid.floor(h.starts[0]))
  {
    EmptyHolds(grid, grid.floor(h.starts[0]), h.starts[0]);
  }

  lemma BroadcastStep(grid: Grid, h: History, n: nat)
    requires Trace(grid, h) && n < |h.gens|
    ensures Broadcast(h, n + 1) == Broadcast(h, n) + Lay(h.gens[n], h.starts[n])
    ensures forall x <- Broadcast(h, n) :: x.finish <= h.starts[n]
    ensures Broadcast(h, n) == [] ==> h.starts[n] == h.starts[0]
  {
    BroadcastBounds(grid, h, n);
  }

  /** At every instant between the first start and the frontier, one file and one item in it. */
  lemma RunIsAlwaysOnAir(grid: Grid, h: History, n: nat, t: int) returns (k: nat)
    requires Trace(grid, h) && n <= |h.gens|
    requires h.starts[0] <= t < h.starts[n]
    ensures var c := grid.floor(t); OnlyFile(h.folders[n], c, t) && OnlyItem(h.folders[n][c].items, k, t)
  {
    RunHoldsSchedule(grid, h, n);
    BroadcastBounds(grid, h, n);
    assert grid.floor(h.starts[0]) <= h.starts[0];
    k := EveryInstantOnAir(grid, h.folders[n], Broadcast(h, n), grid.floor(h.starts[0]), t);
  }
}
