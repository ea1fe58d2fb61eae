/** The flat schedule, the chunk grid, and what it means for a folder of chunk files to hold the schedule. */
module Playout {
  import opened Common

  /** A scheduled item: its id, its span in nanoseconds, and everything carried along verbatim. */
  datatype Item = Item(id: string, start: int, finish: int, detail: string)

  /** One chunk file: the finish its name claims, and what it holds. */
  datatype Chunk = Chunk(finish: int, items: seq<Item>)

  // ---- the grid --------------------------------------------------------------

  /** The chunk grid: the boundary at or before an instant, and the boundary after a boundary. */
  datatype Grid = Grid(floor: int -> int, next: int -> int) {
    ghost predicate Valid() {
      && (forall t :: floor(t) <= t < next(floor(t)))
      && (forall t, u :: floor(t) <= u < next(floor(t)) ==> floor(u) == floor(t))
    }

    predicate Boundary(c: int) {
      floor(c) == c
    }

    lemma FloorIsBoundary(t: int)
      requires Valid()
      ensures Boundary(floor(t))
    {
      assert floor(t) <= floor(t) < next(floor(t));
    }

    lemma NextIsBoundary(c: int)
      requires Valid() && Boundary(c)
      ensures c < next(c) && Boundary(next(c))
    {
      var x := next(c);
      var b := floor(x);
      FloorIsBoundary(x);
      assert floor(c) == c;
      assert c <= b < x ==> floor(b) == c;
      assert b <= c < x ==> floor(c) == b;
    }

    /** Slots of different boundaries do not overlap. */
    lemma SlotsApart(c: int, d: int)
      requires Valid() && Boundary(c) && Boundary(d) && c < d
      ensures next(c) <= d
    {
      assert floor(c) <= d < next(floor(c)) ==> floor(d) == floor(c);
    }
  }

  // ---- the flat schedule -----------------------------------------------------

  /** Items of positive length, in order, none overlapping the next. Gaps are allowed. */
  ghost predicate InOrder(s: seq<Item>) {
    && (forall i | 0 <= i < |s| :: s[i].start < s[i].finish)
    && (forall i, j | 0 <= i < j < |s| :: s[i].finish <= s[j].start)
  }

  /** Each item butts against the next. */
  ghost predicate Gapless(s: seq<Item>) {
    forall i, j | 0 <= i < j < |s| && j == i + 1 :: s[i].finish == s[j].start
  }

  predicate Meets(x: Item, lo: int, hi: int) {
    x.start < hi && x.finish > lo
  }

  /** The items whose span meets `[lo, hi)`, in order. */
  function Meeting(s: seq<Item>, lo: int, hi: int): (r: seq<Item>) {
    if s == [] then []
    else
      var init, last := s[..|s| - 1], s[|s| - 1];
      if Meets(last, lo, hi) then Meeting(init, lo, hi) + [last] else Meeting(init, lo, hi)
  }

  lemma {:induction false} MeetingMembers(s: seq<Item>, lo: int, hi: int)
    ensures forall x :: x in Meeting(s, lo, hi) <==> x in s && Meets(x, lo, hi)
  {
    if s != [] {
      var init, last := s[..|s| - 1], s[|s| - 1];
      assert s == init + [last];
      MeetingMembers(init, lo, hi);
    }
  }

  lemma {:induction false} MeetingConcat(a: seq<Item>, b: seq<Item>, lo: int, hi: int)
    ensures Meeting(a + b, lo, hi) == Meeting(a, lo, hi) + Meeting(b, lo, hi)
  {
    if b == [] {
      assert a + b == a;
    } else {
      var init, last := b[..|b| - 1], b[|b| - 1];
      MeetingConcat(a, init, lo, hi);
      assert (a + b)[..|a + b| - 1] == a + init;
    }
  }

  lemma {:induction false} MeetingInOrder(s: seq<Item>, lo: int, hi: int)
    requires InOrder(s)
    ensures InOrder(Meeting(s, lo, hi))
  {
    if s != [] {
      var init, last := s[..|s| - 1], s[|s| - 1];
      MeetingInOrder(init, lo, hi);
      MeetingMembers(init, lo, hi);
      var m := Meeting(init, lo, hi);
      forall k | 0 <= k < |m|
        ensures m[k].finish <= last.start
      {
        assert m[k] in init;
      }
    }
  }

  lemma InOrderConcat(a: seq<Item>, b: seq<Item>, at: int)
    requires InOrder(a) && InOrder(b)
    requires forall x <- a :: x.finish <= at
    requires forall x <- b :: at <= x.start
    ensures InOrder(a + b)
  {
    var s := a + b;
    forall i, j | 0 <= i < j < |s|
      ensures s[i].finish <= s[j].start
    {
      if i < |a| <= j {
        assert s[i] in a && s[j] in b;
      }
    }
  }

  // ---- what the folder holds -------------------------------------------------

  type View = int -> seq<Item>

  /** The chunk file for boundary `c`: what its slot holds, named no further than that reaches. */
  function ChunkFor(grid: Grid, items: seq<Item>, c: int): Chunk
    requires items != []
  {
    Chunk(Min(items[|items| - 1].finish, grid.next(c)), items)
  }

  /** One file for each slot from `origin` on that `view` puts anything in, holding exactly that, and no other. */
  ghost predicate Table(grid: Grid, chunks: map<int, Chunk>, origin: int, view: View) {
    && (forall c :: c in chunks <==> grid.Boundary(c) && origin <= c && view(c) != [])
    && (forall c <- chunks :: view(c) != [] && chunks[c] == ChunkFor(grid, view(c), c))
  }

  /** Each slot's share of the schedule: every item that meets it. */
  ghost function Shares(grid: Grid, flat: seq<Item>): View {
    c => Meeting(flat, c, grid.next(c))
  }

  /** The chunks hold exactly the schedule: every slot's share of it from `origin` on, and nothing else. */
  ghost predicate Holds(grid: Grid, chunks: map<int, Chunk>, flat: seq<Item>, origin: int) {
    && grid.Valid() && grid.Boundary(origin)
    && InOrder(flat) && (forall x <- flat :: x.finish > origin)
    && Table(grid, chunks, origin, Shares(grid, flat))
  }

  lemma TableCongruent(grid: Grid, chunks: map<int, Chunk>, origin: int, v: View, w: View)
    requires Table(grid, chunks, origin, v)
    requires forall c | grid.Boundary(c) && origin <= c :: v(c) == w(c)
    ensures Table(grid, chunks, origin, w)
  {
  }

  ghost predicate EntryFits(grid: Grid, chunks: map<int, Chunk>, origin: int, view: View, c: int) {
    && (c in chunks <==> grid.Boundary(c) && origin <= c && view(c) != [])
    && (c in chunks ==> chunks[c] == ChunkFor(grid, view(c), c))
  }

  lemma TableFrom(grid: Grid, chunks: map<int, Chunk>, origin: int, view: View)
    requires forall c :: EntryFits(grid, chunks, origin, view, c)
    ensures Table(grid, chunks, origin, view)
  {
    forall c
      ensures c in chunks <==> grid.Boundary(c) && origin <= c && view(c) != []
    {
      assert EntryFits(grid, chunks, origin, view, c);
    }
    forall c <- chunks
      ensures view(c) != [] && chunks[c] == ChunkFor(grid, view(c), c)
    {
      assert EntryFits(grid, chunks, origin, view, c);
    }
  }

  /** Rewriting one slot's file changes the table in that slot alone. */
  lemma TableSet(grid: Grid, chunks: map<int, Chunk>, origin: int, v: View, w: View, c: int)
    requires Table(grid, chunks, origin, v)
    requires grid.Boundary(c) && origin <= c && w(c) != []
    requires forall d | grid.Boundary(d) && origin <= d && d != c :: v(d) == w(d)
    ensures Table(grid, chunks[c := ChunkFor(grid, w(c), c)], origin, w)
  {
  }

  /** The schedule determines the folder. */
  lemma HeldUniquely(grid: Grid, a: map<int, Chunk>, b: map<int, Chunk>, flat: seq<Item>, origin: int)
    requires Holds(grid, a, flat, origin) && Holds(grid, b, flat, origin)
    ensures a == b
  {
    forall c
      ensures c in a <==> c in b
      ensures c in a ==> a[c] == b[c]
    {
    }
  }

  /** Every item is stored: it meets the slot of its own start, or the first slot when it began before it. */
  lemma ItemIsStored(grid: Grid, chunks: map<int, Chunk>, flat: seq<Item>, origin: int, x: Item, t: int)
    requires Holds(grid, chunks, flat, origin) && x in flat
    requires origin <= t && x.start <= t < x.finish
    ensures grid.floor(t) in chunks && x in chunks[grid.floor(t)].items
  {
    var c := grid.floor(t);
    grid.FloorIsBoundary(t);
    assert c <= t < grid.next(c);
    if c < origin {
      grid.SlotsApart(c, origin);
    }
    MeetingMembers(flat, c, grid.next(c));
  }
}
