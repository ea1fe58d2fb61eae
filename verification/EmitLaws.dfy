/** Emission on values: what growing the chunks by one generation does to the folder, and what a whole
    run of generations leaves on air. */
module EmitLaws {
  import opened Playout

  /** One entry of a resolved list: played once, for its length. */
  datatype Program = Program(id: string, length: nat, detail: string)

  function Total(rule: seq<Program>): nat {
    if rule == [] then 0 else Total(rule[..|rule| - 1]) + rule[|rule| - 1].length
  }

  function ItemAt(p: Program, at: int): Item {
    Item(p.id, at, at + p.length, p.detail)
  }

  /** The list laid end to end from `at`. */
  function Lay(rule: seq<Program>, at: int): seq<Item> {
    if rule == [] then []
    else
      var init := rule[..|rule| - 1];
      Lay(init, at) + [ItemAt(rule[|rule| - 1], at + Total(init))]
  }

  predicate Positive(rule: seq<Program>) {
    forall k | 0 <= k < |rule| :: rule[k].length > 0
  }

  lemma {:induction false} LayBounds(rule: seq<Program>, at: int)
    ensures |Lay(rule, at)| == |rule|
    ensures forall x <- Lay(rule, at) :: at <= x.start <= x.finish <= at + Total(rule)
    ensures Gapless(Lay(rule, at))
    ensures rule != [] ==> Lay(rule, at)[0].start == at && Lay(rule, at)[|rule| - 1].finish == at + Total(rule)
  {
    if rule != [] {
      LayBounds(rule[..|rule| - 1], at);
    }
  }

  lemma {:induction false} LayInOrder(rule: seq<Program>, at: int)
    requires Positive(rule)
    ensures InOrder(Lay(rule, at))
  {
    if rule != [] {
      var init := rule[..|rule| - 1];
      var earlier := Lay(init, at);
      LayInOrder(init, at);
      LayBounds(init, at);
      assert forall k | 0 <= k < |earlier| :: earlier[k] in earlier;
    }
  }

  // ---- one generation --------------------------------------------------------

  function Stored(chunks: map<int, Chunk>, c: int): seq<Item> {
    if c in chunks then chunks[c].items else []
  }

  /** The chunks after growing them, slot by slot from `cursor`, with the laid items. */
  ghost function Emitted(grid: Grid, chunks: map<int, Chunk>, laid: seq<Item>, cursor: int, end: int): map<int, Chunk>
    requires grid.Valid()
    decreases end - cursor
  {
    if cursor >= end then chunks
    else
      var c := grid.floor(cursor);
      var e := grid.next(c);
      var items := Stored(chunks, c) + Meeting(laid, cursor, e);
      if items == [] then chunks
      else Emitted(grid, chunks[c := ChunkFor(grid, items, c)], laid, e, end)
  }

  /** The generation picks up where the schedule ends: the laid items run gaplessly to `end` from at or
      before `from`, and from exactly there or later when anything has been scheduled already. */
  ghost predicate Joins(flat: seq<Item>, laid: seq<Item>, from: int, end: int) {
    && InOrder(laid) && Gapless(laid)
    && (laid != [] ==> laid[0].start <= from)
    && (forall x <- laid :: x.finish <= end)
    && (forall x <- flat :: x.finish <= from)
    && (flat != [] ==> forall x <- laid :: from <= x.start)
  }

  /** What each slot holds once every slot below `done` has been grown. */
  ghost function Growing(grid: Grid, flat: seq<Item>, extra: seq<Item>, done: int): View {
    c => Meeting(if c < done then flat + extra else flat, c, grid.next(c))
  }

  lemma {:induction false} MeetingTwice(s: seq<Item>, a: int, b: int, lo: int, hi: int, lo2: int, hi2: int)
    requires forall x <- s :: Meets(x, a, b) && Meets(x, lo, hi) <==> Meets(x, lo2, hi2)
    ensures Meeting(Meeting(s, a, b), lo, hi) == Meeting(s, lo2, hi2)
  {
    if s != [] {
      var init, last := s[..|s| - 1], s[|s| - 1];
      MeetingTwice(init, a, b, lo, hi, lo2, hi2);
      assert last in s;
      if Meets(last, a, b) {
        assert Meeting(s, a, b)[..|Meeting(init, a, b)|] == Meeting(init, a, b);
      }
    }
  }

  lemma MeetingEmpty(s: seq<Item>, lo: int, hi: int)
    requires forall x <- s :: !Meets(x, lo, hi)
    ensures Meeting(s, lo, hi) == []
  {
    MeetingMembers(s, lo, hi);
    assert forall k | 0 <= k < |Meeting(s, lo, hi)| :: Meeting(s, lo, hi)[k] in Meeting(s, lo, hi);
  }

  /** A gapless run that starts by `t` and goes on past it has an item on air at `t`. */
  lemma {:induction false} GaplessCovers(s: seq<Item>, t: int) returns (k: nat)
    requires InOrder(s) && Gapless(s) && s != []
    requires s[0].start <= t < s[|s| - 1].finish
    ensures k < |s| && s[k].start <= t < s[k].finish
    decreases |s|
  {
    if t < s[0].finish {
      k := 0;
    } else {
      var j := GaplessCovers(s[1..], t);
      k := j + 1;
    }
  }

  lemma FloorMonotone(grid: Grid, a: int, b: int)
    requires grid.Valid() && a <= b
    ensures grid.floor(a) <= grid.floor(b)
  {
    grid.FloorIsBoundary(a);
    grid.FloorIsBoundary(b);
    assert grid.floor(b) <= b < grid.next(grid.floor(b));
    assert grid.floor(b) <= a ==> grid.floor(a) == grid.floor(b);
  }

  /** The cursor's slot, grown, holds its share of the longer schedule. */
  lemma GrownSlot(grid: Grid, flat: seq<Item>, laid: seq<Item>, from: int, end: int, cursor: int)
    requires grid.Valid() && from <= cursor < end && (cursor == from || grid.Boundary(cursor))
    requires Joins(flat, laid, from, end)
    ensures var c := grid.floor(cursor);
      Meeting(flat, c, grid.next(c)) + Meeting(laid, cursor, grid.next(c))
      == Meeting(flat + Meeting(laid, from, end), c, grid.next(c))
  {
    var c := grid.floor(cursor);
    assert c <= cursor < grid.next(c);
    MeetingTwice(laid, from, end, c, grid.next(c), cursor, grid.next(c));
    MeetingConcat(flat, Meeting(laid, from, end), c, grid.next(c));
  }

  /** Growing the slot that holds the cursor. */
  lemma GrowOne(grid: Grid, chunks: map<int, Chunk>, flat: seq<Item>, extra: seq<Item>, origin: int, c: int)
    requires grid.Valid() && grid.Boundary(origin) && grid.Boundary(c) && origin <= c
    requires Table(grid, chunks, origin, Growing(grid, flat, extra, c))
    ensures Stored(chunks, c) == Meeting(flat, c, grid.next(c))
    ensures var items := Meeting(flat + extra, c, grid.next(c));
      items != [] ==>
        Table(grid, chunks[c := ChunkFor(grid, items, c)], origin, Growing(grid, flat, extra, grid.next(c)))
  {
    var v, w := Growing(grid, flat, extra, c), Growing(grid, flat, extra, grid.next(c));
    var items := Meeting(flat + extra, c, grid.next(c));
    assert v(c) == Meeting(flat, c, grid.next(c));
    if items != [] {
      grid.NextIsBoundary(c);
      assert w(c) == items;
      forall d | grid.Boundary(d) && origin <= d && d != c
        ensures v(d) == w(d)
      {
        if c < d {
          grid.SlotsApart(c, d);
        }
      }
      TableSet(grid, chunks, origin, v, w, c);
    }
  }

  /** Once nothing laid is still to come, growing is over and the folder holds the longer schedule. */
  lemma GrownIsHeld(grid: Grid, chunks: map<int, Chunk>, flat: seq<Item>, extra: seq<Item>, origin: int, done: int)
    requires grid.Valid() && grid.Boundary(origin)
    requires Table(grid, chunks, origin, Growing(grid, flat, extra, done))
    requires forall x <- extra :: x.finish <= done
    requires InOrder(flat + extra) && forall x <- flat + extra :: x.finish > origin
    ensures Holds(grid, chunks, flat + extra, origin)
  {
    var v, w := Growing(grid, flat, extra, done), Shares(grid, flat + extra);
    forall c | grid.Boundary(c) && origin <= c
      ensures v(c) == w(c)
    {
      if done <= c {
        MeetingEmpty(extra, c, grid.next(c));
        MeetingConcat(flat, extra, c, grid.next(c));
      }
    }
    TableCongruent(grid, chunks, origin, v, w);
  }

  lemma {:induction false} EmitFrom(grid: Grid, chunks: map<int, Chunk>, flat: seq<Item>, laid: seq<Item>,
                                    from: int, end: int, origin: int, cursor: int)
    requires grid.Valid() && grid.Boundary(origin) && origin <= from <= cursor
    requires cursor == from || grid.Boundary(cursor)
    requires Joins(flat, laid, from, end)
    requires Table(grid, chunks, origin, Growing(grid, flat, Meeting(laid, from, end), grid.floor(cursor)))
    requires InOrder(flat + Meeting(laid, from, end))
    requires forall x <- flat + Meeting(laid, from, end) :: x.finish > origin
    ensures Holds(grid, Emitted(grid, chunks, laid, cursor, end), flat + Meeting(laid, from, end), origin)
    decreases end - cursor
  {
    hide Table, Holds, InOrder, Gapless, Meeting, Growing, ChunkFor;
    var c, extra := grid.floor(cursor), Meeting(laid, from, end);
    var e := grid.next(c);
    var items := Stored(chunks, c) + Meeting(laid, cursor, e);
    grid.FloorIsBoundary(cursor);
    assert c <= cursor < e;
    if cursor >= end {
      ExhaustedBy(laid, from, end, cursor, c);
      GrownIsHeld(grid, chunks, flat, extra, origin, c);
    } else {
      FloorMonotone(grid, origin, cursor);
      GrownSlot(grid, flat, laid, from, end, cursor);
      GrowOne(grid, chunks, flat, extra, origin, c);
      if items == [] {
        NothingAhead(laid, from, cursor, e);
        ExhaustedBy(laid, from, end, cursor, c);
        GrownIsHeld(grid, chunks, flat, extra, origin, c);
      } else {
        grid.NextIsBoundary(c);
        EmitFrom(grid, chunks[c := ChunkFor(grid, items, c)], flat, laid, from, end, origin, e);
      }
    }
  }

  /** Past the end of the list, nothing emitted reaches beyond the cursor's own chunk boundary. */
  lemma ExhaustedBy(laid: seq<Item>, from: int, end: int, cursor: int, c: int)
    requires from <= cursor && (cursor == from || c == cursor)
    requires forall x <- laid :: x.finish <= cursor
    ensures forall x <- Meeting(laid, from, end) :: x.finish <= c
  {
    MeetingMembers(laid, from, end);
  }

  /** When no laid item meets the slot ahead of the cursor, the list is exhausted. */
  lemma NothingAhead(laid: seq<Item>, from: int, cursor: int, e: int)
    requires InOrder(laid) && Gapless(laid) && (laid != [] ==> laid[0].start <= from) && from <= cursor < e
    requires Meeting(laid, cursor, e) == []
    ensures forall x <- laid :: x.finish <= cursor
  {
    MeetingMembers(laid, cursor, e);
    if laid != [] && cursor < laid[|laid| - 1].finish {
      var k := GaplessCovers(laid, cursor);
      assert laid[k] in laid;
      assert Meets(laid[k], cursor, e);
    }
    if laid != [] {
      forall x | x in laid
        ensures x.finish <= laid[|laid| - 1].finish
      {
        var k :| 0 <= k < |laid| && laid[k] == x;
        assert k == |laid| - 1 || laid[k].finish <= laid[|laid| - 1].start;
      }
    }
  }

  /** Where the stored schedule begins: an empty folder opens at the first cursor's chunk. */
  function OriginAfter(grid: Grid, flat: seq<Item>, origin: int, from: int): int {
    if flat == [] then grid.floor(from) else origin
  }

  /** Opening the first chunk, when nothing is stored yet, leaves the folder's table as it is. */
  lemma OriginHolds(grid: Grid, chunks: map<int, Chunk>, flat: seq<Item>, from: int, origin: int)
    requires Holds(grid, chunks, flat, origin)
    requires forall x <- flat :: x.finish <= from
    ensures var at := OriginAfter(grid, flat, origin, from);
      grid.Valid() && grid.Boundary(at) && at <= from
      && Table(grid, chunks, at, Shares(grid, flat)) && InOrder(flat)
      && forall x <- flat :: at < x.finish
  {
    grid.FloorIsBoundary(from);
    assert grid.floor(from) <= from;
    if flat != [] {
      assert flat[0] in flat;
    }
  }

  /** Before any slot has grown, the shares of the old schedule are what the folder is growing from. */
  lemma NothingGrown(grid: Grid, flat: seq<Item>, extra: seq<Item>, from: int, at: int)
    requires grid.Valid()
    requires at == grid.floor(from) || forall x <- extra :: from <= x.start
    ensures forall c | grid.Boundary(c) && at <= c ::
              Shares(grid, flat)(c) == Growing(grid, flat, extra, grid.floor(from))(c)
  {
    grid.FloorIsBoundary(from);
    forall c | grid.Boundary(c) && at <= c < grid.floor(from)
      ensures Meeting(flat + extra, c, grid.next(c)) == Meeting(flat, c, grid.next(c))
    {
      grid.SlotsApart(c, grid.floor(from));
      MeetingEmpty(extra, c, grid.next(c));
      MeetingConcat(flat, extra, c, grid.next(c));
    }
  }

  /** What a generation adds keeps the schedule in order and past the origin. */
  lemma JoinedInOrder(flat: seq<Item>, laid: seq<Item>, from: int, end: int, at: int)
    requires Joins(flat, laid, from, end) && InOrder(flat) && at <= from
    requires forall x <- flat :: at < x.finish
    ensures var extra := Meeting(laid, from, end);
      InOrder(flat + extra) && (forall x <- flat + extra :: x.finish > at)
      && (flat != [] ==> forall x <- extra :: from <= x.start)
  {
    var extra := Meeting(laid, from, end);
    MeetingMembers(laid, from, end);
    MeetingInOrder(laid, from, end);
    if flat != [] {
      InOrderConcat(flat, extra, from);
    } else {
      assert flat + extra == extra;
    }
  }

  /** Growing the chunks by a generation that joins the schedule leaves them holding exactly the longer
      schedule: every slot its items meet, straddlers in each of their slots, names no longer than content. */
  lemma EmitHolds(grid: Grid, chunks: map<int, Chunk>, flat: seq<Item>, laid: seq<Item>, from: int, end: int,
                  origin: int)
    requires Holds(grid, chunks, flat, origin)
    requires Joins(flat, laid, from, end)
    ensures Holds(grid, Emitted(grid, chunks, laid, from, end), flat + Meeting(laid, from, end),
                  OriginAfter(grid, flat, origin, from))
  {
    var extra, at := Meeting(laid, from, end), OriginAfter(grid, flat, origin, from);
    assert forall x <- flat :: x.finish <= from;
    hide Joins, Emitted, InOrder, Meeting, Table, Holds;
    OriginHolds(grid, chunks, flat, from, origin);
    JoinedInOrder(flat, laid, from, end, at);
    NothingGrown(grid, flat, extra, from, at);
    TableCongruent(grid, chunks, at, Shares(grid, flat), Growing(grid, flat, extra, grid.floor(from)));
    EmitFrom(grid, chunks, flat, laid, from, end, at, from);
  }
}
