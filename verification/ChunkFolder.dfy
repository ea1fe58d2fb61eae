/** The playout folder itself: chunk files under the names they carry on disk, grown, renamed and removed in place. */
module ChunkFolder {
  import opened Playout
  import opened EmitLaws
  import opened StableSort

  /** A chunk file's name: the span it claims. */
  datatype Name = Name(start: int, finish: int)

  /** `names` lists every file exactly once. */
  ghost predicate Lists(files: map<Name, seq<Item>>, names: seq<Name>) {
    && (forall n :: n in names <==> n in files)
    && (forall i, j | 0 <= i < j < |names| :: names[i] != names[j])
  }

  predicate EarlierName(a: Name, b: Name) {
    a.start <= b.start
  }

  /** The items of a rule that meet the window, walked in order and stopped past its end. */
  method ItemsCovering(rule: seq<Program>, anchor: int, from: int, end: int) returns (items: seq<Item>)
    ensures items == if end <= from then [] else Meeting(Lay(rule, anchor), from, end)
  {
    if rule == [] || end <= from {
      return [];
    }
    items := [];
    var at := anchor;
    for k := 0 to |rule|
      invariant Walked(rule, anchor, from, end, k, at, items)
    {
      var item := ItemAt(rule[k], at);
      if item.start >= end {
        NothingPast(rule, anchor, from, end, k, |rule|, at, items);
        break;
      }
      LayStep(rule, anchor, from, end, k, at, items);
      if item.finish > from {
        items := items + [item];
      }
      at := item.finish;
    }
    assert rule[..|rule|] == rule;
  }

  /** The first `k` entries have been walked: the next would start at `at`, and `items` is what they cover. */
  ghost predicate Walked(rule: seq<Program>, anchor: int, from: int, end: int, k: nat, at: int, items: seq<Item>) {
    k <= |rule| && at == anchor + Total(rule[..k]) && items == Meeting(Lay(rule[..k], anchor), from, end)
  }

  /** One step of the walk: the next item is taken when it meets the window. */
  lemma LayStep(rule: seq<Program>, anchor: int, from: int, end: int, k: nat, at: int, items: seq<Item>)
    requires k < |rule| && Walked(rule, anchor, from, end, k, at, items)
    ensures var x := ItemAt(rule[k], at);
      Walked(rule, anchor, from, end, k + 1, x.finish, if Meets(x, from, end) then items + [x] else items)
  {
    assert rule[..k + 1][..k] == rule[..k];
    var x, earlier := ItemAt(rule[k], at), Lay(rule[..k], anchor);
    assert Lay(rule[..k + 1], anchor) == earlier + [x];
    assert (earlier + [x])[..|earlier|] == earlier;
  }

  /** Past the window's end nothing later can qualify either. */
  lemma {:induction false} NothingPast(rule: seq<Program>, anchor: int, from: int, end: int, k: nat, n: nat,
                                       at: int, items: seq<Item>)
    requires k <= n <= |rule| && at >= end
    requires Walked(rule, anchor, from, end, k, at, items)
    ensures Walked(rule, anchor, from, end, n, anchor + Total(rule[..n]), items)
    decreases n - k
  {
    if k < n {
      LayStep(rule, anchor, from, end, k, at, items);
      NothingPast(rule, anchor, from, end, k + 1, n, at + rule[k].length, items);
    }
  }

  class Folder {
    const grid: Grid
    var files: map<Name, seq<Item>>
    ghost var chunks: map<int, Chunk>  // the folder as a table by chunk start

    /** One file per chunk, however its name has grown. */
    ghost predicate Valid()
      reads this
    {
      && grid.Valid()
      && (forall n :: n in files <==> n.start in chunks && chunks[n.start].finish == n.finish)
      && (forall n <- files :: files[n] == chunks[n.start].items)
    }

    constructor (grid: Grid)
      requires grid.Valid()
      ensures Valid() && chunks == map[] && this.grid == grid
    {
      this.grid := grid;
      files, chunks := map[], map[];
    }

    /** The folder's files, each once, in whatever order the directory gives them. */
    method List() returns (names: seq<Name>)
      ensures Lists(files, names)
    {
      var rest := files.Keys;
      names := [];
      while rest != {}
        invariant rest <= files.Keys
        invariant forall n :: n in names <==> n in files.Keys - rest
        invariant forall i, j | 0 <= i < j < |names| :: names[i] != names[j]
        decreases rest
      {
        var n :| n in rest;
        assert n !in names;
        ghost var was := names;
        names, rest := names + [n], rest - {n};
        assert forall m :: m in names <==> m in was || m == n;
      }
    }

    /** The same sorted by start. */
    method Scan() returns (names: seq<Name>)
      requires Valid()
      ensures Lists(files, names)
      ensures forall i, j | 0 <= i < j < |names| :: names[i].start < names[j].start
    {
      var listed := List();
      names := Sort(EarlierName, listed);
      SortSorts(EarlierName, listed);
      SameMembers(names, listed);
      DistinctTransfers(names, listed);
    }

    /** Items already stored for the chunk beginning at `c`, or none when it has no file yet. */
    method ReadChunkItems(c: int) returns (items: seq<Item>)
      requires Valid()
      ensures items == Stored(chunks, c)
    {
      var names := Scan();
      for k := 0 to |names|
        invariant forall i | 0 <= i < k :: names[i].start != c
      {
        if names[k].start == c {
          return files[names[k]];
        }
      }
      assert c in chunks ==> Name(c, chunks[c].finish) in files;
      return [];
    }

    /** Writes the chunk under the name its content deserves, then drops the file it had before. */
    method WriteChunk(c: int, finish: int, items: seq<Item>)
      requires Valid()
      modifies this
      ensures Valid() && chunks == old(chunks)[c := Chunk(finish, items)]
    {
      var keep := Name(c, finish);
      files := files[keep := items];
      ghost var was := chunks;
      chunks := chunks[c := Chunk(finish, items)];
      RemoveOthers(keep);
    }

    /** Removes the predecessor a growing chunk left behind. */
    method RemoveOthers(keep: Name)
      requires grid.Valid()
      requires keep in files && keep.start in chunks && chunks[keep.start] == Chunk(keep.finish, files[keep])
      requires forall n: Name | n.start != keep.start ::
                 n in files <==> n.start in chunks && chunks[n.start].finish == n.finish
      requires forall n <- files | n.start != keep.start :: files[n] == chunks[n.start].items
      modifies `files
      ensures Valid()
    {
      var stale := set n <- files | n.start == keep.start && n != keep;
      files := files - stale;
    }

    /** Folds the generation's share of the cursor's chunk into what the chunk already holds. */
    method GrowChunk(rule: seq<Program>, anchor: int, cursor: int) returns (grew: bool, path: Name)
      requires Valid()
      modifies this
      ensures Valid()
      ensures var c := grid.floor(cursor);
        var items := Stored(old(chunks), c) + Meeting(Lay(rule, anchor), cursor, grid.next(c));
        && grew == (items != [])
        && chunks == (if grew then old(chunks)[c := ChunkFor(grid, items, c)] else old(chunks))
        && (grew ==> path == Name(c, chunks[c].finish))
    {
      var chunkStart := grid.floor(cursor);
      var chunkEnd := grid.next(chunkStart);
      assert chunkStart <= cursor < chunkEnd;
      var newItems := ItemsCovering(rule, anchor, cursor, chunkEnd);
      var items := ReadChunkItems(chunkStart);
      items := items + newItems;
      path := Name(chunkStart, chunkStart);
      if items == [] {
        return false, path;
      }
      var contentEnd := items[|items| - 1].finish;
      var nameFinish := if contentEnd >= chunkEnd then chunkEnd else contentEnd;
      WriteChunk(chunkStart, nameFinish, items);
      return true, Name(chunkStart, nameFinish);
    }

    /** Merges a generation into the chunk files it falls in. */
    method EmitWindow(rule: seq<Program>, anchor: int, from: int, end: int) returns (written: seq<Name>)
      requires Valid()
      modifies this
      ensures Valid() && chunks == Emitted(grid, old(chunks), Lay(rule, anchor), from, end)
      ensures forall k | 0 <= k < |written| ::
              written[k].start in chunks && chunks[written[k].start].finish == written[k].finish
    {
      written := [];
      var cursor := from;
      ghost var laid := Lay(rule, anchor);
      ghost var goal := Emitted(grid, chunks, laid, from, end);
      while cursor < end
        invariant Valid()
        invariant goal == Emitted(grid, chunks, laid, cursor, end)
        invariant WrittenBelow(chunks, written, cursor)
        invariant (cursor == from && written == []) || grid.Boundary(cursor)
        decreases end - cursor
      {
        grid.FloorIsBoundary(cursor);
        grid.NextIsBoundary(grid.floor(cursor));
        ghost var before := chunks;
        EmittedStep(grid, chunks, laid, cursor, end);
        var grew, path := GrowChunk(rule, anchor, cursor);
        if !grew {
          return;
        }
        written := written + [path];
        cursor := grid.next(grid.floor(cursor));
      }
    }
  }

  /** Every file written so far is in place, and begins before `cursor`. */
  ghost predicate WrittenBelow(chunks: map<int, Chunk>, written: seq<Name>, cursor: int) {
    forall k | 0 <= k < |written| ::
      written[k].start in chunks && chunks[written[k].start].finish == written[k].finish && written[k].start < cursor
  }

  lemma EmittedStep(grid: Grid, chunks: map<int, Chunk>, laid: seq<Item>, cursor: int, end: int)
    requires grid.Valid() && cursor < end
    ensures var c := grid.floor(cursor);
      var items := Stored(chunks, c) + Meeting(laid, cursor, grid.next(c));
      Emitted(grid, chunks, laid, cursor, end)
      == if items == [] then chunks
         else Emitted(grid, chunks[c := ChunkFor(grid, items, c)], laid, grid.next(c), end)
  {
  }
}
