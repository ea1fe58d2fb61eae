/** The two readers of the chunk files: the overlay's merged schedule and the upcoming report. Both must
    undo the writer's slicing, straddlers and all, and recover the flat schedule. */
module Readers {
  import opened Common
  import opened Playout
  import opened OnAir
  import opened StableSort
  import opened ChunkFolder

  // ---- merging ---------------------------------------------------------------

  predicate StartsNoLater(a: Item, b: Item) {
    a.start <= b.start
  }

  ghost predicate Strict(s: seq<Item>) {
    forall i, j | 0 <= i < j < |s| :: s[i].start < s[j].start
  }

  /** Items that start together are one item, stored more than once. */
  ghost predicate Twins(s: seq<Item>) {
    forall x, y | x in s && y in s && x.start == y.start :: x == y
  }

  /** Of each run of neighbours starting together, the first. */
  function DedupByStart(s: seq<Item>): seq<Item> {
    if |s| <= 1 then s
    else
      var r := DedupByStart(s[..|s| - 1]);
      if s[|s| - 1].start == s[|s| - 2].start then r else r + [s[|s| - 1]]
  }

  /** In a sorted sequence whose last two items start apart, everything before the last starts before it. */
  lemma StrictlyLast(s: seq<Item>)
    requires SortedBy(StartsNoLater, s) && |s| > 1
    requires s[|s| - 1].start != s[|s| - 2].start
    ensures forall x <- s[..|s| - 1] :: x.start < s[|s| - 1].start
  {
    var init := s[..|s| - 1];
    forall j | 0 <= j < |init|
      ensures init[j].start < s[|s| - 1].start
    {
      assert j < |s| - 2 ==> StartsNoLater(s[j], s[|s| - 2]);
      assert StartsNoLater(s[|s| - 2], s[|s| - 1]);
    }
  }

  lemma AppendStrict(r: seq<Item>, last: Item)
    requires Strict(r) && forall x <- r :: x.start < last.start
    ensures Strict(r + [last])
  {
  }

  lemma DedupSame(s: seq<Item>)
    requires |s| > 1 && Twins(s) && s[|s| - 1].start == s[|s| - 2].start
    ensures s[|s| - 1] in s[..|s| - 1]
  {
    assert s[|s| - 1] in s && s[|s| - 2] in s && s[|s| - 2] == s[..|s| - 1][|s| - 2];
  }

  /** The last item is dropped exactly when it starts with the one before it. */
  lemma DedupLast(s: seq<Item>)
    requires |s| > 1
    ensures DedupByStart(s) == (if s[|s| - 1].start == s[|s| - 2].start then DedupByStart(s[..|s| - 1])
                                else DedupByStart(s[..|s| - 1]) + [s[|s| - 1]])
  {
  }

  lemma {:induction false} DedupStrict(s: seq<Item>)
    requires SortedBy(StartsNoLater, s) && Twins(s)
    ensures Strict(DedupByStart(s))
    ensures forall x :: x in DedupByStart(s) <==> x in s
  {
    if |s| > 1 {
      var init, last := s[..|s| - 1], s[|s| - 1];
      assert s == init + [last];
      DedupStrict(init);
      hide DedupByStart, StartsNoLater, Strict;
      DedupLast(s);
      if last.start == s[|s| - 2].start {
        DedupSame(s);
      } else {
        StrictlyLast(s);
        AppendStrict(DedupByStart(init), last);
      }
    }
  }

  ghost function Members(s: seq<Item>): set<Item> {
    set x | x in s
  }

  lemma StrictInit(s: seq<Item>)
    requires Strict(s) && s != []
    ensures Members(s[..|s| - 1]) == Members(s) - {s[|s| - 1]}
    ensures forall x <- s :: x.start <= s[|s| - 1].start
    ensures forall x <- s :: x.start == s[|s| - 1].start ==> x == s[|s| - 1]
  {
    assert s == s[..|s| - 1] + [s[|s| - 1]];
  }

  lemma SameLast(a: seq<Item>, b: seq<Item>)
    requires Strict(a) && Strict(b) && Members(a) == Members(b) && a != [] && b != []
    ensures a[|a| - 1] == b[|b| - 1]
  {
    StrictInit(a);
    StrictInit(b);
    assert a[|a| - 1] in Members(b) && b[|b| - 1] in Members(a);
  }

  lemma NoMembers(s: seq<Item>)
    ensures s == [] <==> Members(s) == {}
  {
    if s != [] {
      assert s[0] in Members(s);
    }
  }

  lemma {:induction false} StrictMembers(a: seq<Item>, b: seq<Item>)
    requires Strict(a) && Strict(b) && Members(a) == Members(b)
    ensures a == b
    decreases |a|
  {
    NoMembers(a);
    NoMembers(b);
    if a != [] {
      StrictInit(a);
      StrictInit(b);
      SameLast(a, b);
      StrictMembers(a[..|a| - 1], b[..|b| - 1]);
      assert a == a[..|a| - 1] + [a[|a| - 1]];
      assert b == b[..|b| - 1] + [b[|b| - 1]];
    }
  }

  /** Strictly ordered sequences with the same members are the same sequence. */
  lemma StrictUnique(a: seq<Item>, b: seq<Item>)
    requires Strict(a) && Strict(b)
    requires forall x :: x in a <==> x in b
    ensures a == b
  {
    assert Members(a) == Members(b);
    StrictMembers(a, b);
  }

  lemma InOrderIsStrict(s: seq<Item>)
    requires InOrder(s)
    ensures Strict(s) && Twins(s)
  {
  }

  /** The contents of the files, one after another in listing order. */
  function Concatenated(files: map<Name, seq<Item>>, names: seq<Name>): seq<Item>
    requires forall n <- names :: n in files
  {
    if names == [] then []
    else
      assert names[|names| - 1] in names;
      Concatenated(files, names[..|names| - 1]) + files[names[|names| - 1]]
  }

  lemma {:induction false} ConcatenatedMembers(files: map<Name, seq<Item>>, names: seq<Name>)
    requires forall n <- names :: n in files
    ensures forall x :: x in Concatenated(files, names) <==> exists n <- names :: x in files[n]
  {
    if names != [] {
      var init, last := names[..|names| - 1], names[|names| - 1];
      assert names == init + [last];
      ConcatenatedMembers(files, init);
    }
  }

  /** What the overlay makes of the files it loads: sorted by start, twins dropped. */
  function Merged(files: map<Name, seq<Item>>, names: seq<Name>): seq<Item>
    requires forall n <- names :: n in files
  {
    DedupByStart(Sort(StartsNoLater, Concatenated(files, names)))
  }

  /** Sorting and dropping twins recovers a strictly ordered schedule from any pile with the same members. */
  lemma SortedDedupIs(pile: seq<Item>, flat: seq<Item>)
    requires Strict(flat) && Twins(flat)
    requires forall x :: x in pile <==> x in flat
    ensures DedupByStart(Sort(StartsNoLater, pile)) == flat
  {
    var sorted := Sort(StartsNoLater, pile);
    SortSorts(StartsNoLater, pile);
    SameMembers(sorted, pile);
    DedupStrict(sorted);
    StrictUnique(DedupByStart(sorted), flat);
  }

  /** The folder's files are the chunks under their names. */
  ghost predicate Files(files: map<Name, seq<Item>>, chunks: map<int, Chunk>) {
    && (forall n :: n in files <==> n.start in chunks && chunks[n.start].finish == n.finish)
    && (forall n <- files :: files[n] == chunks[n.start].items)
  }

  /** Some file still claiming time past `now` holds any item that finishes after it. */
  lemma UnfinishedIsStored(grid: Grid, files: map<Name, seq<Item>>, chunks: map<int, Chunk>, flat: seq<Item>,
                           origin: int, x: Item, now: int) returns (n: Name)
    requires Holds(grid, chunks, flat, origin) && Files(files, chunks)
    requires x in flat && now < x.finish
    ensures n in files && now < n.finish && x in files[n]
  {
    var i :| 0 <= i < |flat| && flat[i] == x;
    var t := Max(Max(x.start, origin), now);
    ItemIsStored(grid, chunks, flat, origin, x, t);
    var c := grid.floor(t);
    n := Name(c, chunks[c].finish);
    SlotInOrder(grid, chunks, flat, origin, c);
    assert c <= t < grid.next(c);
  }

  lemma StoredIsScheduled(grid: Grid, files: map<Name, seq<Item>>, chunks: map<int, Chunk>, flat: seq<Item>,
                          origin: int, n: Name)
    requires Holds(grid, chunks, flat, origin) && Files(files, chunks) && n in files
    ensures forall x <- files[n] :: x in flat
  {
    SlotInOrder(grid, chunks, flat, origin, n.start);
  }

  /** Writing and reading undo each other: whatever order the files are loaded in, merging them yields
      exactly the flat schedule the folder holds. */
  lemma MergeRecovers(grid: Grid, files: map<Name, seq<Item>>, chunks: map<int, Chunk>, flat: seq<Item>, origin: int,
                      names: seq<Name>)
    requires Holds(grid, chunks, flat, origin) && Files(files, chunks) && Lists(files, names)
    ensures Merged(files, names) == flat
  {
    ConcatenatedMembers(files, names);
    forall x
      ensures x in Concatenated(files, names) <==> x in flat
    {
      if x in Concatenated(files, names) {
        var n :| n in names && x in files[n];
        StoredIsScheduled(grid, files, chunks, flat, origin, n);
      }
      if x in flat {
        var i :| 0 <= i < |flat| && flat[i] == x;
        var n := UnfinishedIsStored(grid, files, chunks, flat, origin, x, x.start);
      }
    }
    InOrderIsStrict(flat);
    SortedDedupIs(Concatenated(files, names), flat);
  }

  // ---- the overlay -----------------------------------------------------------

  /** What is on air, with its neighbours and how far into it the instant lies. */
  datatype Context = Unknown | Airing(item: Item, next: Option<Item>, prev: Option<Item>, elapsed: int, remaining: int)

  /** `k` is the last item to have started by `now`. */
  ghost predicate LastStarted(items: seq<Item>, k: int, now: int) {
    && 0 <= k < |items| && items[k].start <= now
    && forall j | k < j < |items| :: now < items[j].start
  }

  /** `r` reports `items[k]`, with the items on either side of it and the time on either side of `now`. */
  ghost predicate Reports(items: seq<Item>, k: nat, now: int, r: Context) {
    && r.Airing? && k < |items| && r.item == items[k]
    && (if k + 1 < |items| then r.next == Some(items[k + 1]) else r.next == None)
    && (if k > 0 then r.prev == Some(items[k - 1]) else r.prev == None)
    && r.elapsed == now - items[k].start && r.remaining == items[k].finish - now
  }

  class ProgramContextSource {
    var items: seq<Item>

    ghost predicate Valid()
      reads this
    {
      SortedBy(StartsNoLater, items)
    }

    constructor ()
      ensures Valid() && items == []
    {
      items := [];
    }

    /** Reloads the schedule from every chunk file in the folder. */
    method ReloadItems(folder: Folder)
      requires folder.Valid()
      modifies this
      ensures Valid()
      ensures exists names :: Lists(folder.files, names) && items == Merged(folder.files, names)
      ensures forall flat, origin | Holds(folder.grid, folder.chunks, flat, origin) :: items == flat
    {
      var names := folder.List();
      var all: seq<Item> := [];
      for k := 0 to |names|
        invariant all == Concatenated(folder.files, names[..k])
      {
        assert names[k] in names;
        assert names[..k + 1][..k] == names[..k];
        all := all + folder.files[names[k]];
      }
      assert names[..|names|] == names;
      var sorted := Sort(StartsNoLater, all);
      items := DedupByStart(sorted);
      SortSorts(StartsNoLater, all);
      DedupSorted(sorted);
      forall flat, origin | Holds(folder.grid, folder.chunks, flat, origin)
        ensures items == flat
      {
        MergeRecovers(folder.grid, folder.files, folder.chunks, flat, origin, names);
      }
    }

    /** The first index whose item starts after `now`. */
    method PartitionPoint(now: int) returns (after: nat)
      requires Valid()
      ensures after <= |items|
      ensures forall i | 0 <= i < after :: items[i].start <= now
      ensures forall i | after <= i < |items| :: now < items[i].start
    {
      var lo: nat, hi: nat := 0, |items|;
      while lo < hi
        invariant lo <= hi <= |items|
        invariant forall i | 0 <= i < lo :: items[i].start <= now
        invariant forall i | hi <= i < |items| :: now < items[i].start
      {
        var mid := (lo + hi) / 2;
        if items[mid].start <= now {
          assert forall i | 0 <= i < mid :: StartsNoLater(items[i], items[mid]);
          lo := mid + 1;
        } else {
          assert forall i | mid < i < |items| :: StartsNoLater(items[mid], items[i]);
          hi := mid;
        }
      }
      after := lo;
    }

    method CurrentAt(now: int) returns (r: Context)
      requires Valid()
      ensures r.Airing? ==> exists k: nat | LastStarted(items, k, now) ::
                now < items[k].finish && Reports(items, k, now, r)
      ensures r.Unknown? ==> forall k: nat | LastStarted(items, k, now) :: items[k].finish <= now
    {
      if items == [] {
        return Unknown;
      }
      var after := PartitionPoint(now);
      if after == 0 {
        return Unknown;
      }
      var idx := after - 1;
      assert LastStarted(items, idx, now);
      if now < items[idx].start || now >= items[idx].finish {
        return Unknown;
      }
      var next := if idx + 1 < |items| then Some(items[idx + 1]) else None;
      var prev := if idx > 0 then Some(items[idx - 1]) else None;
      r := Airing(items[idx], next, prev, now - items[idx].start, items[idx].finish - now);
      assert Reports(items, idx, now, r);
    }
  }

  lemma {:induction false} DedupSorted(s: seq<Item>)
    requires SortedBy(StartsNoLater, s)
    ensures SortedBy(StartsNoLater, DedupByStart(s))
    ensures forall x <- DedupByStart(s) :: x in s
  {
    if |s| > 1 {
      var init, last := s[..|s| - 1], s[|s| - 1];
      DedupSorted(init);
      var r := DedupByStart(init);
      forall k | 0 <= k < |r|
        ensures StartsNoLater(r[k], last)
      {
        assert r[k] in init;
        var j :| 0 <= j < |init| && init[j] == r[k];
        assert StartsNoLater(s[j], s[|s| - 1]);
      }
    }
  }

  /** On an in-order schedule the binary search finds what a linear scan for the instant finds: the one item
      on air, or nothing when none is. */
  lemma LastStartedIsOnAir(items: seq<Item>, now: int)
    requires InOrder(items)
    ensures forall k: nat | k < |items| ::
              items[k].start <= now < items[k].finish <==> LastStarted(items, k, now) && now < items[k].finish
  {
  }

  /** On a schedule in order, what is reported is on air; what is reported next is the first thing to start after
      `now`, what is reported before it is the last to have finished by then, and either is missing only when there is
      no such thing. */
  lemma ReportTells(items: seq<Item>, k: nat, now: int, r: Context)
    requires InOrder(items) && LastStarted(items, k, now) && now < items[k].finish && Reports(items, k, now, r)
    ensures r.item in items && r.item.start <= now < r.item.finish
    ensures r.next.Some? ==> r.next.value in items && now < r.next.value.start
    ensures r.prev.Some? ==> r.prev.value in items && r.prev.value.finish <= now
    ensures forall x <- items | now < x.start :: r.next.Some? && r.next.value.start <= x.start
    ensures forall x <- items | x.finish <= now :: r.prev.Some? && x.finish <= r.prev.value.finish
    ensures r.elapsed >= 0 && r.remaining > 0 && r.elapsed + r.remaining == r.item.finish - r.item.start
  {
    forall x <- items
      ensures now < x.start ==> k + 1 < |items| && items[k + 1].start <= x.start
      ensures x.finish <= now ==> 0 < k && x.finish <= items[k - 1].finish
    {
      var j :| 0 <= j < |items| && items[j] == x;
      assert j > k + 1 ==> items[k + 1].finish <= items[j].start && items[k + 1].start < items[k + 1].finish;
      assert j < k - 1 ==> items[j].finish <= items[k - 1].start && items[k - 1].start < items[k - 1].finish;
      assert k < j ==> items[k].finish <= items[j].start && items[j].start < items[j].finish;
    }
  }

  /** On a gapless one the three butt against each other: nothing airs between what is on and what is announced next. */
  lemma NeighboursMeet(items: seq<Item>, k: nat, now: int, r: Context)
    requires Gapless(items) && InOrder(items) && Reports(items, k, now, r)
    ensures r.next.Some? ==> r.next.value.start == r.item.finish
    ensures r.prev.Some? ==> r.prev.value.finish == r.item.start
    ensures r.next == None <==> r.item == items[|items| - 1]
    ensures r.prev == None <==> r.item == items[0]
  {
    assert 0 < k ==> items[0].start < items[0].finish <= items[k].start;
    assert k < |items| - 1 ==> items[k].start < items[k].finish <= items[|items| - 1].start;
  }

  // ---- the upcoming report ---------------------------------------------------

  /** The items still to finish, in order. */
  function Unfinished(s: seq<Item>, now: int): seq<Item> {
    if s == [] then []
    else if s[|s| - 1].finish > now then Unfinished(s[..|s| - 1], now) + [s[|s| - 1]]
    else Unfinished(s[..|s| - 1], now)
  }

  lemma {:induction false} UnfinishedMembers(s: seq<Item>, now: int)
    ensures forall x :: x in Unfinished(s, now) <==> x in s && now < x.finish
  {
    if s != [] {
      assert s == s[..|s| - 1] + [s[|s| - 1]];
      UnfinishedMembers(s[..|s| - 1], now);
    }
  }

  lemma {:induction false} UnfinishedStrict(s: seq<Item>, now: int)
    requires Strict(s)
    ensures Strict(Unfinished(s, now))
  {
    if s != [] {
      var init := s[..|s| - 1];
      UnfinishedStrict(init, now);
      UnfinishedMembers(init, now);
      var r := Unfinished(init, now);
      forall k | 0 <= k < |r|
        ensures r[k].start < s[|s| - 1].start
      {
        assert r[k] in init;
      }
    }
  }

  function FirstN(s: seq<Item>, n: nat): seq<Item> {
    if n < |s| then s[..n] else s
  }

  predicate SameKey(a: Item, b: Item) {
    a.id == b.id && a.start == b.start
  }

  predicate SeenIn(s: seq<Item>, x: Item) {
    exists k :: 0 <= k < |s| && SameKey(s[k], x)
  }

  /** Of each `(id, start)`, the first. */
  function Firsts(s: seq<Item>): seq<Item> {
    if s == [] then []
    else
      var init, last := s[..|s| - 1], s[|s| - 1];
      if SeenIn(init, last) then Firsts(init) else Firsts(init) + [last]
  }

  /** Nothing before place `i` has the same id and start. */
  ghost predicate FirstOfItsKey(s: seq<Item>, i: nat)
    requires i < |s|
  {
    forall j | 0 <= j < i :: s[j].id != s[i].id || s[j].start != s[i].start
  }

  /** `r` is what stands at `places`, ascending, which are those of every first. */
  ghost predicate StandsAtFirsts(s: seq<Item>, r: seq<Item>, places: seq<nat>) {
    && |places| == |r|
    && (forall k | 0 <= k < |places| :: places[k] < |s| && r[k] == s[places[k]])
    && (forall j, k | 0 <= j < k < |places| :: places[j] < places[k])
    && (forall i: nat | i < |s| :: i in places <==> FirstOfItsKey(s, i))
  }

  lemma LastIsFirst(s: seq<Item>)
    requires s != []
    ensures FirstOfItsKey(s, |s| - 1) <==> !SeenIn(s[..|s| - 1], s[|s| - 1])
  {
    var init, last := s[..|s| - 1], s[|s| - 1];
    if SeenIn(init, last) {
      var k :| 0 <= k < |init| && SameKey(init[k], last);
      assert s[k].id == last.id && s[k].start == last.start;
    } else {
      forall j | 0 <= j < |s| - 1
        ensures s[j].id != last.id || s[j].start != last.start
      {
        assert !SameKey(init[j], last);
      }
    }
  }

  lemma FirstsOn(s: seq<Item>, r: seq<Item>, places: seq<nat>)
    requires s != [] && StandsAtFirsts(s[..|s| - 1], r, places)
    ensures FirstOfItsKey(s, |s| - 1) ==> StandsAtFirsts(s, r + [s[|s| - 1]], places + [|s| - 1])
    ensures !FirstOfItsKey(s, |s| - 1) ==> StandsAtFirsts(s, r, places)
  {
    var n := |s| - 1;
    forall i: nat | i < n
      ensures FirstOfItsKey(s[..n], i) <==> FirstOfItsKey(s, i)
    {
    }
    assert forall k | 0 <= k < |places| :: places[k] in places;
  }

  /** What is kept is at ascending places, each the first with its id and start, and every such first is kept. */
  lemma {:induction false} FirstsAre(s: seq<Item>) returns (places: seq<nat>)
    ensures StandsAtFirsts(s, Firsts(s), places)
  {
    hide StandsAtFirsts, FirstOfItsKey, SeenIn;
    if s == [] {
      places := [];
      NothingStands();
    } else {
      places := FirstsAre(s[..|s| - 1]);
      FirstsOn(s, Firsts(s[..|s| - 1]), places);
      LastIsFirst(s);
      if FirstOfItsKey(s, |s| - 1) {
        places := places + [|s| - 1];
      }
    }
  }

  lemma NothingStands()
    ensures StandsAtFirsts([], [], [])
  {
  }

  lemma KeptOnce(s: seq<Item>, r: seq<Item>, places: seq<nat>, i: nat, j: nat)
    requires StandsAtFirsts(s, r, places) && i < j < |r|
    ensures r[i].id != r[j].id || r[i].start != r[j].start
  {
    assert places[j] in places;
    assert FirstOfItsKey(s, places[j]);
  }

  lemma KeptInOrder(s: seq<Item>, r: seq<Item>, places: seq<nat>)
    requires StandsAtFirsts(s, r, places) && SortedBy(StartsNoLater, s)
    ensures SortedBy(StartsNoLater, r)
  {
    forall i, j | 0 <= i < j < |r|
      ensures StartsNoLater(r[i], r[j])
    {
      assert StartsNoLater(s[places[i]], s[places[j]]);
    }
  }

  lemma EachKeyKept(s: seq<Item>, r: seq<Item>, places: seq<nat>, x: Item)
    requires StandsAtFirsts(s, r, places) && x in s
    ensures exists y <- r :: y.id == x.id && y.start == x.start
  {
    var i :| 0 <= i < |s| && s[i] == x;
    var k := KeptFor(s, r, places, i);
    assert r[k] in r;
  }

  lemma KeptAreThere(s: seq<Item>, r: seq<Item>, places: seq<nat>)
    requires StandsAtFirsts(s, r, places)
    ensures forall x <- r :: x in s
  {
  }

  lemma AtFirstsRetained(s: seq<Item>, r: seq<Item>, places: seq<nat>)
    requires StandsAtFirsts(s, r, places)
    ensures Retained(s, r)
  {
    hide StandsAtFirsts, SortedBy;
    KeptAreThere(s, r, places);
    forall x <- s
      ensures exists y <- r :: y.id == x.id && y.start == x.start
    {
      EachKeyKept(s, r, places, x);
    }
    forall i, j | 0 <= i < j < |r|
      ensures r[i].id != r[j].id || r[i].start != r[j].start
    {
      KeptOnce(s, r, places, i, j);
    }
    if SortedBy(StartsNoLater, s) {
      KeptInOrder(s, r, places);
    }
  }

  lemma {:induction false} KeptFor(s: seq<Item>, r: seq<Item>, places: seq<nat>, i: nat) returns (k: nat)
    requires StandsAtFirsts(s, r, places) && i < |s|
    ensures k < |r| && r[k].id == s[i].id && r[k].start == s[i].start
    decreases i
  {
    if FirstOfItsKey(s, i) {
      assert i in places;
      k :| 0 <= k < |places| && places[k] == i;
    } else {
      var j :| 0 <= j < i && s[j].id == s[i].id && s[j].start == s[i].start;
      k := KeptFor(s, r, places, j);
    }
  }

  lemma FirstsRetained(s: seq<Item>)
    ensures Retained(s, Firsts(s))
  {
    var places := FirstsAre(s);
    AtFirstsRetained(s, Firsts(s), places);
  }

  lemma FirstsStep(s: seq<Item>, k: nat, seen: set<(string, int)>)
    requires k < |s| && forall p :: p in seen <==> exists i :: 0 <= i < k && p == (s[i].id, s[i].start)
    ensures Firsts(s[..k + 1]) == if (s[k].id, s[k].start) in seen then Firsts(s[..k]) else Firsts(s[..k]) + [s[k]]
  {
    var init, longer := s[..k], s[..k + 1];
    assert longer[..|longer| - 1] == init;
    if (s[k].id, s[k].start) in seen {
      var i :| 0 <= i < k && (s[k].id, s[k].start) == (s[i].id, s[i].start);
      assert SameKey(init[i], s[k]);
    } else {
      forall i | 0 <= i < k
        ensures !SameKey(init[i], s[k])
      {
        assert (s[i].id, s[i].start) in seen;
      }
    }
  }

  /** Keeps the first of each `(id, start)`. */
  method RetainUnseen(s: seq<Item>) returns (r: seq<Item>)
    ensures r == Firsts(s)
    ensures Retained(s, r)
  {
    hide Firsts, Retained;
    r := [];
    var seen: set<(string, int)> := {};
    assert s[..0] == [];
    NothingFirst();
    for k := 0 to |s|
      invariant r == Firsts(s[..k])
      invariant forall p :: p in seen <==> exists i :: 0 <= i < k && p == (s[i].id, s[i].start)
    {
      FirstsStep(s, k, seen);
      var key := (s[k].id, s[k].start);
      if key !in seen {
        r := r + [s[k]];
      }
      seen := seen + {key};
    }
    assert s[..|s|] == s;
    FirstsRetained(s);
  }

  lemma NothingFirst()
    ensures Firsts([]) == []
  {
  }

  method Upcoming(folder: Folder, now: int, next: nat) returns (report: seq<Item>)
    requires folder.Valid()
    ensures |report| <= next
    ensures forall flat, origin | Holds(folder.grid, folder.chunks, flat, origin) ::
              report == FirstN(Unfinished(flat, now), next)
  {
    var names := folder.Scan();
    var items: seq<Item> := [];
    for k := 0 to |names|
      invariant Collected(folder.files, names, k, items, now)
    {
      assert names[k] in names;
      if names[k].finish > now {
        var found := folder.files[names[k]];
        items := items + Unfinished(found, now);
        UnfinishedMembers(found, now);
      }
    }
    var sorted := Sort(StartsNoLater, items);
    SortSorts(StartsNoLater, items);
    SameMembers(sorted, items);
    var kept := RetainUnseen(sorted);
    report := FirstN(kept, next);
    forall flat, origin | Holds(folder.grid, folder.chunks, flat, origin)
      ensures kept == Unfinished(flat, now)
    {
      ReportIs(folder.grid, folder.files, folder.chunks, flat, origin, names, items, sorted, kept, now);
    }
  }

  /** `pile` is what a scan collects: the unfinished items of every file whose name is not finished. */
  ghost predicate Collected(files: map<Name, seq<Item>>, names: seq<Name>, upTo: nat, pile: seq<Item>, now: int)
    requires upTo <= |names| && forall n <- names :: n in files
  {
    forall x :: x in pile <==>
      exists i :: 0 <= i < upTo && names[i] in names && now < names[i].finish && x in files[names[i]] && now < x.finish
  }

  /** `kept` is `sorted` with every item after the first of its `(id, start)` dropped. */
  ghost predicate Retained(sorted: seq<Item>, kept: seq<Item>) {
    && (forall x <- kept :: x in sorted)
    && (forall x <- sorted :: exists y <- kept :: y.id == x.id && y.start == x.start)
    && (forall i, j | 0 <= i < j < |kept| :: kept[i].id != kept[j].id || kept[i].start != kept[j].start)
    && (SortedBy(StartsNoLater, sorted) ==> SortedBy(StartsNoLater, kept))
  }

  lemma ReportIs(grid: Grid, files: map<Name, seq<Item>>, chunks: map<int, Chunk>, flat: seq<Item>, origin: int,
                 names: seq<Name>, pile: seq<Item>, sorted: seq<Item>, kept: seq<Item>, now: int)
    requires Holds(grid, chunks, flat, origin) && Files(files, chunks) && Lists(files, names)
    requires Collected(files, names, |names|, pile, now)
    requires SortedBy(StartsNoLater, sorted) && forall x :: x in sorted <==> x in pile
    requires Retained(sorted, kept)
    ensures kept == Unfinished(flat, now)
  {
    PileIsUnfinished(grid, files, chunks, flat, origin, names, pile, now);
    KeptIs(sorted, kept, Unfinished(flat, now));
  }

  /** Skipping whole files by the finish in their name loses nothing that is still to finish. */
  lemma PileIsUnfinished(grid: Grid, files: map<Name, seq<Item>>, chunks: map<int, Chunk>, flat: seq<Item>, origin: int,
                         names: seq<Name>, pile: seq<Item>, now: int)
    requires Holds(grid, chunks, flat, origin) && Files(files, chunks) && Lists(files, names)
    requires Collected(files, names, |names|, pile, now)
    ensures forall x :: x in pile <==> x in Unfinished(flat, now)
    ensures Strict(Unfinished(flat, now)) && Twins(Unfinished(flat, now))
  {
    InOrderIsStrict(flat);
    UnfinishedMembers(flat, now);
    UnfinishedStrict(flat, now);
    forall x
      ensures x in pile <==> x in flat && now < x.finish
    {
      if x in pile {
        var i :| 0 <= i < |names| && names[i] in names && now < names[i].finish
                 && x in files[names[i]] && now < x.finish;
        StoredIsScheduled(grid, files, chunks, flat, origin, names[i]);
      }
      if x in flat && now < x.finish {
        var n := UnfinishedIsStored(grid, files, chunks, flat, origin, x, now);
        var i :| 0 <= i < |names| && names[i] == n;
        assert names[i] in names;
      }
    }
  }

  /** Dropping repeats from a sorted pile of twins leaves the strictly ordered schedule. */
  lemma KeptIs(sorted: seq<Item>, kept: seq<Item>, flat: seq<Item>)
    requires SortedBy(StartsNoLater, sorted) && Retained(sorted, kept)
    requires forall x :: x in sorted <==> x in flat
    requires Strict(flat) && Twins(flat)
    ensures kept == flat
  {
    forall i, j | 0 <= i < j < |kept|
      ensures kept[i].start < kept[j].start
    {
      assert StartsNoLater(kept[i], kept[j]);
      assert kept[i] in flat && kept[j] in flat;
    }
    forall x
      ensures x in kept <==> x in flat
    {
      if x in flat {
        var y :| y in kept && y.id == x.id && y.start == x.start;
        assert y in flat;
      }
    }
    StrictUnique(kept, flat);
  }
}
