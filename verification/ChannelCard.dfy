/** What a channel airs when its own loop has died: cards laid after everything written, and taken back
    out item by item when it recovers. */
module ChannelCard {
  import opened Common
  import opened Playout
  import opened EmitLaws
  import opened OnAir
  import opened ChunkFolder
  import opened Readers

  /** How long one card runs, in nanoseconds. */
  const CARD_SEGMENT: nat := 300_000_000_000
  const CARD_ID_PREFIX := "etv-station-channel-card"

  predicate IsCard(x: Item) {
    CARD_ID_PREFIX <= x.id
  }

  /** A card is told by the front of its id. */
  lemma IsCardIff(x: Item)
    ensures IsCard(x) <==> |x.id| >= 24 && x.id[..24] == "etv-station-channel-card"
  {
    assert |CARD_ID_PREFIX| == 24;
    if IsCard(x) {
      assert x.id[..24] == CARD_ID_PREFIX;
    }
  }

  function Decimal(n: nat): string {
    var digit := [('0' as int + n % 10) as char];
    if n < 10 then digit else Decimal(n / 10) + digit
  }

  /** `count` identical cards, numbered. */
  function CardRule(count: nat, reason: string): (r: seq<Program>)
    ensures |r| == count && Positive(r)
  {
    seq(count, i requires 0 <= i < count => Program(CARD_ID_PREFIX + "-" + Decimal(i), CARD_SEGMENT, reason))
  }

  /** Segments needed to span `length`. */
  function SegmentsFor(length: nat): (n: nat)
    ensures length <= n * CARD_SEGMENT < length + CARD_SEGMENT
  {
    (length + CARD_SEGMENT - 1) / CARD_SEGMENT
  }

  lemma {:induction false} CardTotal(count: nat, reason: string)
    ensures Total(CardRule(count, reason)) == count * CARD_SEGMENT
  {
    if count > 0 {
      assert CardRule(count, reason)[..count - 1] == CardRule(count - 1, reason);
      CardTotal(count - 1, reason);
    }
  }

  lemma {:induction false} CardsAreCards(count: nat, reason: string, at: int)
    ensures forall x <- Lay(CardRule(count, reason), at) :: IsCard(x)
  {
    if count > 0 {
      assert CardRule(count, reason)[..count - 1] == CardRule(count - 1, reason);
      CardsAreCards(count - 1, reason, at);
      var id := CARD_ID_PREFIX + "-" + Decimal(count - 1);
      assert CARD_ID_PREFIX <= id;
    }
  }

  // ---- covering --------------------------------------------------------------

  function Frontier(flat: seq<Item>): Option<int> {
    if flat == [] then None else Some(flat[|flat| - 1].finish)
  }

  /** Where the next card run begins: after everything written, and never in the past. */
  function CardsFrom(frontier: Option<int>, now: int): int {
    match frontier
    case None => now
    case Some(end) => Max(end, now)
  }

  /** The card run that fills the schedule up to `now + window`. */
  function CardRun(from: int, now: int, window: nat, reason: string): seq<Item>
    requires from < now + window
  {
    Lay(CardRule(SegmentsFor(now + window - from), reason), from)
  }

  /** The run is gapless, made of cards alone, starts at `from` and reaches the end of the window. */
  lemma CardRunCovers(from: int, now: int, window: nat, reason: string)
    requires from < now + window
    ensures var run := CardRun(from, now, window, reason);
      && run != [] && InOrder(run) && Gapless(run) && run[0].start == from
      && now + window <= run[|run| - 1].finish < now + window + CARD_SEGMENT
    ensures forall x <- CardRun(from, now, window, reason) :: IsCard(x) && from <= x.start
  {
    hide Lay, Total, CardRule, SegmentsFor, InOrder, Gapless, IsCard;
    var n := SegmentsFor(now + window - from);
    CardTotal(n, reason);
    CardsAreCards(n, reason, from);
    LayBounds(CardRule(n, reason), from);
    LayInOrder(CardRule(n, reason), from);
  }

  /** The latest finish among the names before the last, or the last one's own when it is alone. */
  method LatestName(names: seq<Name>) returns (latest: int)
    requires names != []
    ensures exists j | 0 <= j < |names| :: latest == names[j].finish
    ensures forall j | 0 <= j < |names| - 1 :: names[j].finish <= latest
  {
    latest := names[|names| - 1].finish;
    for k := 0 to |names| - 1
      invariant if k == 0 then latest == names[|names| - 1].finish
                else exists j | 0 <= j < k :: latest == names[j].finish
      invariant forall j | 0 <= j < k :: names[j].finish <= latest
    {
      if k == 0 || names[k].finish > latest {
        latest := names[k].finish;
      }
    }
  }

  /** The latest finish among `items`, when that is past `claimed`. */
  method LatestItem(items: seq<Item>, claimed: int) returns (latest: int)
    ensures claimed <= latest
    ensures latest == claimed || exists x <- items :: latest == x.finish
    ensures forall x <- items :: x.finish <= latest
  {
    latest := claimed;
    for k := 0 to |items|
      invariant claimed <= latest
      invariant latest == claimed || exists x <- items[..k] :: latest == x.finish
      invariant forall x <- items[..k] :: x.finish <= latest
    {
      assert items[..k + 1] == items[..k] + [items[k]];
      if items[k].finish > latest {
        latest := items[k].finish;
      }
    }
    assert items[..|items|] == items;
  }

  /** The furthest instant any file reaches: names speak for every file but the last, which is opened. */
  method HighestFinish(folder: Folder) returns (r: Option<int>)
    requires folder.Valid()
    ensures forall flat, origin | Holds(folder.grid, folder.chunks, flat, origin) :: r == Frontier(flat)
  {
    var names := folder.Scan();
    if names == [] {
      forall flat, origin | Holds(folder.grid, folder.chunks, flat, origin)
        ensures flat == []
      {
        NoFilesNoSchedule(folder.grid, folder.files, folder.chunks, flat, origin, names);
      }
      return None;
    }
    var last := names[|names| - 1];
    assert last in names;
    var latest := LatestName(names);
    var lastFinish := LatestItem(folder.files[last], last.finish);
    r := Some(Max(latest, lastFinish));
    forall flat, origin | Holds(folder.grid, folder.chunks, flat, origin)
      ensures r == Frontier(flat)
    {
      FrontierIs(folder.grid, folder.files, folder.chunks, flat, origin, names, latest, lastFinish);
    }
  }

  lemma FrontierIs(grid: Grid, files: map<Name, seq<Item>>, chunks: map<int, Chunk>, flat: seq<Item>,
                   origin: int, names: seq<Name>, latest: int, lastFinish: int)
    requires Holds(grid, chunks, flat, origin) && Files(files, chunks) && Lists(files, names) && names != []
    requires forall i, j | 0 <= i < j < |names| :: names[i].start < names[j].start
    requires names[|names| - 1] in files
    requires exists j | 0 <= j < |names| :: latest == names[j].finish
    requires var items, claimed := files[names[|names| - 1]], names[|names| - 1].finish;
      && (lastFinish == claimed || exists x <- items :: lastFinish == x.finish)
      && (forall x <- items :: x.finish <= lastFinish)
    ensures flat != [] && Max(latest, lastFinish) == flat[|flat| - 1].finish
  {
    LastFileReachesFrontier(grid, files, chunks, flat, origin, names);
  }

  lemma NoFilesNoSchedule(grid: Grid, files: map<Name, seq<Item>>, chunks: map<int, Chunk>, flat: seq<Item>,
                          origin: int, names: seq<Name>)
    requires Holds(grid, chunks, flat, origin) && Files(files, chunks) && Lists(files, names)
    ensures names == [] <==> flat == []
  {
    if flat != [] {
      var x := flat[0];
      assert x in flat;
      ItemIsStored(grid, chunks, flat, origin, x, Max(x.start, origin));
      var c := grid.floor(Max(x.start, origin));
      assert Name(c, chunks[c].finish) in files;
    } else if names != [] {
      assert names[0] in names;
      SlotInOrder(grid, chunks, flat, origin, names[0].start);
    }
  }

  /** No name and no stored item outruns the schedule. */
  lemma NothingPastFrontier(grid: Grid, files: map<Name, seq<Item>>, chunks: map<int, Chunk>, flat: seq<Item>,
                            origin: int, n: Name)
    requires Holds(grid, chunks, flat, origin) && Files(files, chunks) && n in files
    ensures flat != [] && n.finish <= flat[|flat| - 1].finish
    ensures forall x <- files[n] :: x.finish <= flat[|flat| - 1].finish
  {
    SlotInOrder(grid, chunks, flat, origin, n.start);
    var items := files[n];
    assert items[0] in items && items[|items| - 1] in items;
    LastFinishesLast(flat);
  }

  lemma LastIsStored(grid: Grid, files: map<Name, seq<Item>>, chunks: map<int, Chunk>, flat: seq<Item>, origin: int)
    returns (n: Name)
    requires Holds(grid, chunks, flat, origin) && Files(files, chunks) && flat != []
    ensures n in files && n.start == grid.floor(flat[|flat| - 1].finish - 1) && flat[|flat| - 1] in files[n]
  {
    var end := flat[|flat| - 1];
    assert end in flat;
    ItemIsStored(grid, chunks, flat, origin, end, end.finish - 1);
    var c := grid.floor(end.finish - 1);
    n := Name(c, chunks[c].finish);
  }

  /** The last file holds the schedule's last item. */
  lemma LastFileReachesFrontier(grid: Grid, files: map<Name, seq<Item>>, chunks: map<int, Chunk>, flat: seq<Item>,
                                origin: int, names: seq<Name>)
    requires Holds(grid, chunks, flat, origin) && Files(files, chunks) && Lists(files, names) && names != []
    requires forall i, j | 0 <= i < j < |names| :: names[i].start < names[j].start
    ensures flat != []
    ensures forall i | 0 <= i < |names| :: names[i].finish <= flat[|flat| - 1].finish
    ensures names[|names| - 1] in files
    ensures forall x <- files[names[|names| - 1]] :: x.finish <= flat[|flat| - 1].finish
    ensures flat[|flat| - 1] in files[names[|names| - 1]]
  {
    hide Holds;
    var top := names[|names| - 1];
    assert top in names;
    NothingPastFrontier(grid, files, chunks, flat, origin, top);
    forall i | 0 <= i < |names|
      ensures names[i].finish <= flat[|flat| - 1].finish
    {
      assert names[i] in names;
      NothingPastFrontier(grid, files, chunks, flat, origin, names[i]);
    }
    var n := LastIsStored(grid, files, chunks, flat, origin);
    assert n in names;
    var i :| 0 <= i < |names| && names[i] == n;
    assert top.start in chunks;
    TopSlot(grid, chunks, flat, origin, top.start);
    assert i == |names| - 1;
  }

  /** No slot later than the one the schedule ends in holds anything. */
  lemma TopSlot(grid: Grid, chunks: map<int, Chunk>, flat: seq<Item>, origin: int, d: int)
    requires Holds(grid, chunks, flat, origin) && flat != [] && d in chunks
    ensures d <= grid.floor(flat[|flat| - 1].finish - 1)
  {
    SlotInOrder(grid, chunks, flat, origin, d);
    var x := chunks[d].items[0];
    assert x in chunks[d].items;
    LastFinishesLast(flat);
    FloorMonotone(grid, d, flat[|flat| - 1].finish - 1);
  }

  /** Fills the span between the end of everything written and `now + window` with cards. */
  method CoverAfterWritten(folder: Folder, reason: string, now: int, window: nat) returns (r: Option<int>)
    requires folder.Valid()
    modifies folder
    ensures folder.Valid()
    ensures forall flat, origin | Holds(folder.grid, old(folder.chunks), flat, origin) ::
              CoverStep(folder.grid, old(folder.chunks), folder.chunks, flat, reason, now, window, r)
  {
    hide Holds, Emitted;
    ghost var before := folder.chunks;
    var highest := HighestFinish(folder);
    var from := CardsFrom(highest, now);
    var target := now + window;
    if from >= target {
      return None;
    }
    var count := SegmentsFor(target - from);
    var written := folder.EmitWindow(CardRule(count, reason), from, from, from + count * CARD_SEGMENT);
    r := Some(from);
    assert Wrote(folder.grid, before, folder.chunks, from, now, window, reason);
    forall flat, origin | Holds(folder.grid, before, flat, origin)
      ensures CoverStep(folder.grid, before, folder.chunks, flat, reason, now, window, r)
    {
      WroteIsStep(folder.grid, before, folder.chunks, flat, highest, now, window, reason);
    }
  }

  /** One card run has been emitted from `from`. */
  ghost predicate Wrote(grid: Grid, before: map<int, Chunk>, after: map<int, Chunk>, from: int, now: int, window: nat,
                        reason: string)
    requires grid.Valid()
  {
    from < now + window
    && after == Emitted(grid, before, CardRun(from, now, window, reason), from, RunEnd(from, now, window))
  }

  lemma WroteIsStep(grid: Grid, before: map<int, Chunk>, after: map<int, Chunk>, flat: seq<Item>, highest: Option<int>,
                    now: int, window: nat, reason: string)
    requires grid.Valid() && highest == Frontier(flat)
    requires Wrote(grid, before, after, CardsFrom(highest, now), now, window, reason)
    ensures CoverStep(grid, before, after, flat, reason, now, window, Some(CardsFrom(highest, now)))
  {
  }

  /** One refresh, seen from outside: nothing when the schedule already reaches past the window, else one
      card run emitted from the end of it. */
  ghost predicate CoverStep(grid: Grid, before: map<int, Chunk>, after: map<int, Chunk>, flat: seq<Item>,
                            reason: string, now: int, window: nat, r: Option<int>)
    requires grid.Valid()
  {
    var from := CardsFrom(Frontier(flat), now);
    if from >= now + window then r == None && after == before
    else
      && r == Some(from)
      && after == Emitted(grid, before, CardRun(from, now, window, reason), from, RunEnd(from, now, window))
  }

  /** The schedule after a refresh. */
  ghost function CoveredFlat(flat: seq<Item>, reason: string, now: int, window: nat): seq<Item> {
    var from := CardsFrom(Frontier(flat), now);
    if from >= now + window then flat else flat + CardRun(from, now, window, reason)
  }

  lemma EndsBeforeCards(flat: seq<Item>, now: int)
    requires InOrder(flat)
    ensures forall x <- flat :: x.finish <= CardsFrom(Frontier(flat), now)
  {
    if flat != [] {
      LastFinishesLast(flat);
    }
  }

  /** Cards go after everything real, never over it: the folder then holds the old schedule followed by the run. */
  lemma CoverKeepsSchedule(grid: Grid, before: map<int, Chunk>, after: map<int, Chunk>, flat: seq<Item>, origin: int,
                           reason: string, now: int, window: nat, r: Option<int>) returns (at: int)
    requires Holds(grid, before, flat, origin)
    requires CoverStep(grid, before, after, flat, reason, now, window, r)
    ensures Holds(grid, after, CoveredFlat(flat, reason, now, window), at)
    ensures flat != [] ==> at == origin
  {
    var from := CardsFrom(Frontier(flat), now);
    at := if from >= now + window then origin else OriginAfter(grid, flat, origin, from);
    if from < now + window {
      var run := CardRun(from, now, window, reason);
      RunJoins(flat, from, now, window, reason);
      RunExtends(grid, before, flat, origin, run, from, RunEnd(from, now, window), after, flat + run);
    }
  }

  /** Where the card run ends: the last card is laid whole. */
  function RunEnd(from: int, now: int, window: nat): int
    requires from < now + window
  {
    from + SegmentsFor(now + window - from) * CARD_SEGMENT
  }

  lemma RunJoins(flat: seq<Item>, from: int, now: int, window: nat, reason: string)
    requires InOrder(flat) && from == CardsFrom(Frontier(flat), now) < now + window
    ensures var run := CardRun(from, now, window, reason);
      Joins(flat, run, from, RunEnd(from, now, window)) && Meeting(run, from, RunEnd(from, now, window)) == run
  {
    var n := SegmentsFor(now + window - from);
    CardTotal(n, reason);
    EndsBeforeCards(flat, now);
    RuleJoins(flat, CardRule(n, reason), from, RunEnd(from, now, window));
  }

  lemma RunExtends(grid: Grid, before: map<int, Chunk>, flat: seq<Item>, origin: int, run: seq<Item>, from: int,
                   end: int, after: map<int, Chunk>, longer: seq<Item>)
    requires Holds(grid, before, flat, origin)
    requires Joins(flat, run, from, end) && Meeting(run, from, end) == run
    requires after == Emitted(grid, before, run, from, end)
    requires longer == flat + run
    ensures Holds(grid, after, longer, OriginAfter(grid, flat, origin, from))
  {
    EmitHolds(grid, before, flat, run, from, end, origin);
  }

  // ---- wiping ----------------------------------------------------------------

  /** A card at or after `from`: what a recovering channel takes back out. */
  predicate Wipes(x: Item, from: int) {
    IsCard(x) && x.start >= from
  }

  function Survivors(s: seq<Item>, from: int): seq<Item> {
    if s == [] then []
    else
      var init, last := s[..|s| - 1], s[|s| - 1];
      if Wipes(last, from) then Survivors(init, from) else Survivors(init, from) + [last]
  }

  /** A file is opened only when its name reaches past `from`, and rewritten only when it loses a card. */
  predicate Loses(ch: Chunk, from: int) {
    ch.finish > from && |Survivors(ch.items, from)| != |ch.items|
  }

  /** What a file becomes: named by the last item it keeps. */
  function Rewritten(ch: Chunk, from: int): Chunk
    requires Loses(ch, from) ==> Survivors(ch.items, from) != []
  {
    if Loses(ch, from) then
      var kept := Survivors(ch.items, from);
      Chunk(kept[|kept| - 1].finish, kept)
    else ch
  }

  /** The folder after a wipe: files that lose everything are gone, the others hold what survives. */
  ghost function Wiped(chunks: map<int, Chunk>, from: int): map<int, Chunk> {
    map c | c in chunks && (Loses(chunks[c], from) ==> Survivors(chunks[c].items, from) != []) ::
      Rewritten(chunks[c], from)
  }

  lemma {:induction false} SurvivorsMembers(s: seq<Item>, from: int)
    ensures forall x :: x in Survivors(s, from) <==> x in s && !Wipes(x, from)
    ensures |Survivors(s, from)| <= |s|
    ensures |Survivors(s, from)| == |s| ==> Survivors(s, from) == s
  {
    if s != [] {
      var init, last := s[..|s| - 1], s[|s| - 1];
      assert s == init + [last];
      SurvivorsMembers(init, from);
    }
  }

  /** Filtering a slot and slicing the filtered schedule are the same. */
  lemma {:induction false} SurvivorsOfSlot(s: seq<Item>, from: int, lo: int, hi: int)
    ensures Survivors(Meeting(s, lo, hi), from) == Meeting(Survivors(s, from), lo, hi)
  {
    if s != [] {
      var init, last := s[..|s| - 1], s[|s| - 1];
      SurvivorsOfSlot(init, from, lo, hi);
      assert (Meeting(init, lo, hi) + [last])[..|Meeting(init, lo, hi)|] == Meeting(init, lo, hi);
      assert (Survivors(init, from) + [last])[..|Survivors(init, from)|] == Survivors(init, from);
    }
  }

  lemma InitEndsBefore(s: seq<Item>)
    requires InOrder(s) && s != []
    ensures var init, last := s[..|s| - 1], s[|s| - 1];
      InOrder(init) && last.start < last.finish && forall x <- init :: x.finish <= last.start
  {
    var init := s[..|s| - 1];
    assert forall k | 0 <= k < |init| :: init[k] == s[k];
  }

  lemma {:induction false} SurvivorsInOrder(s: seq<Item>, from: int)
    requires InOrder(s)
    ensures InOrder(Survivors(s, from))
  {
    hide InOrder;
    if s == [] {
      assert Survivors(s, from) == s;
    } else {
      var init, last := s[..|s| - 1], s[|s| - 1];
      InitEndsBefore(s);
      SurvivorsInOrder(init, from);
      SurvivorsMembers(init, from);
      SurvivorsStep(s, from);
      InOrderOn(Survivors(init, from), last);
    }
  }

  lemma SurvivorsStep(s: seq<Item>, from: int)
    requires s != []
    ensures var r := Survivors(s[..|s| - 1], from); Survivors(s, from) == r || Survivors(s, from) == r + [s[|s| - 1]]
  {
  }

  lemma InOrderOn(r: seq<Item>, last: Item)
    requires InOrder(r) && last.start < last.finish && forall x <- r :: x.finish <= last.start
    ensures InOrder(r + [last])
  {
    assert forall k | 0 <= k < |r| :: r[k] in r;
  }

  /** No file that loses a card keeps, last, an item running past its own slot. */
  ghost predicate KeepsWithinSlots(grid: Grid, chunks: map<int, Chunk>, from: int) {
    forall c <- chunks | Loses(chunks[c], from) ::
      var kept := Survivors(chunks[c].items, from);
      kept != [] ==> kept[|kept| - 1].finish <= grid.next(c)
  }

  /** A file whose name ends by `from` holds nothing to wipe. */
  lemma UnopenedLosesNothing(grid: Grid, chunks: map<int, Chunk>, flat: seq<Item>, origin: int, c: int, from: int)
    requires Holds(grid, chunks, flat, origin) && c in chunks
    ensures !Loses(chunks[c], from) ==> Survivors(chunks[c].items, from) == chunks[c].items
  {
    SlotInOrder(grid, chunks, flat, origin, c);
    var items := chunks[c].items;
    SurvivorsMembers(items, from);
    if chunks[c].finish <= from {
      assert forall x <- items :: x.start < x.finish && x.start < chunks[c].finish;
      NoneWiped(items, from);
    }
  }

  lemma {:induction false} NoneWiped(s: seq<Item>, from: int)
    requires forall x <- s :: !Wipes(x, from)
    ensures Survivors(s, from) == s
  {
    if s != [] {
      assert s[|s| - 1] in s;
      NoneWiped(s[..|s| - 1], from);
    }
  }

  /** What a wipe makes of one file. */
  lemma WipedFile(chunks: map<int, Chunk>, from: int, c: int, kept: seq<Item>)
    requires c in chunks && kept == Survivors(chunks[c].items, from)
    requires chunks[c].items != [] && (!Loses(chunks[c], from) ==> kept == chunks[c].items)
    ensures c in Wiped(chunks, from) <==> kept != []
    ensures kept != [] ==>
              Wiped(chunks, from)[c]
              == (if Loses(chunks[c], from) then Chunk(kept[|kept| - 1].finish, kept) else chunks[c])
  {
  }

  /** A slot's share of what survives is what survives of its file. */
  lemma ShareSurvives(grid: Grid, chunks: map<int, Chunk>, flat: seq<Item>, origin: int, from: int, c: int)
    requires Holds(grid, chunks, flat, origin) && grid.Boundary(c) && origin <= c
    ensures Meeting(Survivors(flat, from), c, grid.next(c)) == Survivors(Stored(chunks, c), from)
  {
    SurvivorsOfSlot(flat, from, c, grid.next(c));
    assert Shares(grid, flat)(c) == Stored(chunks, c);
  }

  /** The wiped file is the one emission would write for its share, unless it lost a card and keeps, last, an
      item running past its slot. */
  lemma WipedFits(grid: Grid, chunks: map<int, Chunk>, flat: seq<Item>, origin: int, from: int, c: int)
    requires Holds(grid, chunks, flat, origin) && c in chunks
    ensures var kept := Survivors(chunks[c].items, from);
      && (c in Wiped(chunks, from) <==> kept != [])
      && (kept != [] ==>
           (Wiped(chunks, from)[c] == ChunkFor(grid, kept, c)
            <==> !Loses(chunks[c], from) || kept[|kept| - 1].finish <= grid.next(c)))
  {
    SlotInOrder(grid, chunks, flat, origin, c);
    UnopenedLosesNothing(grid, chunks, flat, origin, c, from);
    WipedFile(chunks, from, c, Survivors(chunks[c].items, from));
  }

  /** Wiping leaves the folder holding exactly the surviving schedule if and only if no file that loses a card
      keeps, last, an item running past its own slot: rewriting names a file by that item's own finish, where
      emission would have stopped at the slot's end. */
  lemma WipeHoldsIff(grid: Grid, chunks: map<int, Chunk>, flat: seq<Item>, origin: int, from: int)
    requires Holds(grid, chunks, flat, origin)
    ensures Holds(grid, Wiped(chunks, from), Survivors(flat, from), origin) <==> KeepsWithinSlots(grid, chunks, from)
  {
    SurvivorsInOrder(flat, from);
    SurvivorsMembers(flat, from);
    if KeepsWithinSlots(grid, chunks, from) {
      WipedIsTable(grid, chunks, flat, origin, from);
    }
    if Table(grid, Wiped(chunks, from), origin, Shares(grid, Survivors(flat, from))) {
      TableKeepsWithin(grid, chunks, flat, origin, from);
    }
  }

  lemma WipedEntry(grid: Grid, chunks: map<int, Chunk>, flat: seq<Item>, origin: int, from: int, c: int)
    requires Holds(grid, chunks, flat, origin) && KeepsWithinSlots(grid, chunks, from)
    ensures EntryFits(grid, Wiped(chunks, from), origin, Shares(grid, Survivors(flat, from)), c)
  {
    if c in chunks {
      ShareSurvives(grid, chunks, flat, origin, from, c);
      WipedFits(grid, chunks, flat, origin, from, c);
    } else if grid.Boundary(c) && origin <= c {
      ShareSurvives(grid, chunks, flat, origin, from, c);
    }
  }

  lemma WipedIsTable(grid: Grid, chunks: map<int, Chunk>, flat: seq<Item>, origin: int, from: int)
    requires Holds(grid, chunks, flat, origin) && KeepsWithinSlots(grid, chunks, from)
    ensures Table(grid, Wiped(chunks, from), origin, Shares(grid, Survivors(flat, from)))
  {
    forall c: int
      ensures EntryFits(grid, Wiped(chunks, from), origin, Shares(grid, Survivors(flat, from)), c)
    {
      WipedEntry(grid, chunks, flat, origin, from, c);
    }
    TableFrom(grid, Wiped(chunks, from), origin, Shares(grid, Survivors(flat, from)));
  }

  lemma TableKeepsWithin(grid: Grid, chunks: map<int, Chunk>, flat: seq<Item>, origin: int, from: int)
    requires Holds(grid, chunks, flat, origin)
    requires Table(grid, Wiped(chunks, from), origin, Shares(grid, Survivors(flat, from)))
    ensures KeepsWithinSlots(grid, chunks, from)
  {
    forall c <- chunks | Loses(chunks[c], from)
      ensures var kept := Survivors(chunks[c].items, from); kept != [] ==> kept[|kept| - 1].finish <= grid.next(c)
    {
      ShareSurvives(grid, chunks, flat, origin, from, c);
      WipedFits(grid, chunks, flat, origin, from, c);
    }
  }

  /** Everything from some point of the schedule on is wiped, and nothing before it is. */
  ghost predicate CardsTrail(flat: seq<Item>, from: int, n: nat) {
    && n <= |flat|
    && (forall k | 0 <= k < n :: !Wipes(flat[k], from))
    && (forall k | n <= k < |flat| :: Wipes(flat[k], from))
  }

  lemma {:induction false} TrailSurvivors(flat: seq<Item>, from: int, n: nat)
    requires CardsTrail(flat, from, n)
    ensures Survivors(flat, from) == flat[..n]
    decreases |flat|
  {
    if |flat| > n {
      TrailSurvivors(flat[..|flat| - 1], from, n);
      assert flat[..|flat| - 1][..n] == flat[..n];
    } else {
      assert flat[..n] == flat;
      assert forall x <- flat :: !Wipes(x, from);
      NoneWiped(flat, from);
    }
  }

  /** Cards are written after everything real, so what they are wiped from ends before they begin. */
  lemma TrailKeepsWithinSlots(grid: Grid, chunks: map<int, Chunk>, flat: seq<Item>, origin: int, from: int, n: nat)
    requires Holds(grid, chunks, flat, origin) && CardsTrail(flat, from, n)
    ensures KeepsWithinSlots(grid, chunks, from)
  {
    forall c <- chunks | Loses(chunks[c], from)
      ensures var kept := Survivors(chunks[c].items, from); kept != [] ==> kept[|kept| - 1].finish <= grid.next(c)
    {
      var items := chunks[c].items;
      var kept := Survivors(items, from);
      SlotInOrder(grid, chunks, flat, origin, c);
      SurvivorsMembers(items, from);
      if kept != [] {
        if forall x <- items :: !Wipes(x, from) {
          NoneWiped(items, from);
        }
        var lost :| lost in items && Wipes(lost, from);
        var last := kept[|kept| - 1];
        assert last in kept;
        BeforeTrail(flat, from, n, last, lost);
      }
    }
  }

  lemma BeforeTrail(flat: seq<Item>, from: int, n: nat, kept: Item, lost: Item)
    requires InOrder(flat) && CardsTrail(flat, from, n)
    requires kept in flat && !Wipes(kept, from) && lost in flat && Wipes(lost, from)
    ensures kept.finish <= lost.start
  {
    var i :| 0 <= i < |flat| && flat[i] == kept;
    var j :| 0 <= j < |flat| && flat[j] == lost;
    assert i < n <= j;
  }

  /** The stored copies a wipe takes out of the files it opens, by chunk and position. */
  ghost function LostFrom(chunks: map<int, Chunk>, from: int): set<(int, int)> {
    set c, k | c in chunks && chunks[c].finish > from
               && 0 <= k < |chunks[c].items| && Wipes(chunks[c].items[k], from) :: (c, k)
  }

  ghost function LostAt(c: int, items: seq<Item>, from: int): set<(int, int)> {
    set k | 0 <= k < |items| && Wipes(items[k], from) :: (c, k)
  }

  lemma {:induction false} LostIsDifference(c: int, items: seq<Item>, from: int)
    ensures |LostAt(c, items, from)| + |Survivors(items, from)| == |items|
  {
    if items == [] {
      assert LostAt(c, items, from) == {};
    } else {
      var init, n := items[..|items| - 1], |items| - 1;
      LostIsDifference(c, init, from);
      if Wipes(items[n], from) {
        assert LostAt(c, items, from) == LostAt(c, init, from) + {(c, n)};
      } else {
        assert LostAt(c, items, from) == LostAt(c, init, from);
      }
    }
  }

  /** Puts `kept` back under the name its content now deserves, dropping the old file when the name changed. */
  method RewriteChunk(folder: Folder, path: Name, kept: seq<Item>)
    requires folder.Valid() && path in folder.files
    modifies folder
    ensures folder.Valid()
    ensures folder.chunks == if kept == [] then old(folder.chunks) - {path.start}
                             else old(folder.chunks)[path.start := Chunk(kept[|kept| - 1].finish, kept)]
  {
    if kept == [] {
      folder.files := folder.files - {path};
      folder.chunks := folder.chunks - {path.start};
      return;
    }
    var newPath := Name(path.start, kept[|kept| - 1].finish);
    folder.files := folder.files[newPath := kept];
    folder.chunks := folder.chunks[path.start := Chunk(newPath.finish, kept)];
    if newPath != path {
      folder.files := folder.files - {path};
    }
  }

  /** Midway through a wipe: the files beginning at an instant in `done` are wiped, the others are as they were. */
  ghost predicate WipedSoFar(was: map<int, Chunk>, now: map<int, Chunk>, from: int, done: set<int>) {
    && (forall c :: c in now <==>
                    c in was && (c in done && Loses(was[c], from) ==> Survivors(was[c].items, from) != []))
    && (forall c <- now :: now[c] == if c in done then Rewritten(was[c], from) else was[c])
  }

  /** One file of a wipe. */
  method WipeFile(folder: Folder, f: Name, from: int, ghost was: map<int, Chunk>, ghost done: set<int>)
    returns (dropped: nat)
    requires folder.Valid() && f in folder.files
    requires WipedSoFar(was, folder.chunks, from, done) && f.start !in done
    modifies folder
    ensures folder.Valid() && WipedSoFar(was, folder.chunks, from, done + {f.start})
    ensures forall n | n in old(folder.files) && n.start != f.start :: n in folder.files
    ensures f.start in was && dropped == |LostOf(was, from, f.start)|
  {
    var c := f.start;
    ghost var before := folder.chunks;
    assert before[c] == was[c] == Chunk(f.finish, folder.files[f]);
    if f.finish <= from {
      return 0;
    }
    var items := folder.files[f];
    var kept := Survivors(items, from);
    LostIsDifference(c, items, from);
    dropped := |items| - |kept|;
    if dropped == 0 {
      return;
    }
    RewriteChunk(folder, f, kept);
  }

  /** The stored copies a wipe takes out of the file beginning at `c`. */
  ghost function LostOf(chunks: map<int, Chunk>, from: int, c: int): set<(int, int)>
    requires c in chunks
  {
    if chunks[c].finish > from then LostAt(c, chunks[c].items, from) else {}
  }

  /** Removes every card at or after `from`, leaving everything else in place; returns how many were dropped. */
  method WipeCardsFrom(folder: Folder, from: int) returns (dropped: nat)
    requires folder.Valid()
    modifies folder
    ensures folder.Valid()
    ensures folder.chunks == Wiped(old(folder.chunks), from)
    ensures dropped == |LostFrom(old(folder.chunks), from)|
  {
    ghost var was := folder.chunks;
    var names := folder.Scan();
    assert forall c <- was :: Name(c, was[c].finish) in names;
    ghost var lost: set<(int, int)> := {};
    dropped := 0;
    for k := 0 to |names|
      invariant folder.Valid() && WipedSoFar(was, folder.chunks, from, StartsOf(names, k))
      invariant forall i | k <= i < |names| :: names[i] in folder.files
      invariant dropped == |lost| && LostAmong(was, from, StartsOf(names, k), lost)
    {
      StartsStep(names, k);
      var n := WipeFile(folder, names[k], from, was, StartsOf(names, k));
      LostGrows(was, from, StartsOf(names, k), lost, names[k].start);
      dropped := dropped + n;
      lost := lost + LostOf(was, from, names[k].start);
    }
    AllListed(was, names);
    AllDone(was, folder.chunks, from, StartsOf(names, |names|), lost);
  }

  lemma AllListed(chunks: map<int, Chunk>, names: seq<Name>)
    requires forall c <- chunks :: Name(c, chunks[c].finish) in names
    ensures forall c <- chunks :: c in StartsOf(names, |names|)
  {
    forall c <- chunks
      ensures c in StartsOf(names, |names|)
    {
      var i :| 0 <= i < |names| && names[i] == Name(c, chunks[c].finish);
      assert names[i].start == c;
    }
  }

  ghost function StartsOf(names: seq<Name>, k: nat): set<int>
    requires k <= |names|
  {
    set i | 0 <= i < k :: names[i].start
  }

  lemma StartsStep(names: seq<Name>, k: nat)
    requires k < |names|
    requires forall i, j | 0 <= i < j < |names| :: names[i].start < names[j].start
    ensures StartsOf(names, k + 1) == StartsOf(names, k) + {names[k].start}
    ensures names[k].start !in StartsOf(names, k)
  {
  }

  ghost predicate LostAmong(chunks: map<int, Chunk>, from: int, done: set<int>, lost: set<(int, int)>) {
    forall p: (int, int) :: p in lost <==> p in LostFrom(chunks, from) && p.0 in done
  }

  lemma LostGrows(chunks: map<int, Chunk>, from: int, done: set<int>, lost: set<(int, int)>, c: int)
    requires LostAmong(chunks, from, done, lost) && c in chunks && c !in done
    ensures LostAmong(chunks, from, done + {c}, lost + LostOf(chunks, from, c))
    ensures |lost + LostOf(chunks, from, c)| == |lost| + |LostOf(chunks, from, c)|
  {
    assert lost !! LostOf(chunks, from, c);
  }

  lemma AllDone(was: map<int, Chunk>, now: map<int, Chunk>, from: int, done: set<int>, lost: set<(int, int)>)
    requires WipedSoFar(was, now, from, done)
    requires forall c <- was :: c in done
    requires LostAmong(was, from, done, lost)
    ensures now == Wiped(was, from) && lost == LostFrom(was, from)
  {
    var wiped := Wiped(was, from);
    forall c
      ensures c in now <==> c in wiped
      ensures c in now ==> now[c] == wiped[c]
    {
      assert c in was ==> c in done;
    }
    forall p
      ensures p in lost <==> p in LostFrom(was, from)
    {
    }
  }

  // ---- outages ---------------------------------------------------------------

  /** One call of the supervisor: a reason, a clock reading and the window to cover. */
  datatype Refresh = Refresh(reason: string, now: int, window: nat)

  /** What the supervisor does to the folder: a refresh, with where it wrote, or a wipe of the cards ahead. */
  datatype Event = Refreshed(call: Refresh, result: Option<int>) | Cleared(at: int)

  /** A broken channel: refreshed and cleared in any order, each into the folder the last one left. `flats` is
      the schedule on air before each event and after the last. */
  datatype Outage = Outage(events: seq<Event>, folders: seq<map<int, Chunk>>, flats: seq<seq<Item>>)

  ghost predicate EventStep(grid: Grid, before: map<int, Chunk>, after: map<int, Chunk>, flat: seq<Item>,
                            later: seq<Item>, e: Event)
    requires grid.Valid()
  {
    match e
    case Refreshed(call, r) =>
      && CoverStep(grid, before, after, flat, call.reason, call.now, call.window, r)
      && later == CoveredFlat(flat, call.reason, call.now, call.window)
    case Cleared(at) => after == Wiped(before, at) && later == Survivors(flat, at)
  }

  ghost predicate Covered(grid: Grid, o: Outage) {
    && grid.Valid()
    && |o.folders| == |o.flats| == |o.events| + 1
    && forall k, j {:trigger o.folders[k], o.folders[j]} | 0 <= k < |o.events| && j == k + 1 ::
         EventStep(grid, o.folders[k], o.folders[j], o.flats[k], o.flats[j], o.events[k])
  }

  lemma OutageShape(grid: Grid, o: Outage)
    requires Covered(grid, o)
    ensures grid.Valid() && |o.folders| == |o.flats| == |o.events| + 1
  {
  }

  lemma OutageStep(grid: Grid, o: Outage, n: nat)
    requires Covered(grid, o) && n < |o.events|
    ensures grid.Valid() && |o.folders| == |o.flats| == |o.events| + 1
    ensures EventStep(grid, o.folders[n], o.folders[n + 1], o.flats[n], o.flats[n + 1], o.events[n])
  {
  }

  /** A wipe at `at` would take nothing of the schedule; always so when nothing in it is a card. */
  predicate Spares(flat: seq<Item>, at: int) {
    forall x <- flat :: !Wipes(x, at)
  }

  /** No wipe of the outage reaches a card that was there before it. */
  ghost predicate SparesStore(o: Outage, flat: seq<Item>) {
    forall e <- o.events | e.Cleared? :: Spares(flat, e.at)
  }

  /** `later` is `flat` followed by cards. */
  ghost predicate CardsAfter(flat: seq<Item>, later: seq<Item>) {
    && |flat| <= |later| && later[..|flat|] == flat
    && forall k | |flat| <= k < |later| :: IsCard(later[k])
  }

  /** In a schedule followed by cards, the ones a wipe takes are the last ones. */
  lemma SplitsAt(flat: seq<Item>, later: seq<Item>, at: int) returns (k: nat)
    requires InOrder(later) && CardsAfter(flat, later) && Spares(flat, at)
    ensures |flat| <= k <= |later| && CardsTrail(later, at, k)
    ensures forall j | |flat| <= j < |later| :: later[j].start < at <==> j < k
  {
    k := |flat|;
    while k < |later| && later[k].start < at
      invariant |flat| <= k <= |later|
      invariant forall j | |flat| <= j < k :: later[j].start < at
    {
      k := k + 1;
    }
    forall j | 0 <= j < |flat|
      ensures !Wipes(later[j], at)
    {
      assert later[j] == later[..|flat|][j] == flat[j] && flat[j] in flat;
    }
    forall j | k <= j < |later|
      ensures at <= later[j].start
    {
      assert k < j ==> later[k].finish <= later[j].start;
      assert later[k].start < later[k].finish;
    }
  }

  /** A refresh lays cards after everything on air. */
  lemma RefreshAppends(store: seq<Item>, flat: seq<Item>, call: Refresh)
    requires CardsAfter(store, flat)
    ensures CardsAfter(store, CoveredFlat(flat, call.reason, call.now, call.window))
  {
    var begins := CardsFrom(Frontier(flat), call.now);
    if begins < call.now + call.window {
      var run := CardRun(begins, call.now, call.window, call.reason);
      CardRunCovers(begins, call.now, call.window, call.reason);
      assert forall k | 0 <= k < |run| :: run[k] in run;
      assert (flat + run)[..|store|] == flat[..|store|];
    }
  }

  lemma RefreshHolds(grid: Grid, before: map<int, Chunk>, after: map<int, Chunk>, flat: seq<Item>, later: seq<Item>,
                     earlier: int, call: Refresh, r: Option<int>) returns (at: int)
    requires Holds(grid, before, flat, earlier)
    requires CoverStep(grid, before, after, flat, call.reason, call.now, call.window, r)
    requires later == CoveredFlat(flat, call.reason, call.now, call.window)
    ensures Holds(grid, after, later, at) && (flat != [] ==> at == earlier)
  {
    hide Holds, CoverStep, CardRun;
    at := CoverKeepsSchedule(grid, before, after, flat, earlier, call.reason, call.now, call.window, r);
  }

  /** Wiping a schedule followed by cards, at any instant: what the folder then holds is the schedule followed by
      the cards that had started. */
  lemma WipeKeepsStarted(grid: Grid, chunks: map<int, Chunk>, store: seq<Item>, flat: seq<Item>, origin: int, at: int)
    returns (k: nat)
    requires Holds(grid, chunks, flat, origin) && CardsAfter(store, flat) && Spares(store, at)
    ensures |store| <= k <= |flat|
    ensures forall j | |store| <= j < |flat| :: flat[j].start < at <==> j < k
    ensures Survivors(flat, at) == flat[..k] && Holds(grid, Wiped(chunks, at), flat[..k], origin)
    ensures CardsAfter(store, flat[..k])
  {
    k := SplitsAt(store, flat, at);
    TrailSurvivors(flat, at, k);
    TrailKeepsWithinSlots(grid, chunks, flat, origin, at, k);
    WipeHoldsIff(grid, chunks, flat, origin, at);
    assert flat[..k][..|store|] == flat[..|store|];
  }

  lemma EventHolds(grid: Grid, before: map<int, Chunk>, after: map<int, Chunk>, store: seq<Item>, flat: seq<Item>,
                   later: seq<Item>, e: Event, earlier: int) returns (at: int)
    requires grid.Valid() && EventStep(grid, before, after, flat, later, e)
    requires Holds(grid, before, flat, earlier) && CardsAfter(store, flat)
    requires e.Cleared? ==> Spares(store, e.at)
    ensures Holds(grid, after, later, at) && CardsAfter(store, later)
    ensures flat != [] ==> at == earlier
  {
    hide Holds, CoverStep, CoveredFlat, CardsAfter, Spares, Wiped, Survivors;
    match e
    case Refreshed(call, r) =>
      RefreshAppends(store, flat, call);
      at := RefreshHolds(grid, before, after, flat, later, earlier, call, r);
    case Cleared(cut) =>
      at := earlier;
      var k := WipeKeepsStarted(grid, before, store, flat, earlier, cut);
  }

  /** Through any number of refreshes and wipes, in any order and at any instants, the folder holds what was stored
      before the outage, untouched, followed by cards. */
  lemma {:induction false} OutageHolds(grid: Grid, origin: int, o: Outage, n: nat) returns (at: int)
    requires Covered(grid, o) && Holds(grid, o.folders[0], o.flats[0], origin) && SparesStore(o, o.flats[0])
    requires n <= |o.events|
    ensures Holds(grid, o.folders[n], o.flats[n], at) && CardsAfter(o.flats[0], o.flats[n])
    ensures o.flats[0] != [] ==> at == origin
    decreases n
  {
    hide Holds, EventStep, Spares, Covered;
    OutageShape(grid, o);
    if n == 0 {
      at := origin;
    } else {
      OutageStep(grid, o, n - 1);
      var earlier := OutageHolds(grid, origin, o, n - 1);
      assert o.events[n - 1] in o.events;
      at := EventHolds(grid, o.folders[n - 1], o.folders[n], o.flats[0], o.flats[n - 1], o.flats[n], o.events[n - 1],
                       earlier);
    }
  }

  // ---- recovery --------------------------------------------------------------

  lemma AddedIsNew(store: seq<Item>, flat: seq<Item>)
    requires InOrder(flat) && |flat| > |store| && flat[..|store|] == store
    ensures flat[|store|] !in store
  {
    forall i | 0 <= i < |store|
      ensures store[i] != flat[|store|]
    {
      assert store[i] == flat[..|store|][i] == flat[i];
      assert flat[i].start < flat[i].finish <= flat[|store|].start;
    }
  }

  /** What survives a wipe is stored: an added card that had started is still in some file, and was in none before. */
  lemma StartedCardStays(grid: Grid, was: map<int, Chunk>, chunks: map<int, Chunk>, store: seq<Item>, flat: seq<Item>,
                         origin: int, at: int)
    requires Holds(grid, was, store, origin) && Holds(grid, chunks, flat, at)
    requires |flat| > |store| && flat[..|store|] == store
    ensures chunks != was
  {
    var x := flat[|store|];
    AddedIsNew(store, flat);
    assert x in flat && x.start < x.finish;
    var t := Max(x.start, at);
    ItemIsStored(grid, chunks, flat, at, x, t);
    var c := grid.floor(t);
    if c in was {
      SlotInOrder(grid, was, store, origin, c);
    }
  }

  /** Recovery. After any outage, a wipe at `at` leaves what was stored before it followed by the cards that had
      started by then; and every chunk is back exactly as it was, whatever was stored and however the cards
      fell in its files, if and only if none had. */
  lemma WipeUndoesOutage(grid: Grid, origin: int, o: Outage, n: nat, cut: int) returns (at: int, k: nat)
    requires Covered(grid, o) && Holds(grid, o.folders[0], o.flats[0], origin) && SparesStore(o, o.flats[0])
    requires n <= |o.events| && Spares(o.flats[0], cut)
    ensures |o.flats[0]| <= k <= |o.flats[n]| && o.flats[n][..|o.flats[0]|] == o.flats[0]
    ensures forall j | |o.flats[0]| <= j < |o.flats[n]| ::
              IsCard(o.flats[n][j]) && (o.flats[n][j].start < cut <==> j < k)
    ensures Holds(grid, Wiped(o.folders[n], cut), o.flats[n][..k], at)
    ensures Wiped(o.folders[n], cut) == o.folders[0] <==>
            forall j | |o.flats[0]| <= j < |o.flats[n]| :: cut <= o.flats[n][j].start
  {
    hide Holds, Covered, SparesStore, Spares, Wiped, IsCard;
    OutageShape(grid, o);
    at := OutageHolds(grid, origin, o, n);
    var store, flat := o.flats[0], o.flats[n];
    k := WipeKeepsStarted(grid, o.folders[n], store, flat, at, cut);
    if k == |store| {
      OriginIrrelevant(grid, Wiped(o.folders[n], cut), o.folders[0], store, at, origin);
    } else {
      StartedCardStays(grid, o.folders[0], Wiped(o.folders[n], cut), store, flat[..k], origin, at);
      assert flat[|store|].start < cut;
    }
  }

  /** Nothing but refreshes, of which the first to write anything was the one at `first`, and it returned `from`. */
  ghost predicate FirstResult(o: Outage, first: nat, from: int) {
    && first < |o.events|
    && (forall e <- o.events :: e.Refreshed?)
    && (forall k | 0 <= k < first :: o.events[k].result == None)
    && o.events[first].result == Some(from)
  }

  /** Everything `later` adds to `flat` starts at or after `from`, and something was added. */
  ghost predicate AddedFrom(flat: seq<Item>, later: seq<Item>, from: int) {
    |flat| < |later| && forall k | |flat| <= k < |later| :: from <= later[k].start
  }

  lemma AddsAfter(store: seq<Item>, flat: seq<Item>, from: int, call: Refresh)
    requires InOrder(flat) && AddedFrom(store, flat, from)
    ensures AddedFrom(store, CoveredFlat(flat, call.reason, call.now, call.window), from)
  {
    var begins := CardsFrom(Frontier(flat), call.now);
    if begins < call.now + call.window {
      var run := CardRun(begins, call.now, call.window, call.reason);
      CardRunCovers(begins, call.now, call.window, call.reason);
      assert flat[|flat| - 1].start < flat[|flat| - 1].finish <= begins;
      assert forall k | 0 <= k < |run| :: run[k] in run;
    }
  }

  lemma AddsFirst(flat: seq<Item>, from: int, call: Refresh)
    requires from == CardsFrom(Frontier(flat), call.now) < call.now + call.window
    ensures AddedFrom(flat, CoveredFlat(flat, call.reason, call.now, call.window), from)
  {
    var run := CardRun(from, call.now, call.window, call.reason);
    CardRunCovers(from, call.now, call.window, call.reason);
    assert forall k | 0 <= k < |run| :: run[k] in run;
  }

  /** One refresh: quiet before the first that writes, that one, or a later one. */
  lemma AddsStep(grid: Grid, before: map<int, Chunk>, after: map<int, Chunk>, store: seq<Item>, flat: seq<Item>,
                 later: seq<Item>, e: Event, k: nat, first: nat, from: int)
    requires grid.Valid() && InOrder(flat) && e.Refreshed? && EventStep(grid, before, after, flat, later, e)
    requires k < first ==> flat == store && e.result == None
    requires k == first ==> flat == store && e.result == Some(from)
    requires k > first ==> AddedFrom(store, flat, from)
    ensures if k < first then later == store else AddedFrom(store, later, from)
  {
    hide AddedFrom, InOrder, Emitted;
    if k == first {
      AddsFirst(flat, from, e.call);
    } else if k > first {
      AddsAfter(store, flat, from, e.call);
    }
  }

  /** The schedule only ever grows by cards that start no earlier than the first instant returned. */
  lemma {:induction false} OutageAddsCards(grid: Grid, origin: int, o: Outage, n: nat, first: nat, from: int)
    requires Covered(grid, o) && Holds(grid, o.folders[0], o.flats[0], origin)
    requires n <= |o.events| && FirstResult(o, first, from)
    ensures SparesStore(o, o.flats[0])
    ensures if n <= first then o.flats[n] == o.flats[0] else AddedFrom(o.flats[0], o.flats[n], from)
    decreases n
  {
    hide AddedFrom, EventStep, Covered;
    OutageShape(grid, o);
    if n > 0 {
      OutageStep(grid, o, n - 1);
      OutageAddsCards(grid, origin, o, n - 1, first, from);
      var at := OutageHolds(grid, origin, o, n - 1);
      assert o.events[n - 1] in o.events;
      AddsStep(grid, o.folders[n - 1], o.folders[n], o.flats[0], o.flats[n - 1], o.flats[n], o.events[n - 1], n - 1,
               first, from);
    }
  }

  lemma SameFiles(a: map<Name, seq<Item>>, b: map<Name, seq<Item>>, chunks: map<int, Chunk>)
    requires Files(a, chunks) && Files(b, chunks)
    ensures a == b
  {
    assert forall n :: n in a <==> n in b;
  }

  /** Refresh a broken channel any number of times, then wipe at any instant up to the first one returned that
      spares the cards already there: every file name and every item list in the folder is as it was. */
  lemma WipeRestoresFiles(grid: Grid, origin: int, o: Outage, first: nat, from: int, cut: int,
                          before: map<Name, seq<Item>>, after: map<Name, seq<Item>>)
    requires Covered(grid, o) && Holds(grid, o.folders[0], o.flats[0], origin) && FirstResult(o, first, from)
    requires cut <= from && Spares(o.flats[0], cut)
    requires Files(before, o.folders[0]) && Files(after, Wiped(o.folders[|o.events|], cut))
    ensures after == before
  {
    hide Holds, Covered, Spares, SparesStore, FirstResult, Files, Wiped;
    OutageShape(grid, o);
    OutageAddsCards(grid, origin, o, |o.events|, first, from);
    FirstIsInside(o, first, from);
    var at, k := WipeUndoesOutage(grid, origin, o, |o.events|, cut);
    SameFiles(before, after, o.folders[0]);
  }

  lemma FirstIsInside(o: Outage, first: nat, from: int)
    requires FirstResult(o, first, from)
    ensures first < |o.events|
  {
  }

  /** The first instant returned is itself such an instant. */
  lemma FirstResultSpares(grid: Grid, origin: int, o: Outage, first: nat, from: int)
    requires Covered(grid, o) && Holds(grid, o.folders[0], o.flats[0], origin) && FirstResult(o, first, from)
    ensures Spares(o.flats[0], from)
  {
    OutageAddsCards(grid, origin, o, first, first, from);
    OutageStep(grid, o, first);
    assert o.events[first] in o.events;
    EndsBeforeCards(o.flats[0], o.events[first].call.now);
    forall x <- o.flats[0]
      ensures !Wipes(x, from)
    {
      var i :| 0 <= i < |o.flats[0]| && o.flats[0][i] == x;
      assert x.start < x.finish <= from;
    }
  }

  /** So however often a broken channel is refreshed, wiping from the first instant returned puts back every file. */
  lemma WipeFromFirstRestores(grid: Grid, origin: int, o: Outage, first: nat, from: int,
                              before: map<Name, seq<Item>>, after: map<Name, seq<Item>>)
    requires Covered(grid, o) && Holds(grid, o.folders[0], o.flats[0], origin) && FirstResult(o, first, from)
    requires Files(before, o.folders[0]) && Files(after, Wiped(o.folders[|o.events|], from))
    ensures after == before
  {
    hide Holds, Covered, Spares, FirstResult, Files, Wiped;
    OutageShape(grid, o);
    FirstResultSpares(grid, origin, o, first, from);
    WipeRestoresFiles(grid, origin, o, first, from, from, before, after);
  }

  // ---- a card before something real ------------------------------------------

  const SECOND := 1_000_000_000
  const HOUR := 3600 * SECOND
  const HOURS := Grid((t: int) => t / HOUR * HOUR, (c: int) => c + HOUR)

  const FILM := Item("film", 0, 3000 * SECOND, "")
  const CARD := Item(CARD_ID_PREFIX + "-0", 3000 * SECOND, 3300 * SECOND, "reason")
  const SHOW := Item("show", 3300 * SECOND, 3900 * SECOND, "")

  /** A film, the card that covered the end of it, and a show laid after the card, over the first two hours. */
  const STRADDLED := map[0 := Chunk(HOUR, [FILM, CARD, SHOW]), HOUR := Chunk(3900 * SECOND, [SHOW])]

  lemma HoursAreGrid()
    ensures HOURS.Valid()
  {
    forall t: int
      ensures HOURS.floor(t) == t - t % HOUR && 0 <= t % HOUR < HOUR
    {
    }
    forall t: int, u: int | HOURS.floor(t) <= u < HOURS.next(HOURS.floor(t))
      ensures HOURS.floor(u) == HOURS.floor(t)
    {
    }
  }

  lemma MeetingOnto(s: seq<Item>, x: Item, lo: int, hi: int)
    ensures Meeting(s + [x], lo, hi) == if Meets(x, lo, hi) then Meeting(s, lo, hi) + [x] else Meeting(s, lo, hi)
  {
    assert (s + [x])[..|s|] == s;
  }

  lemma ThreeMeet(lo: int, hi: int)
    ensures Meeting([FILM, CARD, SHOW], lo, hi)
         == (if Meets(FILM, lo, hi) then [FILM] else []) + (if Meets(CARD, lo, hi) then [CARD] else [])
            + (if Meets(SHOW, lo, hi) then [SHOW] else [])
  {
    hide Meets;
    MeetingOnto([], FILM, lo, hi);
    MeetingOnto([FILM], CARD, lo, hi);
    MeetingOnto([FILM, CARD], SHOW, lo, hi);
    assert [] + [FILM] == [FILM] && [FILM] + [CARD] == [FILM, CARD] && [FILM, CARD] + [SHOW] == [FILM, CARD, SHOW];
  }

  lemma OnlyTheCardIsWiped(at: int)
    requires at <= 3000 * SECOND
    ensures IsCard(CARD) && !IsCard(FILM) && !IsCard(SHOW)
    ensures Survivors([FILM, CARD, SHOW], at) == [FILM, SHOW] && Survivors([SHOW], at) == [SHOW]
  {
    assert SHOW.id[0] != CARD_ID_PREFIX[0] && FILM.id[0] != CARD_ID_PREFIX[0];
    var all := [FILM, CARD, SHOW];
    assert all[..2] == [FILM, CARD] && [FILM, CARD][..1] == [FILM] && [FILM][..0] == [] && [SHOW][..0] == [];
    assert Survivors([FILM], at) == [FILM];
    assert Survivors([FILM, CARD], at) == [FILM];
  }

  lemma HourSlots(c: int)
    requires HOURS.Boundary(c) && 0 <= c
    ensures Meets(FILM, c, HOURS.next(c)) <==> c == 0
    ensures Meets(CARD, c, HOURS.next(c)) <==> c == 0
    ensures Meets(SHOW, c, HOURS.next(c)) <==> c == 0 || c == HOUR
  {
    assert c % HOUR == 0;
  }

  lemma StraddledEntry(c: int)
    ensures EntryFits(HOURS, STRADDLED, 0, Shares(HOURS, [FILM, CARD, SHOW]), c)
  {
    hide Meeting, Meets;
    ThreeMeet(c, HOURS.next(c));
    if HOURS.Boundary(c) && 0 <= c {
      HourSlots(c);
    }
    assert HOURS.Boundary(0) && HOURS.Boundary(HOUR);
  }

  lemma StraddledHolds()
    ensures Holds(HOURS, STRADDLED, [FILM, CARD, SHOW], 0)
  {
    hide Meeting, Meets, EntryFits, Shares, Table, Grid.Valid;
    HoursAreGrid();
    forall c: int
      ensures EntryFits(HOURS, STRADDLED, 0, Shares(HOURS, [FILM, CARD, SHOW]), c)
    {
      StraddledEntry(c);
    }
    TableFrom(HOURS, STRADDLED, 0, Shares(HOURS, [FILM, CARD, SHOW]));
  }

  /** The one card of a run that has to reach a single instant past the film. */
  lemma OneCard()
    ensures CardRun(3000 * SECOND, 1000 * SECOND, 2000 * SECOND + 1, "reason") == [CARD]
  {
    var rule := CardRule(1, "reason");
    assert SegmentsFor(1) == 1;
    assert Decimal(0) == "0" && CARD_ID_PREFIX + "-" + "0" == CARD_ID_PREFIX + "-0";
    assert rule == [Program(CARD_ID_PREFIX + "-0", CARD_SEGMENT, "reason")];
    OneIsLaid(rule[0], 3000 * SECOND);
  }

  lemma OneIsLaid(p: Program, at: int)
    ensures Lay([p], at) == [Item(p.id, at, at + p.length, p.detail)] && Total([p]) == p.length
  {
    assert [p][..0] == [];
  }

  /** One item laid where the schedule ends. */
  lemma OneMore(before: map<int, Chunk>, after: map<int, Chunk>, flat: seq<Item>, p: Program, at: int)
    requires Holds(HOURS, before, flat, 0) && p.length > 0 && forall x <- flat :: x.finish <= at
    requires after == Emitted(HOURS, before, Lay([p], at), at, at + p.length)
    requires HOURS.floor(at) == 0
    ensures Holds(HOURS, after, flat + [ItemAt(p, at)], 0)
  {
    OneIsLaid(p, at);
    hide Holds, Emitted, Lay, Total, Grid.Valid;
    GenerationExtends(HOURS, before, flat, [p], at, at + p.length, 0, after);
  }

  lemma CardFollows(filmed: map<int, Chunk>, covered: map<int, Chunk>)
    requires Holds(HOURS, filmed, [FILM], 0)
    requires CoverStep(HOURS, filmed, covered, [FILM], "reason", 1000 * SECOND, 2000 * SECOND + 1, Some(3000 * SECOND))
    ensures Holds(HOURS, covered, [FILM, CARD], 0)
  {
    OneCard();
    hide Holds, CoverStep, CardRun, Grid.Valid;
    var at := CoverKeepsSchedule(HOURS, filmed, covered, [FILM], 0, "reason", 1000 * SECOND, 2000 * SECOND + 1,
                                 Some(3000 * SECOND));
    assert [FILM] + [CARD] == [FILM, CARD];
  }

  /** How such a folder comes about: the film is laid from 0, the channel fails at 1000 s and is covered past the
      film's end, the next wipe fails, and the show is laid after the card. */
  lemma StraddledIsWritten(filmed: map<int, Chunk>, covered: map<int, Chunk>, shown: map<int, Chunk>)
    requires HOURS.Valid()
    requires filmed == Emitted(HOURS, map[], Lay([Program("film", 3000 * SECOND, "")], 0), 0, 3000 * SECOND)
    requires CoverStep(HOURS, filmed, covered, [FILM], "reason", 1000 * SECOND, 2000 * SECOND + 1, Some(3000 * SECOND))
    requires shown == Emitted(HOURS, covered, Lay([Program("show", 600 * SECOND, "")], 3300 * SECOND),
                              3300 * SECOND, 3900 * SECOND)
    ensures shown == STRADDLED
  {
    hide Holds, Emitted, CoverStep, Grid.Valid, Lay;
    EmptyHolds(HOURS, 0, 0);
    OneMore(map[], filmed, [], Program("film", 3000 * SECOND, ""), 0);
    assert [] + [FILM] == [FILM];
    CardFollows(filmed, covered);
    OneMore(covered, shown, [FILM, CARD], Program("show", 600 * SECOND, ""), 3300 * SECOND);
    assert [FILM, CARD] + [SHOW] == [FILM, CARD, SHOW];
    StraddledHolds();
    HeldUniquely(HOURS, shown, STRADDLED, [FILM, CARD, SHOW], 0);
  }

  /** A card with something real after it need not come out cleanly. When a failed wipe has left a card before the
      real schedule, the next wipe, at 2000 s, renames its file past its hour, and an instant of the next hour is
      then claimed by two files. */
  lemma WipeBeforeRealCanOverlap()
    ensures Holds(HOURS, STRADDLED, [FILM, CARD, SHOW], 0) && !KeepsWithinSlots(HOURS, STRADDLED, 2000 * SECOND)
    ensures Wiped(STRADDLED, 2000 * SECOND)
         == map[0 := Chunk(3900 * SECOND, [FILM, SHOW]), HOUR := Chunk(3900 * SECOND, [SHOW])]
    ensures forall c :: !OnlyFile(Wiped(STRADDLED, 2000 * SECOND), c, 3700 * SECOND)
  {
    hide Holds, Survivors, IsCard;
    StraddledHolds();
    OnlyTheCardIsWiped(2000 * SECOND);
    assert 0 in STRADDLED && HOUR in STRADDLED;
    var wiped := Wiped(STRADDLED, 2000 * SECOND);
    assert wiped[0].finish == wiped[HOUR].finish == 3900 * SECOND;
  }

  lemma EmptyIsBare(grid: Grid, chunks: map<int, Chunk>, origin: int)
    requires Holds(grid, chunks, [], origin)
    ensures chunks == map[]
  {
    forall c
      ensures c !in chunks
    {
      var none: seq<Item> := [];
      assert Meeting(none, c, grid.next(c)) == none;
      assert Shares(grid, none)(c) == none;
    }
  }

  /** Two folders holding the same schedule agree wherever their origins leave the schedule's slots alone. */
  lemma OriginIrrelevant(grid: Grid, a: map<int, Chunk>, b: map<int, Chunk>, flat: seq<Item>, o1: int, o2: int)
    requires Holds(grid, a, flat, o1) && Holds(grid, b, flat, o2)
    requires flat != [] ==> o1 == o2
    ensures a == b
  {
    if flat == [] {
      EmptyIsBare(grid, a, o1);
      EmptyIsBare(grid, b, o2);
    } else {
      HeldUniquely(grid, a, b, flat, o1);
    }
  }

  // ---- card ids --------------------------------------------------------------

  /** The number a string of digits reads as. */
  function ReadsAs(s: string): int {
    if s == [] then 0 else 10 * ReadsAs(s[..|s| - 1]) + (s[|s| - 1] as int - '0' as int)
  }

  /** Card numbers are written in plain decimal, so no two cards of a run share an id. */
  lemma {:induction false} DecimalReads(n: nat)
    ensures Decimal(n) != [] && forall k | 0 <= k < |Decimal(n)| :: '0' <= Decimal(n)[k] <= '9'
    ensures n >= 10 ==> Decimal(n)[0] != '0'
    ensures ReadsAs(Decimal(n)) == n
    decreases n
  {
    var digit := [('0' as int + n % 10) as char];
    assert digit[..0] == [];
    if n >= 10 {
      DecimalReads(n / 10);
      var whole := Decimal(n / 10) + digit;
      assert whole[..|whole| - 1] == Decimal(n / 10);
    }
  }

  lemma CardsDiffer(count: nat, reason: string, at: int, i: nat, j: nat)
    requires i < j < count
    ensures |Lay(CardRule(count, reason), at)| == count
    ensures Lay(CardRule(count, reason), at)[i].id != Lay(CardRule(count, reason), at)[j].id
    ensures Lay(CardRule(count, reason), at)[i].detail == reason
  {
    LaidIds(CardRule(count, reason), at);
    DecimalReads(i);
    DecimalReads(j);
    var a, b := CARD_ID_PREFIX + "-" + Decimal(i), CARD_ID_PREFIX + "-" + Decimal(j);
    assert a[|CARD_ID_PREFIX| + 1..] == Decimal(i) && b[|CARD_ID_PREFIX| + 1..] == Decimal(j);
  }

  lemma {:induction false} LaidIds(rule: seq<Program>, at: int)
    ensures |Lay(rule, at)| == |rule|
    ensures forall k | 0 <= k < |rule| :: Lay(rule, at)[k].id == rule[k].id && Lay(rule, at)[k].detail == rule[k].detail
    ensures forall k | 0 <= k < |rule| :: Lay(rule, at)[k].finish == Lay(rule, at)[k].start + rule[k].length
  {
    if rule != [] {
      LaidIds(rule[..|rule| - 1], at);
    }
  }
}
