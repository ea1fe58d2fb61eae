/** Keeping rendered chapters and their stems under a size cap. */
module RenderCache {
  import opened Common
  import opened StableSort

  const PROTECT_BEFORE_AIR := 1800.0

  datatype Status = Queued | Running | Done | Failed | Evicted

  datatype Job = Job(id: string, status: Status, output: string, duration: real, airAt: Option<real>,
                     stems: seq<string>) {
    /** Whether the job may not be removed at `now`. */
    predicate Protected(now: real) {
      match airAt
      case None => true
      case Some(air) => air - PROTECT_BEFORE_AIR <= now < air + duration
    }

    predicate HasAired(now: real) {
      match airAt
      case None => false
      case Some(air) => !Protected(now) && now >= air
    }

    /** Its output and stems are wanted. */
    predicate Live() {
      status == Queued || status == Running || status == Done
    }

    predicate InFlight() {
      status == Queued || status == Running
    }
  }

  /** Finished airing means exactly that its last second is past. */
  lemma AiredIff(job: Job, now: real)
    ensures job.HasAired(now) <==> job.airAt.Some? && job.airAt.value <= now && job.airAt.value + job.duration <= now
  {
  }

  /** A chapter is off limits without an air time, and from half an hour before it airs until it has finished. */
  lemma ProtectedIff(job: Job, now: real)
    ensures job.Protected(now) <==>
      job.airAt == None || (now + 30.0 * 60.0 >= job.airAt.value && !(now >= job.airAt.value + job.duration))
  {
  }

  datatype Stem = Stem(dir: string, bytes: nat)

  /** The queue's jobs, the output files and the stem directories. */
  datatype Store = Store(jobs: seq<Job>, files: map<string, nat>, stems: seq<Stem>)

  // ---- accounting ------------------------------------------------------------

  function OutputSize(job: Job, files: map<string, nat>): nat {
    if job.status == Done && job.output in files then files[job.output] else 0
  }

  function JobBytes(jobs: seq<Job>, files: map<string, nat>): nat {
    if jobs == [] then 0 else JobBytes(jobs[..|jobs| - 1], files) + OutputSize(jobs[|jobs| - 1], files)
  }

  function StemBytes(stems: seq<Stem>): nat {
    if stems == [] then 0 else StemBytes(stems[..|stems| - 1]) + stems[|stems| - 1].bytes
  }

  function SaturatingSub(a: nat, b: nat): nat {
    if a < b then 0 else a - b
  }

  function UsedBytes(s: Store): nat {
    JobBytes(s.jobs, s.files) + StemBytes(s.stems)
  }

  /** Bytes under one directory name. */
  function DirBytes(stems: seq<Stem>, dir: string): nat {
    if stems == [] then 0
    else DirBytes(stems[..|stems| - 1], dir) + if stems[|stems| - 1].dir == dir then stems[|stems| - 1].bytes else 0
  }

  /** The directories not in `gone`. */
  function Kept(stems: seq<Stem>, gone: set<string>): seq<Stem> {
    if stems == [] then []
    else
      var init, last := stems[..|stems| - 1], stems[|stems| - 1];
      if last.dir in gone then Kept(init, gone) else Kept(init, gone) + [last]
  }

  lemma KeptSnoc(stems: seq<Stem>, x: Stem, gone: set<string>)
    ensures Kept(stems + [x], gone) == if x.dir in gone then Kept(stems, gone) else Kept(stems, gone) + [x]
    ensures StemBytes(stems + [x]) == StemBytes(stems) + x.bytes
  {
    assert (stems + [x])[..|stems|] == stems;
  }

  lemma {:induction false} KeptTwice(stems: seq<Stem>, a: set<string>, b: set<string>)
    ensures Kept(Kept(stems, a), b) == Kept(stems, a + b)
  {
    if stems != [] {
      var init, last := stems[..|stems| - 1], stems[|stems| - 1];
      KeptTwice(init, a, b);
      KeptSnoc(Kept(init, a), last, b);
    }
  }

  lemma {:induction false} KeptNone(stems: seq<Stem>, gone: set<string>)
    requires forall x <- stems :: x.dir !in gone
    ensures Kept(stems, gone) == stems
  {
    if stems != [] {
      KeptNone(stems[..|stems| - 1], gone);
      assert stems[|stems| - 1] in stems;
    }
  }

  lemma {:induction false} KeptOne(stems: seq<Stem>, dir: string)
    ensures StemBytes(stems) == DirBytes(stems, dir) + StemBytes(Kept(stems, {dir}))
  {
    if stems != [] {
      var init, last := stems[..|stems| - 1], stems[|stems| - 1];
      KeptOne(init, dir);
      KeptSnoc(Kept(init, {dir}), last, {});
    }
  }

  lemma NothingGone(stems: seq<Stem>, stuck: set<string>)
    ensures Kept(stems, Dirs([]) - stuck) == stems
  {
    KeptNone(stems, Dirs([]) - stuck);
  }

  lemma DirsStep(dirs: seq<string>, k: nat, stuck: set<string>)
    requires k < |dirs|
    ensures Dirs(dirs[..k + 1]) - stuck
         == if dirs[k] in stuck then Dirs(dirs[..k]) - stuck else (Dirs(dirs[..k]) - stuck) + {dirs[k]}
  {
    assert dirs[..k + 1] == dirs[..k] + [dirs[k]];
  }

  lemma {:induction false} KeptMembers(stems: seq<Stem>, gone: set<string>)
    ensures forall x :: x in Kept(stems, gone) <==> x in stems && x.dir !in gone
  {
    if stems != [] {
      KeptMembers(stems[..|stems| - 1], gone);
      assert stems == stems[..|stems| - 1] + [stems[|stems| - 1]];
    }
  }

  // ---- stems nothing refers to -----------------------------------------------

  predicate Referenced(jobs: seq<Job>, dir: string) {
    exists j | j in jobs :: j.Live() && dir in j.stems
  }

  predicate AnyInFlight(jobs: seq<Job>) {
    exists j | j in jobs :: j.InFlight()
  }

  /** Directories no live job refers to; none can be told while a job is still in flight. */
  function OrphansIn(jobs: seq<Job>, stems: seq<Stem>): seq<string> {
    if stems == [] then []
    else
      var init, last := stems[..|stems| - 1], stems[|stems| - 1];
      if Referenced(jobs, last.dir) then OrphansIn(jobs, init) else OrphansIn(jobs, init) + [last.dir]
  }

  function Orphans(jobs: seq<Job>, stems: seq<Stem>): seq<string> {
    if AnyInFlight(jobs) then [] else OrphansIn(jobs, stems)
  }

  function Dirs(dirs: seq<string>): set<string> {
    set d | d in dirs
  }

  /** The store once every orphan that can be removed is gone. */
  function Swept(s: Store, stuck: set<string>): Store {
    s.(stems := Kept(s.stems, Dirs(Orphans(s.jobs, s.stems)) - stuck))
  }

  lemma {:induction false} OrphansAre(jobs: seq<Job>, stems: seq<Stem>)
    ensures forall d :: d in OrphansIn(jobs, stems) <==> !Referenced(jobs, d) && exists x :: x in stems && x.dir == d
  {
    if stems != [] {
      var init, last := stems[..|stems| - 1], stems[|stems| - 1];
      OrphansAre(jobs, init);
      assert stems == init + [last];
    }
  }

  // ---- one eviction ----------------------------------------------------------

  predicate DistinctOutputs(jobs: seq<Job>) {
    forall i, j | 0 <= i < j < |jobs| :: jobs[i].output != jobs[j].output
  }

  /** The file could not be removed and is still there. */
  predicate Held(s: Store, i: nat, locked: set<string>)
    requires i < |s.jobs|
  {
    s.jobs[i].output in locked && s.jobs[i].output in s.files
  }

  function Gone(s: Store, i: nat): Store
    requires i < |s.jobs|
  {
    s.(jobs := s.jobs[i := s.jobs[i].(status := Evicted)], files := s.files - {s.jobs[i].output})
  }

  /** The bytes that done chapters count for one output file, one share each. */
  function Claimed(jobs: seq<Job>, files: map<string, nat>, output: string): nat {
    if jobs == [] then 0
    else
      var init, last := jobs[..|jobs| - 1], jobs[|jobs| - 1];
      if last.output == output then Claimed(init, files, output) + OutputSize(last, files)
      else Claimed(init, files, output)
  }

  lemma {:induction false} BytesWithoutFile(jobs: seq<Job>, files: map<string, nat>, output: string)
    ensures JobBytes(jobs, files) == Claimed(jobs, files, output) + JobBytes(jobs, files - {output})
  {
    if jobs != [] {
      BytesWithoutFile(jobs[..|jobs| - 1], files, output);
    }
  }

  lemma {:induction false} EvictedCountsNothing(jobs: seq<Job>, files: map<string, nat>, i: nat)
    requires i < |jobs| && jobs[i].output !in files
    ensures JobBytes(jobs[i := jobs[i].(status := Evicted)], files) == JobBytes(jobs, files)
  {
    var n := |jobs| - 1;
    var after := jobs[i := jobs[i].(status := Evicted)];
    if i == n {
      assert after[..n] == jobs[..n];
    } else {
      assert after[..n] == jobs[..n][i := jobs[..n][i].(status := Evicted)];
      EvictedCountsNothing(jobs[..n], files, i);
    }
  }

  /** Evicting a chapter takes off what every done chapter counted for its file. */
  lemma JobBytesWithout(jobs: seq<Job>, files: map<string, nat>, i: nat)
    requires i < |jobs|
    ensures JobBytes(jobs, files)
         == Claimed(jobs, files, jobs[i].output)
            + JobBytes(jobs[i := jobs[i].(status := Evicted)], files - {jobs[i].output})
  {
    BytesWithoutFile(jobs, files, jobs[i].output);
    EvictedCountsNothing(jobs, files - {jobs[i].output}, i);
  }

  lemma {:induction false} NoneClaims(jobs: seq<Job>, files: map<string, nat>, output: string)
    requires forall j | 0 <= j < |jobs| :: jobs[j].output != output
    ensures Claimed(jobs, files, output) == 0
  {
    if jobs != [] {
      NoneClaims(jobs[..|jobs| - 1], files, output);
    }
  }

  /** A chapter's own share is part of what is claimed for its file, and all of it when outputs are distinct. */
  lemma {:induction false} OwnShare(jobs: seq<Job>, files: map<string, nat>, i: nat)
    requires i < |jobs|
    ensures OutputSize(jobs[i], files) <= Claimed(jobs, files, jobs[i].output)
    ensures DistinctOutputs(jobs) ==> OutputSize(jobs[i], files) == Claimed(jobs, files, jobs[i].output)
    decreases |jobs|
  {
    var n := |jobs| - 1;
    if i < n {
      OwnShare(jobs[..n], files, i);
    } else if DistinctOutputs(jobs) {
      NoneClaims(jobs[..n], files, jobs[i].output);
    }
  }

  /** The running total once a chapter has gone: only its own share of its file comes off. */
  function Spent(s: Store, i: nat, stuck: set<string>, total: int): int
    requires i < |s.jobs|
  {
    total - OutputSize(s.jobs[i], s.files) - StemBytes(s.stems) + StemBytes(Swept(Gone(s, i), stuck).stems)
  }

  /** The running total runs ahead of the bytes in use by what other done chapters counted for the same file. */
  lemma SpentRunsAhead(s: Store, i: nat, stuck: set<string>, total: int)
    requires i < |s.jobs|
    ensures Spent(s, i, stuck, total) - UsedBytes(Swept(Gone(s, i), stuck))
         == total - UsedBytes(s) + Claimed(s.jobs, s.files, s.jobs[i].output) - OutputSize(s.jobs[i], s.files)
    ensures total >= UsedBytes(s) ==> Spent(s, i, stuck, total) >= UsedBytes(Swept(Gone(s, i), stuck))
    ensures DistinctOutputs(s.jobs) && total == UsedBytes(s) ==>
              Spent(s, i, stuck, total) == UsedBytes(Swept(Gone(s, i), stuck))
  {
    hide Kept, StemBytes, JobBytes, Claimed, OutputSize, Orphans;
    JobBytesWithout(s.jobs, s.files, i);
    OwnShare(s.jobs, s.files, i);
  }

  // ---- the whole walk, on values ---------------------------------------------

  predicate Evictable(s: Store, i: nat, now: real)
    requires i < |s.jobs|
  {
    s.jobs[i].status == Done && s.jobs[i].HasAired(now)
  }

  function CandidatesUpTo(s: Store, now: real, n: nat): seq<nat>
    requires n <= |s.jobs|
  {
    if n == 0 then []
    else if Evictable(s, n - 1, now) then CandidatesUpTo(s, now, n - 1) + [n - 1]
    else CandidatesUpTo(s, now, n - 1)
  }

  function AirTime(jobs: seq<Job>, i: int): real {
    if 0 <= i < |jobs| && jobs[i].airAt.Some? then jobs[i].airAt.value else 0.0
  }

  function AirsNoLater(jobs: seq<Job>): Order<nat> {
    (i, j) => AirTime(jobs, i) <= AirTime(jobs, j)
  }

  /** Chapters that have finished airing, oldest air time first. */
  function Candidates(s: Store, now: real): seq<nat> {
    Sort(AirsNoLater(s.jobs), CandidatesUpTo(s, now, |s.jobs|))
  }

  predicate InBounds(todo: seq<nat>, n: nat) {
    forall k | 0 <= k < |todo| :: todo[k] < n
  }

  /** The store after walking the candidates in `todo` until the running total is no longer over the cap. */
  function Walked(s: Store, total: int, todo: seq<nat>, cap: nat, locked: set<string>, stuck: set<string>): Store
    requires InBounds(todo, |s.jobs|)
    decreases |todo|
  {
    if todo == [] || total <= cap then s
    else if Held(s, todo[0], locked) then Walked(s, total, todo[1..], cap, locked, stuck)
    else Walked(Swept(Gone(s, todo[0]), stuck), Spent(s, todo[0], stuck, total), todo[1..], cap, locked, stuck)
  }

  /** The ids that walk evicts. */
  function EvictedIds(s: Store, total: int, todo: seq<nat>, cap: nat, locked: set<string>,
                      stuck: set<string>): seq<string>
    requires InBounds(todo, |s.jobs|)
    decreases |todo|
  {
    if todo == [] || total <= cap then []
    else if Held(s, todo[0], locked) then EvictedIds(s, total, todo[1..], cap, locked, stuck)
    else
      [s.jobs[todo[0]].id]
      + EvictedIds(Swept(Gone(s, todo[0]), stuck), Spent(s, todo[0], stuck, total), todo[1..], cap, locked, stuck)
  }

  lemma {:induction false} CandidatesInBounds(s: Store, now: real, n: nat)
    requires n <= |s.jobs|
    ensures forall i :: i in CandidatesUpTo(s, now, n) <==> 0 <= i < n && Evictable(s, i, now)
  {
    if n > 0 {
      CandidatesInBounds(s, now, n - 1);
    }
  }

  lemma CandidatesAre(s: Store, now: real)
    ensures forall i :: i in Candidates(s, now) <==> 0 <= i < |s.jobs| && Evictable(s, i, now)
    ensures InBounds(Candidates(s, now), |s.jobs|)
    ensures SortedBy(AirsNoLater(s.jobs), Candidates(s, now))
  {
    var listed, c := CandidatesUpTo(s, now, |s.jobs|), Candidates(s, now);
    CandidatesInBounds(s, now, |s.jobs|);
    SortSorts(AirsNoLater(s.jobs), listed);
    forall i
      ensures i in c <==> i in listed
    {
      assert i in multiset(c) <==> i in multiset(listed);
    }
    forall k | 0 <= k < |c|
      ensures c[k] < |s.jobs|
    {
      assert c[k] in c;
    }
  }

  // ---- the cache -------------------------------------------------------------

  class Cache {
    var jobs: seq<Job>
    var files: map<string, nat>
    var stems: seq<Stem>

    function State(): Store
      reads this
    {
      Store(jobs, files, stems)
    }

    method RemoveStems(dirs: seq<string>, stuck: set<string>, total0: nat) returns (total: nat)
      requires total0 >= StemBytes(stems)
      modifies this`stems
      ensures stems == Kept(old(stems), Dirs(dirs) - stuck)
      ensures total + StemBytes(old(stems)) == total0 + StemBytes(stems)
    {
      hide Kept, StemBytes, DirBytes, Dirs;
      total := total0;
      ghost var was := stems;
      NothingGone(was, stuck);
      for k := 0 to |dirs|
        invariant stems == Kept(was, Dirs(dirs[..k]) - stuck)
        invariant total + StemBytes(was) == total0 + StemBytes(stems) && total >= StemBytes(stems)
      {
        var d := dirs[k];
        DirsStep(dirs, k, stuck);
        if d !in stuck {
          var bytes := DirBytes(stems, d);
          KeptOne(stems, d);
          KeptTwice(was, Dirs(dirs[..k]) - stuck, {d});
          stems := Kept(stems, {d});
          total := SaturatingSub(total, bytes);
        }
      }
      assert dirs[..|dirs|] == dirs;
    }

    /** Removes one chapter, and whatever stems that leaves without a live job. */
    method EvictOne(i: nat, stuck: set<string>, total0: nat) returns (total: nat)
      requires i < |jobs| && total0 >= UsedBytes(State())
      modifies this
      ensures State() == Swept(Gone(old(State()), i), stuck)
      ensures total == Spent(old(State()), i, stuck, total0) && total >= UsedBytes(State())
      ensures DistinctOutputs(old(jobs)) && total0 == UsedBytes(old(State())) ==> total == UsedBytes(State())
    {
      ghost var was := State();
      JobBytesWithout(jobs, files, i);
      OwnShare(jobs, files, i);
      SpentRunsAhead(was, i, stuck, total0);
      hide JobBytes, StemBytes, Kept, Orphans, OutputSize, Claimed;
      var bytes := OutputSize(jobs[i], files);
      files := files - {jobs[i].output};
      total := SaturatingSub(total0, bytes);
      jobs := jobs[i := jobs[i].(status := Evicted)];
      assert State() == Gone(was, i);
      total := RemoveStems(Orphans(jobs, stems), stuck, total);
    }

    /** Brings the cache under `cap`, where `locked` files and `stuck` directories cannot be removed. */
    method EnforceCap(cap: nat, now: real, locked: set<string>, stuck: set<string>) returns (evicted: seq<string>)
      modifies this
      ensures InBounds(Candidates(old(State()), now), |old(jobs)|)
      ensures UsedBytes(old(State())) <= cap ==> State() == old(State()) && evicted == []
      ensures UsedBytes(old(State())) > cap ==>
                var swept, todo := Swept(old(State()), stuck), Candidates(old(State()), now);
                State() == Walked(swept, UsedBytes(swept), todo, cap, locked, stuck)
                && evicted == EvictedIds(swept, UsedBytes(swept), todo, cap, locked, stuck)
    {
      hide UsedBytes, JobBytes, StemBytes, Kept, Orphans, Candidates, Walked, EvictedIds, Spent;
      ghost var first := State();
      CandidatesAre(first, now);
      evicted := [];
      var total := UsedBytes(State());
      if total <= cap {
        return;
      }
      UsedIsBoth(State());
      total := RemoveStems(Orphans(jobs, stems), stuck, total);
      UsedIsBoth(first);
      UsedIsBoth(State());
      ghost var swept, used := State(), total;
      var candidates := Candidates(Store(jobs, files, stems), now);
      SameCandidates(first, swept, now);
      assert candidates[0..] == candidates;
      assert evicted + EvictedIds(swept, used, candidates, cap, locked, stuck)
          == EvictedIds(swept, used, candidates, cap, locked, stuck);
      for k := 0 to |candidates|
        invariant |jobs| == |first.jobs| && total >= UsedBytes(State())
        invariant Walked(State(), total, candidates[k..], cap, locked, stuck)
                  == Walked(swept, used, candidates, cap, locked, stuck)
        invariant evicted + EvictedIds(State(), total, candidates[k..], cap, locked, stuck)
               == EvictedIds(swept, used, candidates, cap, locked, stuck)
      {
        ghost var before, earlier := State(), total;
        WalkStep(before, earlier, candidates[k..], cap, locked, stuck);
        assert candidates[k..][1..] == candidates[k + 1..];
        if total <= cap {
          assert evicted + [] == evicted;
          return;
        }
        var i := candidates[k];
        if jobs[i].output in locked && jobs[i].output in files {
          continue;
        }
        ghost var ids := evicted;
        evicted := evicted + [jobs[i].id];
        total := EvictOne(i, stuck, total);
        Regrouped(ids, before.jobs[i].id, EvictedIds(State(), total, candidates[k + 1..], cap, locked, stuck));
      }
      WalkEnd(State(), total, cap, locked, stuck);
      assert candidates[|candidates|..] == [] && evicted + [] == evicted;
    }
  }

  lemma UsedIsBoth(s: Store)
    ensures UsedBytes(s) == JobBytes(s.jobs, s.files) + StemBytes(s.stems)
  {
  }

  lemma WalkEnd(s: Store, total: int, cap: nat, locked: set<string>, stuck: set<string>)
    ensures Walked(s, total, [], cap, locked, stuck) == s && EvictedIds(s, total, [], cap, locked, stuck) == []
  {
  }

  /** One turn of the walk. */
  lemma WalkStep(s: Store, total: int, todo: seq<nat>, cap: nat, locked: set<string>, stuck: set<string>)
    requires todo != [] && InBounds(todo, |s.jobs|)
    ensures InBounds(todo[1..], |s.jobs|)
    ensures total <= cap ==>
              Walked(s, total, todo, cap, locked, stuck) == s && EvictedIds(s, total, todo, cap, locked, stuck) == []
    ensures total > cap ==>
              if Held(s, todo[0], locked) then
                && Walked(s, total, todo, cap, locked, stuck) == Walked(s, total, todo[1..], cap, locked, stuck)
                && EvictedIds(s, total, todo, cap, locked, stuck) == EvictedIds(s, total, todo[1..], cap, locked, stuck)
              else
                var next, left := Swept(Gone(s, todo[0]), stuck), Spent(s, todo[0], stuck, total);
                && Walked(s, total, todo, cap, locked, stuck) == Walked(next, left, todo[1..], cap, locked, stuck)
                && EvictedIds(s, total, todo, cap, locked, stuck)
                   == [s.jobs[todo[0]].id] + EvictedIds(next, left, todo[1..], cap, locked, stuck)
  {
    hide Spent, Swept, Held;
  }

  lemma SameCandidates(a: Store, b: Store, now: real)
    requires a.jobs == b.jobs
    ensures Candidates(a, now) == Candidates(b, now)
  {
    SameCandidatesUpTo(a, b, now, |a.jobs|);
  }

  lemma {:induction false} SameCandidatesUpTo(a: Store, b: Store, now: real, n: nat)
    requires a.jobs == b.jobs && n <= |a.jobs|
    ensures CandidatesUpTo(a, now, n) == CandidatesUpTo(b, now, n)
  {
    if n > 0 {
      SameCandidatesUpTo(a, b, now, n - 1);
    }
  }

  // ---- what a walk does ------------------------------------------------------

  /** Of `todo`, the candidates whose file can be removed. */
  function Removable(s: Store, todo: seq<nat>, locked: set<string>): seq<nat>
    requires InBounds(todo, |s.jobs|)
  {
    if todo == [] then []
    else if Held(s, todo[0], locked) then Removable(s, todo[1..], locked)
    else [todo[0]] + Removable(s, todo[1..], locked)
  }

  /** The store after evicting the first `n` of `order`, one at a time. */
  function After(s: Store, order: seq<nat>, n: nat, stuck: set<string>): Store
    requires n <= |order| && InBounds(order, |s.jobs|)
    ensures |After(s, order, n, stuck).jobs| == |s.jobs|
  {
    if n == 0 then s else Swept(Gone(After(s, order, n - 1, stuck), order[n - 1]), stuck)
  }

  /** The running total by then. */
  function TotalAfter(s: Store, total: int, order: seq<nat>, n: nat, stuck: set<string>): int
    requires n <= |order| && InBounds(order, |s.jobs|)
  {
    if n == 0 then total
    else Spent(After(s, order, n - 1, stuck), order[n - 1], stuck, TotalAfter(s, total, order, n - 1, stuck))
  }

  predicate Distinct(todo: seq<nat>) {
    forall i, j | 0 <= i < j < |todo| :: todo[i] != todo[j]
  }

  function Ids(jobs: seq<Job>, order: seq<nat>): seq<string>
    requires InBounds(order, |jobs|)
  {
    seq(|order|, k requires 0 <= k < |order| => jobs[order[k]].id)
  }

  /** Evicting one chapter changes nothing about whether another's file can be removed. */
  lemma HeldElsewhere(s: Store, i: nat, j: nat, locked: set<string>, stuck: set<string>)
    requires i < |s.jobs| && j < |s.jobs| && !Held(s, i, locked)
    ensures Held(Swept(Gone(s, i), stuck), j, locked) == Held(s, j, locked)
  {
    hide Kept, Orphans;
  }

  lemma {:induction false} RemovableElsewhere(s: Store, i: nat, todo: seq<nat>, locked: set<string>, stuck: set<string>)
    requires i < |s.jobs| && InBounds(todo, |s.jobs|) && !Held(s, i, locked)
    ensures |Swept(Gone(s, i), stuck).jobs| == |s.jobs|
    ensures Removable(Swept(Gone(s, i), stuck), todo, locked) == Removable(s, todo, locked)
  {
    hide Swept, Gone, Held;
    SizeKept(s, i, stuck);
    if todo != [] {
      HeldElsewhere(s, i, todo[0], locked, stuck);
      RemovableElsewhere(s, i, todo[1..], locked, stuck);
    }
  }

  lemma SizeKept(s: Store, i: nat, stuck: set<string>)
    requires i < |s.jobs|
    ensures |Swept(Gone(s, i), stuck).jobs| == |s.jobs|
  {
    hide Kept, Orphans;
  }

  lemma NextKeeps(s: Store, i: nat, stuck: set<string>)
    requires i < |s.jobs|
    ensures var next := Swept(Gone(s, i), stuck);
      && |next.jobs| == |s.jobs|
      && (forall k | 0 <= k < |s.jobs| :: next.jobs[k].id == s.jobs[k].id && next.jobs[k].output == s.jobs[k].output)
      && next.jobs == s.jobs[i := s.jobs[i].(status := Evicted)]
      && next.files == s.files - {s.jobs[i].output}
  {
    hide Kept, Orphans;
  }

  lemma {:induction false} AfterShift(s: Store, i: nat, later: seq<nat>, n: nat, stuck: set<string>)
    requires i < |s.jobs| && n <= |later| && InBounds(later, |s.jobs|)
    ensures InBounds([i] + later, |s.jobs|) && |Swept(Gone(s, i), stuck).jobs| == |s.jobs|
    ensures After(s, [i] + later, n + 1, stuck) == After(Swept(Gone(s, i), stuck), later, n, stuck)
  {
    hide Swept, Gone;
    NextKeeps(s, i, stuck);
    assert forall k | 0 <= k < |later| :: ([i] + later)[k + 1] == later[k];
    if n == 0 {
      assert After(s, [i] + later, 0, stuck) == s;
    } else {
      AfterShift(s, i, later, n - 1, stuck);
    }
  }

  lemma TotalStep(s: Store, total: int, order: seq<nat>, n: nat, stuck: set<string>)
    requires n < |order| && InBounds(order, |s.jobs|)
    ensures TotalAfter(s, total, order, 0, stuck) == total && After(s, order, 0, stuck) == s
    ensures TotalAfter(s, total, order, n + 1, stuck)
         == Spent(After(s, order, n, stuck), order[n], stuck, TotalAfter(s, total, order, n, stuck))
  {
  }

  lemma {:induction false} TotalShift(s: Store, total: int, i: nat, later: seq<nat>, n: nat, stuck: set<string>)
    requires i < |s.jobs| && n <= |later| && InBounds(later, |s.jobs|)
    ensures InBounds([i] + later, |s.jobs|) && |Swept(Gone(s, i), stuck).jobs| == |s.jobs|
    ensures TotalAfter(s, total, [i] + later, n + 1, stuck)
         == TotalAfter(Swept(Gone(s, i), stuck), Spent(s, i, stuck, total), later, n, stuck)
  {
    hide Swept, Gone, Spent, After, TotalAfter;
    NextKeeps(s, i, stuck);
    var order, next := [i] + later, Swept(Gone(s, i), stuck);
    assert InBounds(order, |s.jobs|) && order[0] == i;
    TotalStep(s, total, order, n, stuck);
    TotalStep(s, total, order, 0, stuck);
    if n == 0 {
      NoneSpent(next, Spent(s, i, stuck, total), later, stuck);
    } else {
      TotalShift(s, total, i, later, n - 1, stuck);
      AfterShift(s, i, later, n - 1, stuck);
      TotalStep(next, Spent(s, i, stuck, total), later, n - 1, stuck);
      assert order[n] == later[n - 1];
    }
  }

  lemma NoneSpent(s: Store, total: int, order: seq<nat>, stuck: set<string>)
    requires InBounds(order, |s.jobs|)
    ensures TotalAfter(s, total, order, 0, stuck) == total && After(s, order, 0, stuck) == s
  {
  }

  lemma {:induction false} RemovableInBounds(s: Store, todo: seq<nat>, locked: set<string>)
    requires InBounds(todo, |s.jobs|)
    ensures InBounds(Removable(s, todo, locked), |s.jobs|)
    ensures forall i :: i in Removable(s, todo, locked) <==> i in todo && 0 <= i < |s.jobs| && !Held(s, i, locked)
  {
    hide Held;
    if todo != [] {
      RemovableInBounds(s, todo[1..], locked);
      assert todo == [todo[0]] + todo[1..];
    }
  }

  /** Walking `todo` evicted exactly the first `n` of `order`: fewer would have left the running total over the cap,
      and it stopped short of all of them only once it was not. */
  ghost predicate EvictsFirst(s: Store, total: int, todo: seq<nat>, order: seq<nat>, n: nat, cap: nat,
                              locked: set<string>, stuck: set<string>)
    requires InBounds(todo, |s.jobs|) && InBounds(order, |s.jobs|)
  {
    && n <= |order|
    && Walked(s, total, todo, cap, locked, stuck) == After(s, order, n, stuck)
    && EvictedIds(s, total, todo, cap, locked, stuck) == Ids(s.jobs, order[..n])
    && (forall m: nat | m < n :: TotalAfter(s, total, order, m, stuck) > cap)
    && (n < |order| ==> TotalAfter(s, total, order, n, stuck) <= cap)
  }

  lemma OverUntil(s: Store, total: int, i: nat, later: seq<nat>, n: nat, cap: nat, stuck: set<string>)
    requires i < |s.jobs| && InBounds(later, |s.jobs|) && InBounds([i] + later, |s.jobs|) && n <= |later| && total > cap
    requires |Swept(Gone(s, i), stuck).jobs| == |s.jobs|
    requires forall m: nat | m < n ::
             TotalAfter(Swept(Gone(s, i), stuck), Spent(s, i, stuck, total), later, m, stuck) > cap
    ensures forall m: nat | m < n + 1 :: TotalAfter(s, total, [i] + later, m, stuck) > cap
  {
    hide Swept, Gone, Spent, TotalAfter;
    forall m: nat | m < n + 1
      ensures TotalAfter(s, total, [i] + later, m, stuck) > cap
    {
      if m > 0 {
        TotalShift(s, total, i, later, m - 1, stuck);
      } else {
        NoneSpent(s, total, [i] + later, stuck);
      }
    }
  }

  lemma IdsShift(jobs: seq<Job>, next: seq<Job>, i: nat, later: seq<nat>, n: nat)
    requires i < |jobs| == |next| && n <= |later| && InBounds(later, |jobs|)
    requires forall k | 0 <= k < |jobs| :: next[k].id == jobs[k].id
    ensures InBounds(([i] + later)[..n + 1], |jobs|) && InBounds(later[..n], |jobs|)
    ensures [jobs[i].id] + Ids(next, later[..n]) == Ids(jobs, ([i] + later)[..n + 1])
  {
    assert ([i] + later)[..n + 1] == [i] + later[..n];
  }

  lemma EvictsOneMore(s: Store, total: int, todo: seq<nat>, later: seq<nat>, n: nat, cap: nat, locked: set<string>,
                      stuck: set<string>)
    requires todo != [] && InBounds(todo, |s.jobs|) && InBounds(later, |s.jobs|)
    requires total > cap && !Held(s, todo[0], locked)
    requires var next := Swept(Gone(s, todo[0]), stuck);
      |next.jobs| == |s.jobs|
      && EvictsFirst(next, Spent(s, todo[0], stuck, total), todo[1..], later, n, cap, locked, stuck)
    ensures InBounds([todo[0]] + later, |s.jobs|)
    ensures EvictsFirst(s, total, todo, [todo[0]] + later, n + 1, cap, locked, stuck)
  {
    hide Swept, Gone, Held, Spent, TotalAfter, After, Walked, EvictedIds, Ids;
    var i := todo[0];
    var next := Swept(Gone(s, i), stuck);
    NextKeeps(s, i, stuck);
    WalkStep(s, total, todo, cap, locked, stuck);
    AfterShift(s, i, later, n, stuck);
    TotalShift(s, total, i, later, n, stuck);
    OverUntil(s, total, i, later, n, cap, stuck);
    IdsShift(s.jobs, next.jobs, i, later, n);
  }

  lemma EvictsNone(s: Store, total: int, todo: seq<nat>, order: seq<nat>, cap: nat, locked: set<string>,
                   stuck: set<string>)
    requires InBounds(todo, |s.jobs|) && InBounds(order, |s.jobs|)
    requires total <= cap || (todo == [] && order == [])
    ensures EvictsFirst(s, total, todo, order, 0, cap, locked, stuck)
  {
  }

  lemma EvictsSkipping(s: Store, total: int, todo: seq<nat>, order: seq<nat>, n: nat, cap: nat, locked: set<string>,
                       stuck: set<string>)
    requires todo != [] && InBounds(todo, |s.jobs|) && InBounds(order, |s.jobs|)
    requires total > cap && Held(s, todo[0], locked)
    requires EvictsFirst(s, total, todo[1..], order, n, cap, locked, stuck)
    ensures EvictsFirst(s, total, todo, order, n, cap, locked, stuck)
  {
    hide Held, Swept, Gone, Spent, TotalAfter, After, Walked, EvictedIds, Ids;
    WalkStep(s, total, todo, cap, locked, stuck);
  }

  lemma RemovableStep(s: Store, todo: seq<nat>, locked: set<string>)
    requires todo != [] && InBounds(todo, |s.jobs|)
    ensures Removable(s, todo, locked)
         == if Held(s, todo[0], locked) then Removable(s, todo[1..], locked)
            else [todo[0]] + Removable(s, todo[1..], locked)
  {
  }

  /** The walk evicts the shortest prefix, oldest air time first, of the chapters it can remove. */
  lemma {:induction false} WalkIsShortestPrefix(s: Store, total: int, todo: seq<nat>, cap: nat, locked: set<string>,
                                                stuck: set<string>)
    returns (n: nat)
    requires InBounds(todo, |s.jobs|)
    ensures InBounds(Removable(s, todo, locked), |s.jobs|)
    ensures EvictsFirst(s, total, todo, Removable(s, todo, locked), n, cap, locked, stuck)
    decreases |todo|
  {
    hide Swept, Gone, Held, EvictsFirst, Removable, Spent;
    RemovableInBounds(s, todo, locked);
    if todo == [] {
      NothingRemovable(s, locked);
      n := 0;
      EvictsNone(s, total, todo, [], cap, locked, stuck);
    } else if total <= cap {
      n := 0;
      EvictsNone(s, total, todo, Removable(s, todo, locked), cap, locked, stuck);
    } else {
      RemovableStep(s, todo, locked);
      RemovableInBounds(s, todo[1..], locked);
      if Held(s, todo[0], locked) {
        n := WalkIsShortestPrefix(s, total, todo[1..], cap, locked, stuck);
        EvictsSkipping(s, total, todo, Removable(s, todo[1..], locked), n, cap, locked, stuck);
      } else {
        RemovableElsewhere(s, todo[0], todo[1..], locked, stuck);
        var m := WalkIsShortestPrefix(Swept(Gone(s, todo[0]), stuck), Spent(s, todo[0], stuck, total), todo[1..], cap,
                                      locked, stuck);
        EvictsOneMore(s, total, todo, Removable(s, todo[1..], locked), m, cap, locked, stuck);
        n := m + 1;
      }
    }
  }

  lemma NothingRemovable(s: Store, locked: set<string>)
    ensures Removable(s, [], locked) == []
  {
  }

  lemma {:induction false} CandidatesDistinct(s: Store, now: real, n: nat)
    requires n <= |s.jobs|
    ensures Distinct(CandidatesUpTo(s, now, n))
  {
    if n > 0 {
      CandidatesDistinct(s, now, n - 1);
      CandidatesInBounds(s, now, n - 1);
      var earlier := CandidatesUpTo(s, now, n - 1);
      assert forall k | 0 <= k < |earlier| :: earlier[k] in earlier;
    }
  }

  lemma SortKeepsDistinct(le: Order<nat>, a: seq<nat>)
    requires Distinct(a)
    ensures Distinct(Sort(le, a))
  {
    DistinctTransfers(Sort(le, a), a);
  }

  // ---- what is safe ----------------------------------------------------------

  lemma AfterStep(s: Store, order: seq<nat>, n: nat, stuck: set<string>)
    requires 0 < n <= |order| && InBounds(order, |s.jobs|)
    ensures order[n - 1] < |s.jobs| == |After(s, order, n - 1, stuck).jobs|
    ensures After(s, order, n, stuck) == Swept(Gone(After(s, order, n - 1, stuck), order[n - 1]), stuck)
  {
  }

  /** Some chapter of `gone` is written to `output`. */
  predicate Takes(jobs: seq<Job>, gone: seq<nat>, output: string)
    requires InBounds(gone, |jobs|)
  {
    exists k | 0 <= k < |gone| :: jobs[gone[k]].output == output
  }

  /** Exactly the chapters of `gone` have been evicted, and exactly their output files removed. */
  ghost predicate OnlyEvicted(s: Store, t: Store, gone: seq<nat>)
    requires |s.jobs| == |t.jobs| && InBounds(gone, |s.jobs|)
  {
    && (forall j | 0 <= j < |s.jobs| :: t.jobs[j] == if j in gone then s.jobs[j].(status := Evicted) else s.jobs[j])
    && (forall f :: f in t.files <==> f in s.files && !Takes(s.jobs, gone, f))
    && (forall f <- t.files :: t.files[f] == s.files[f])
  }

  lemma AfterNone(s: Store, order: seq<nat>, stuck: set<string>)
    requires InBounds(order, |s.jobs|)
    ensures After(s, order, 0, stuck) == s && OnlyEvicted(s, s, order[..0]) && StemsSafe(s, s)
  {
  }

  lemma TakesOneMore(jobs: seq<Job>, gone: seq<nat>, i: nat, output: string)
    requires InBounds(gone, |jobs|) && i < |jobs|
    ensures InBounds(gone + [i], |jobs|)
    ensures Takes(jobs, gone + [i], output) <==> Takes(jobs, gone, output) || jobs[i].output == output
  {
    var more := gone + [i];
    assert more[|gone|] == i;
    if k :| 0 <= k < |gone| && jobs[gone[k]].output == output {
      assert jobs[more[k]].output == output;
    }
  }

  lemma OneMoreEvicted(s: Store, t: Store, gone: seq<nat>, i: nat, stuck: set<string>)
    requires |s.jobs| == |t.jobs| && i < |s.jobs| && InBounds(gone, |s.jobs|) && OnlyEvicted(s, t, gone)
    ensures |Swept(Gone(t, i), stuck).jobs| == |s.jobs| && InBounds(gone + [i], |s.jobs|)
    ensures OnlyEvicted(s, Swept(Gone(t, i), stuck), gone + [i])
  {
    hide Swept, Gone, Takes;
    NextKeeps(t, i, stuck);
    assert t.jobs[i].output == s.jobs[i].output;
    forall f
      ensures Takes(s.jobs, gone + [i], f) <==> Takes(s.jobs, gone, f) || s.jobs[i].output == f
    {
      TakesOneMore(s.jobs, gone, i, f);
    }
  }

  lemma {:induction false} AfterOnlyEvicted(s: Store, order: seq<nat>, n: nat, stuck: set<string>)
    requires n <= |order| && InBounds(order, |s.jobs|)
    ensures OnlyEvicted(s, After(s, order, n, stuck), order[..n])
  {
    hide OnlyEvicted, Swept, Gone, After;
    AfterNone(s, order, stuck);
    if n > 0 {
      AfterOnlyEvicted(s, order, n - 1, stuck);
      AfterStep(s, order, n, stuck);
      OneMoreEvicted(s, After(s, order, n - 1, stuck), order[..n - 1], order[n - 1], stuck);
      assert order[..n] == order[..n - 1] + [order[n - 1]];
    }
  }

  /** Only stems no live job refers to have gone, and none at all while a job was in flight. */
  ghost predicate StemsSafe(s: Store, t: Store) {
    && (forall x <- s.stems :: Referenced(t.jobs, x.dir) ==> x in t.stems)
    && (AnyInFlight(s.jobs) ==> t.stems == s.stems && AnyInFlight(t.jobs))
  }

  lemma SweepSafe(s: Store, stuck: set<string>)
    ensures StemsSafe(s, Swept(s, stuck))
  {
    OrphansAre(s.jobs, s.stems);
    KeptMembers(s.stems, Dirs(Orphans(s.jobs, s.stems)) - stuck);
    if AnyInFlight(s.jobs) {
      KeptNone(s.stems, Dirs(Orphans(s.jobs, s.stems)) - stuck);
    }
  }

  /** A store that has been swept holds no stems but those a live job refers to, or that cannot be removed. */
  lemma SweepLeavesNoOrphan(s: Store, stuck: set<string>)
    ensures AnyInFlight(s.jobs) || forall x <- Swept(s, stuck).stems :: Referenced(s.jobs, x.dir) || x.dir in stuck
  {
    OrphansAre(s.jobs, s.stems);
    KeptMembers(s.stems, Dirs(Orphans(s.jobs, s.stems)) - stuck);
  }

  lemma StemsSafeOn(s: Store, t: Store, i: nat, stuck: set<string>)
    requires StemsSafe(s, t) && i < |t.jobs| && t.jobs[i].status == Done
    ensures StemsSafe(s, Swept(Gone(t, i), stuck))
  {
    var gone := Gone(t, i);
    SweepSafe(gone, stuck);
    hide Swept;
    forall d | Referenced(gone.jobs, d)
      ensures Referenced(t.jobs, d)
    {
      var j :| j in gone.jobs && j.Live() && d in j.stems;
      var k :| 0 <= k < |gone.jobs| && gone.jobs[k] == j;
      assert j == t.jobs[k];
    }
    if AnyInFlight(t.jobs) {
      var j :| j in t.jobs && j.InFlight();
      var k :| 0 <= k < |t.jobs| && t.jobs[k] == j;
      assert gone.jobs[k] == j && j in gone.jobs;
    }
  }

  /** A chapter is untouched until its turn. */
  lemma NotYet(s: Store, order: seq<nat>, n: nat, stuck: set<string>)
    requires n < |order| && InBounds(order, |s.jobs|) && Distinct(order)
    ensures After(s, order, n, stuck).jobs[order[n]] == s.jobs[order[n]]
  {
    AfterOnlyEvicted(s, order, n, stuck);
    assert order[n] !in order[..n];
  }

  lemma {:induction false} AfterStemsSafe(s: Store, order: seq<nat>, n: nat, stuck: set<string>)
    requires n <= |order| && InBounds(order, |s.jobs|) && Distinct(order)
    requires forall k | 0 <= k < |order| :: s.jobs[order[k]].status == Done
    ensures StemsSafe(s, After(s, order, n, stuck))
  {
    hide StemsSafe, Swept, Gone, Distinct, After;
    AfterNone(s, order, stuck);
    if n > 0 {
      AfterStemsSafe(s, order, n - 1, stuck);
      NotYet(s, order, n - 1, stuck);
      AfterStep(s, order, n, stuck);
      var t, i := After(s, order, n - 1, stuck), order[n - 1];
      assert i < |t.jobs| && t.jobs[i].status == Done;
      StemsSafeOn(s, t, i, stuck);
    }
  }

  lemma {:induction false} RemovableDistinct(s: Store, todo: seq<nat>, locked: set<string>)
    requires InBounds(todo, |s.jobs|) && Distinct(todo)
    ensures Distinct(Removable(s, todo, locked)) && InBounds(Removable(s, todo, locked), |s.jobs|)
  {
    RemovableInBounds(s, todo, locked);
    if todo != [] {
      var later := todo[1..];
      RemovableDistinct(s, later, locked);
      RemovableInBounds(s, later, locked);
      var r := Removable(s, later, locked);
      assert todo[0] !in later;
      assert forall k | 0 <= k < |r| :: r[k] in r;
    }
  }

  /** Job `i` airs before job `j`, or with it and is listed before it. */
  predicate Older(jobs: seq<Job>, i: nat, j: nat)
    requires i < |jobs| && j < |jobs|
  {
    && jobs[i].airAt.Some? && jobs[j].airAt.Some?
    && (jobs[i].airAt.value < jobs[j].airAt.value || (jobs[i].airAt.value == jobs[j].airAt.value && i < j))
  }

  ghost predicate OldestFirst(jobs: seq<Job>, todo: seq<nat>) {
    InBounds(todo, |jobs|) && forall x, y | 0 <= x < y < |todo| :: Older(jobs, todo[x], todo[y])
  }

  predicate ListedSooner(i: nat, j: nat) {
    i < j
  }

  ghost predicate Ascends(c: seq<nat>) {
    forall x, y | 0 <= x < y < |c| :: ListedSooner(c[x], c[y])
  }

  lemma AscendsOn(c: seq<nat>, i: nat)
    requires Ascends(c) && forall k | 0 <= k < |c| :: c[k] < i
    ensures Ascends(c + [i])
  {
  }

  lemma {:induction false} CandidatesAscend(s: Store, now: real, n: nat)
    requires n <= |s.jobs|
    ensures Ascends(CandidatesUpTo(s, now, n))
  {
    if n > 0 {
      CandidatesAscend(s, now, n - 1);
      CandidatesInBounds(s, now, n - 1);
      var c := CandidatesUpTo(s, now, n - 1);
      forall k | 0 <= k < |c|
        ensures c[k] < n - 1
      {
        assert c[k] in c;
      }
      AscendsOn(c, n - 1);
    }
  }

  lemma AheadIsOlder(jobs: seq<Job>, i: nat, j: nat)
    requires i < |jobs| && j < |jobs| && jobs[i].airAt.Some? && jobs[j].airAt.Some?
    requires Ahead(AirsNoLater(jobs), ListedSooner, i, j)
    ensures Older(jobs, i, j)
  {
  }

  lemma CandidatesInTurn(s: Store, now: real)
    ensures InTurn(AirsNoLater(s.jobs), ListedSooner, Candidates(s, now))
  {
    CandidatesAscend(s, now, |s.jobs|);
    SortIsStable(AirsNoLater(s.jobs), ListedSooner, CandidatesUpTo(s, now, |s.jobs|));
  }

  lemma CandidatesOldestFirst(s: Store, now: real)
    ensures OldestFirst(s.jobs, Candidates(s, now))
  {
    hide Candidates, AirsNoLater, ListedSooner, InTurn, Ahead, Older;
    var todo := Candidates(s, now);
    CandidatesAre(s, now);
    CandidatesInTurn(s, now);
    forall x, y | 0 <= x < y < |todo|
      ensures Older(s.jobs, todo[x], todo[y])
    {
      assert todo[x] in todo && todo[y] in todo;
      InTurnAt(AirsNoLater(s.jobs), ListedSooner, todo, x, y);
      AheadIsOlder(s.jobs, todo[x], todo[y]);
    }
  }

  /** What a call over the cap starts from, and the chapters it can remove, oldest air time first. */
  lemma CandidateFacts(s: Store, now: real, locked: set<string>, stuck: set<string>)
    ensures var swept, todo := Swept(s, stuck), Candidates(s, now);
      && swept.jobs == s.jobs && swept.files == s.files
      && InBounds(todo, |swept.jobs|) && Distinct(todo) && SortedBy(AirsNoLater(s.jobs), todo)
      && OldestFirst(s.jobs, todo)
      && var order := Removable(swept, todo, locked);
         && InBounds(order, |s.jobs|) && Distinct(order)
         && (forall i :: i in order <==> 0 <= i < |s.jobs| && Evictable(s, i, now) && !Held(s, i, locked))
         && (forall k | 0 <= k < |order| :: s.jobs[order[k]].status == Done)
  {
    var swept, todo := Swept(s, stuck), Candidates(s, now);
    assert swept.jobs == s.jobs && swept.files == s.files;
    hide Swept, Candidates;
    CandidatesAre(s, now);
    assert Distinct(todo) by { CandidatesSortedDistinct(s, now); }
    CandidatesOldestFirst(s, now);
    RemovableInBounds(swept, todo, locked);
    RemovableDistinct(swept, todo, locked);
    var order := Removable(swept, todo, locked);
    assert forall k | 0 <= k < |order| :: order[k] in order;
  }

  lemma CandidatesSortedDistinct(s: Store, now: real)
    ensures Distinct(Candidates(s, now))
  {
    CandidatesDistinct(s, now, |s.jobs|);
    SortKeepsDistinct(AirsNoLater(s.jobs), CandidatesUpTo(s, now, |s.jobs|));
  }

  /** Over the cap, what goes is the shortest run, oldest air time first, of the chapters that have finished
      airing and can be removed: one fewer would have left the running total over the cap, and when it is still
      over the cap at the end there is not one left. */
  lemma EvictsOldestAired(s: Store, now: real, cap: nat, locked: set<string>, stuck: set<string>) returns (n: nat)
    ensures var swept, todo := Swept(s, stuck), Candidates(s, now);
      InBounds(todo, |swept.jobs|) && InBounds(Removable(swept, todo, locked), |swept.jobs|)
      && EvictsFirst(swept, UsedBytes(swept), todo, Removable(swept, todo, locked), n, cap, locked, stuck)
  {
    hide Swept, Candidates, EvictsFirst, UsedBytes;
    CandidateFacts(s, now, locked, stuck);
    n := WalkIsShortestPrefix(Swept(s, stuck), UsedBytes(Swept(s, stuck)), Candidates(s, now), cap, locked, stuck);
  }

  /** The running total is never below the bytes in use, so the cache is under its cap when the walk says so; and it is
      exactly the bytes in use when no two chapters have the same output. */
  lemma {:induction false} TotalIsTrue(s: Store, order: seq<nat>, n: nat, stuck: set<string>)
    requires n <= |order| && InBounds(order, |s.jobs|)
    ensures UsedBytes(After(s, order, n, stuck)) <= TotalAfter(s, UsedBytes(s), order, n, stuck)
    ensures DistinctOutputs(s.jobs) ==>
              DistinctOutputs(After(s, order, n, stuck).jobs)
              && UsedBytes(After(s, order, n, stuck)) == TotalAfter(s, UsedBytes(s), order, n, stuck)
  {
    hide UsedBytes, Swept, Gone, Spent, After, TotalAfter;
    NoneSpent(s, UsedBytes(s), order, stuck);
    if n > 0 {
      TotalIsTrue(s, order, n - 1, stuck);
      AfterStep(s, order, n, stuck);
      TotalStep(s, UsedBytes(s), order, n - 1, stuck);
      var t := After(s, order, n - 1, stuck);
      NextKeeps(t, order[n - 1], stuck);
      SpentRunsAhead(t, order[n - 1], stuck, TotalAfter(s, UsedBytes(s), order, n - 1, stuck));
    }
  }

  lemma LiveOnlyShrinks(s: Store, t: Store, gone: seq<nat>, dir: string)
    requires |s.jobs| == |t.jobs| && InBounds(gone, |s.jobs|) && OnlyEvicted(s, t, gone) && Referenced(t.jobs, dir)
    ensures Referenced(s.jobs, dir)
  {
    var j :| j in t.jobs && j.Live() && dir in j.stems;
    var k :| 0 <= k < |t.jobs| && t.jobs[k] == j;
    assert k !in gone && s.jobs[k] == j;
  }

  /** Some chapter that has finished airing is written to `output`. */
  ghost predicate TakenByAired(s: Store, now: real, output: string) {
    exists i | 0 <= i < |s.jobs| :: Evictable(s, i, now) && s.jobs[i].output == output
  }

  /** Every directory left is wanted or cannot be removed; nothing is said while a job is in flight. */
  predicate NoOrphans(s: Store, stuck: set<string>) {
    AnyInFlight(s.jobs) || forall x <- s.stems :: Referenced(s.jobs, x.dir) || x.dir in stuck
  }

  lemma SweptHasNoOrphans(s: Store, stuck: set<string>)
    ensures NoOrphans(Swept(s, stuck), stuck)
  {
    SweepLeavesNoOrphan(s, stuck);
    SweepKeepsJobs(s, stuck);
  }

  lemma NoOrphansAfter(s: Store, order: seq<nat>, n: nat, stuck: set<string>)
    requires n <= |order| && InBounds(order, |s.jobs|) && NoOrphans(s, stuck)
    ensures NoOrphans(After(s, order, n, stuck), stuck)
  {
    hide Swept, Gone, After, NoOrphans;
    NoneSpent(s, 0, order, stuck);
    if n > 0 {
      AfterStep(s, order, n, stuck);
      SweptHasNoOrphans(Gone(After(s, order, n - 1, stuck), order[n - 1]), stuck);
    }
  }

  /** Where a call over the cap ends: with some of the chapters that have finished airing evicted. */
  lemma WalkEnds(s: Store, now: real, cap: nat, locked: set<string>, stuck: set<string>)
    returns (t: Store, gone: seq<nat>)
    ensures var swept, todo := Swept(s, stuck), Candidates(s, now);
      InBounds(todo, |swept.jobs|) && t == Walked(swept, UsedBytes(swept), todo, cap, locked, stuck)
    ensures |t.jobs| == |s.jobs| && InBounds(gone, |s.jobs|) && OnlyEvicted(s, t, gone)
    ensures forall k | 0 <= k < |gone| :: Evictable(s, gone[k], now)
    ensures StemsSafe(Swept(s, stuck), t) && NoOrphans(t, stuck)
  {
    CandidateFacts(s, now, locked, stuck);
    SweptHasNoOrphans(s, stuck);
    hide Candidates, Removable, Distinct, Swept, Gone, UsedBytes, Walked, After, EvictedIds, TotalAfter, StemsSafe;
    hide NoOrphans, Takes, Evictable;
    var swept, todo := Swept(s, stuck), Candidates(s, now);
    var order := Removable(swept, todo, locked);
    var n := EvictsOldestAired(s, now, cap, locked, stuck);
    t, gone := After(swept, order, n, stuck), order[..n];
    AfterOnlyEvicted(swept, order, n, stuck);
    AfterStemsSafe(swept, order, n, stuck);
    NoOrphansAfter(swept, order, n, stuck);
    forall k | 0 <= k < |gone|
      ensures Evictable(s, gone[k], now)
    {
      assert order[k] in order;
    }
  }

  lemma StemsKept(s: Store, t: Store, gone: seq<nat>, stuck: set<string>)
    requires |t.jobs| == |s.jobs| && InBounds(gone, |s.jobs|) && OnlyEvicted(s, t, gone)
             && StemsSafe(Swept(s, stuck), t)
    ensures forall x <- s.stems :: Referenced(t.jobs, x.dir) ==> x in t.stems
    ensures AnyInFlight(s.jobs) ==> t.stems == s.stems
  {
    SweepSafe(s, stuck);
    SweepKeepsJobs(s, stuck);
    hide Swept, AnyInFlight, OnlyEvicted, Referenced;
    forall d | Referenced(t.jobs, d)
      ensures Referenced(s.jobs, d)
    {
      LiveOnlyShrinks(s, t, gone, d);
    }
  }

  lemma OnlyAiredTouched(s: Store, t: Store, now: real, gone: seq<nat>)
    requires |t.jobs| == |s.jobs| && InBounds(gone, |s.jobs|) && OnlyEvicted(s, t, gone)
    requires forall k | 0 <= k < |gone| :: Evictable(s, gone[k], now)
    ensures forall j | 0 <= j < |s.jobs| && !Evictable(s, j, now) :: t.jobs[j] == s.jobs[j]
    ensures forall f <- s.files | f !in t.files :: TakenByAired(s, now, f)
    ensures forall f <- t.files :: f in s.files && t.files[f] == s.files[f]
  {
    hide Evictable;
    forall f | f in s.files && f !in t.files
      ensures TakenByAired(s, now, f)
    {
      var k :| 0 <= k < |gone| && s.jobs[gone[k]].output == f;
      assert Evictable(s, gone[k], now);
    }
  }

  /** Done, and its last second past. */
  predicate MayGo(job: Job, now: real) {
    job.status == Done && job.airAt.Some? && job.airAt.value <= now && job.airAt.value + job.duration <= now
  }

  /** Some chapter waiting, being rendered or done was made with `dir`. */
  ghost predicate Wanted(jobs: seq<Job>, dir: string) {
    exists j | j in jobs :: (j.status == Queued || j.status == Running || j.status == Done) && dir in j.stems
  }

  /** Some chapter is waiting or being rendered: what stems it uses cannot be known yet. */
  ghost predicate StillToCome(jobs: seq<Job>) {
    exists j | j in jobs :: j.status == Queued || j.status == Running
  }

  lemma StatusesMean(s: Store, now: real)
    ensures forall j: nat | j < |s.jobs| :: Evictable(s, j, now) <==> MayGo(s.jobs[j], now)
    ensures forall d :: Referenced(s.jobs, d) <==> Wanted(s.jobs, d)
    ensures AnyInFlight(s.jobs) <==> StillToCome(s.jobs)
  {
  }

  /** No chapter but one that has finished airing changes status, no file but such a chapter's output goes, no stems
      of a chapter that is waiting, being rendered or done go, none go at all while one is waiting or being
      rendered, and otherwise none are left that no such chapter refers to and that could be removed. */
  lemma EvictionIsSafe(s: Store, now: real, cap: nat, locked: set<string>, stuck: set<string>)
    ensures var swept, todo := Swept(s, stuck), Candidates(s, now);
      InBounds(todo, |swept.jobs|)
      && var t := Walked(swept, UsedBytes(swept), todo, cap, locked, stuck);
         && |t.jobs| == |s.jobs|
         && (forall j | 0 <= j < |s.jobs| && !MayGo(s.jobs[j], now) :: t.jobs[j] == s.jobs[j])
         && (forall f <- s.files | f !in t.files :: exists i | 0 <= i < |s.jobs| ::
               MayGo(s.jobs[i], now) && s.jobs[i].output == f)
         && (forall f <- t.files :: f in s.files && t.files[f] == s.files[f])
         && (forall x <- s.stems :: Wanted(t.jobs, x.dir) ==> x in t.stems)
         && (StillToCome(s.jobs) ==> t.stems == s.stems)
         && (StillToCome(t.jobs) || forall x <- t.stems :: Wanted(t.jobs, x.dir) || x.dir in stuck)
  {
    var t, gone := WalkEnds(s, now, cap, locked, stuck);
    StatusesMean(s, now);
    StatusesMean(t, now);
    hide Candidates, Swept, UsedBytes, Walked, Evictable, Referenced, AnyInFlight, OnlyEvicted, StemsSafe, MayGo;
    hide Wanted;
    hide StillToCome;
    OnlyAiredTouched(s, t, now, gone);
    StemsKept(s, t, gone, stuck);
  }

  lemma SweepKeepsJobs(s: Store, stuck: set<string>)
    ensures Swept(s, stuck).jobs == s.jobs
  {
  }

  // ---- chapters that share an output -----------------------------------------

  /** The store a call leaves. */
  ghost function Enforced(s: Store, now: real, cap: nat, locked: set<string>, stuck: set<string>): Store {
    if UsedBytes(s) <= cap then s
    else
      CandidateFacts(s, now, locked, stuck);
      var swept := Swept(s, stuck);
      Walked(swept, UsedBytes(swept), Candidates(s, now), cap, locked, stuck)
  }

  /** Under any cap, and whatever cannot be removed, a chapter that has not finished airing keeps its file's bytes. */
  ghost predicate KeepsWhatIsNeeded(s: Store, now: real) {
    forall cap, locked, stuck, j: nat | j < |s.jobs| && !Evictable(s, j, now) ::
      var t := Enforced(s, now, cap, locked, stuck);
      j < |t.jobs| && OutputSize(t.jobs[j], t.files) == OutputSize(s.jobs[j], s.files)
  }

  /** No done chapter still to finish airing was written to a file that an aired one was written to as well. */
  ghost predicate NoSharedOutput(s: Store, now: real) {
    forall j: nat | j < |s.jobs| && !Evictable(s, j, now) && OutputSize(s.jobs[j], s.files) > 0 ::
      !TakenByAired(s, now, s.jobs[j].output)
  }

  lemma {:induction false} PartOfSum(jobs: seq<Job>, files: map<string, nat>, j: nat)
    requires j < |jobs|
    ensures OutputSize(jobs[j], files) <= JobBytes(jobs, files)
  {
    if j < |jobs| - 1 {
      PartOfSum(jobs[..|jobs| - 1], files, j);
    }
  }

  lemma UnsharedIsKept(s: Store, now: real, cap: nat, locked: set<string>, stuck: set<string>, j: nat)
    requires j < |s.jobs| && !Evictable(s, j, now) && NoSharedOutput(s, now)
    ensures var t := Enforced(s, now, cap, locked, stuck);
      j < |t.jobs| && OutputSize(t.jobs[j], t.files) == OutputSize(s.jobs[j], s.files)
  {
    StatusesMean(s, now);
    hide UsedBytes, Candidates, Walked, Swept, Evictable, Wanted, StillToCome, MayGo;
    EvictionIsSafe(s, now, cap, locked, stuck);
  }

  /** With no room at all, an aired chapter's file goes, or nothing is left that has any bytes. */
  lemma NoRoom(s: Store, now: real, i: nat, j: nat) returns (t: Store)
    requires i < |s.jobs| && j < |s.jobs| && Evictable(s, i, now) && !Evictable(s, j, now)
    requires s.jobs[i].output == s.jobs[j].output
    ensures var swept, todo := Swept(s, {}), Candidates(s, now);
      InBounds(todo, |swept.jobs|) && t == Walked(swept, UsedBytes(swept), todo, 0, {}, {})
    ensures |t.jobs| == |s.jobs| && OutputSize(t.jobs[j], t.files) == 0
  {
    CandidateFacts(s, now, {}, {});
    hide Candidates, Removable, Distinct, Swept, Gone, Walked, After, EvictedIds, TotalAfter, Evictable, JobBytes;
    hide StemBytes;
    var swept, todo := Swept(s, {}), Candidates(s, now);
    var order := Removable(swept, todo, {});
    assert i in order;
    var n := EvictsOldestAired(s, now, 0, {}, {});
    t := After(swept, order, n, {});
    if n < |order| {
      TotalIsTrue(swept, order, n, {});
      PartOfSum(t.jobs, t.files, j);
    } else {
      assert order[..n] == order;
      AfterOnlyEvicted(swept, order, n, {});
      assert Takes(swept.jobs, order, s.jobs[j].output);
    }
  }

  lemma SharedIsLost(s: Store, now: real, j: nat)
    requires j < |s.jobs| && !Evictable(s, j, now) && OutputSize(s.jobs[j], s.files) > 0
    requires TakenByAired(s, now, s.jobs[j].output)
    ensures var t := Enforced(s, now, 0, {}, {}); j < |t.jobs| && OutputSize(t.jobs[j], t.files) == 0
  {
    hide Evictable, OutputSize, JobBytes, StemBytes, Swept, Candidates, Walked;
    var i :| 0 <= i < |s.jobs| && Evictable(s, i, now) && s.jobs[i].output == s.jobs[j].output;
    PartOfSum(s.jobs, s.files, j);
    var t := NoRoom(s, now, i, j);
  }

  /** A chapter that has not finished airing is safe from every call exactly when no chapter that has finished
      airing was written to the same file: eviction removes files by path and asks only about the chapter evicted. */
  lemma KeepsWhatIsNeededIff(s: Store, now: real)
    ensures KeepsWhatIsNeeded(s, now) <==> NoSharedOutput(s, now)
  {
    hide Enforced, Evictable, OutputSize, TakenByAired;
    if NoSharedOutput(s, now) {
      forall cap, locked, stuck, j: nat | j < |s.jobs| && !Evictable(s, j, now)
        ensures var t := Enforced(s, now, cap, locked, stuck);
          j < |t.jobs| && OutputSize(t.jobs[j], t.files) == OutputSize(s.jobs[j], s.files)
      {
        UnsharedIsKept(s, now, cap, locked, stuck, j);
      }
    } else {
      var j: nat :| j < |s.jobs| && !Evictable(s, j, now) && OutputSize(s.jobs[j], s.files) > 0
                    && TakenByAired(s, now, s.jobs[j].output);
      SharedIsLost(s, now, j);
    }
  }

  const AIRED := Job("a", Done, "/o", 60.0, Some(0.0), [])
  const UNDATED := Job("b", Done, "/o", 60.0, None, [])

  /** Two plans rendered to one file, of which only the first has an air time, long past: the second chapter, which
      nothing says may go, loses its file with it. */
  lemma SharedOutputIsLost()
    ensures var s := Store([AIRED, UNDATED], map["/o" := 5], []);
      !Evictable(s, 1, 100000.0) && !KeepsWhatIsNeeded(s, 100000.0)
  {
    var s := Store([AIRED, UNDATED], map["/o" := 5], []);
    assert Evictable(s, 0, 100000.0) && s.jobs[0].output == "/o";
    assert TakenByAired(s, 100000.0, s.jobs[1].output);
    assert OutputSize(s.jobs[1], s.files) == 5;
    KeepsWhatIsNeededIff(s, 100000.0);
  }

  // ---- what is counted -------------------------------------------------------

  /** The bytes in use are those of every done chapter's file there is, and of every stem directory. */
  lemma UsedGrows(s: Store, job: Job, x: Stem)
    ensures UsedBytes(Store([], s.files, [])) == 0
    ensures UsedBytes(s.(jobs := s.jobs + [job])) - UsedBytes(s)
         == if job.status == Done && job.output in s.files then s.files[job.output] else 0
    ensures UsedBytes(s.(stems := s.stems + [x])) - UsedBytes(s) == x.bytes
  {
    assert (s.jobs + [job])[..|s.jobs|] == s.jobs;
    assert (s.stems + [x])[..|s.stems|] == s.stems;
  }
}
