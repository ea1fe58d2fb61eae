/** The library sort both readers and the set layout call: stable, and idle on sorted input. */
module StableSort {

  type Order<!T> = (T, T) -> bool

  ghost predicate TotalPreorder<T(!new)>(le: Order<T>) {
    && (forall a, b :: le(a, b) || le(b, a))
    && (forall a, b, c :: le(a, b) && le(b, c) ==> le(a, c))
  }

  ghost predicate SortedBy<T>(le: Order<T>, s: seq<T>) {
    forall i, j | 0 <= i < j < |s| :: le(s[i], s[j])
  }

  /** `x` goes after everything it does not come strictly before. */
  function Insert<T>(le: Order<T>, s: seq<T>, x: T): (r: seq<T>)
    ensures multiset(r) == multiset(s) + multiset{x}
  {
    if s == [] then [x]
    else
      var init, last := s[..|s| - 1], s[|s| - 1];
      assert s == init + [last];
      if le(last, x) then s + [x] else Insert(le, init, x) + [last]
  }

  function Sort<T>(le: Order<T>, s: seq<T>): (r: seq<T>)
    ensures multiset(r) == multiset(s)
  {
    if s == [] then []
    else
      assert s == s[..|s| - 1] + [s[|s| - 1]];
      Insert(le, Sort(le, s[..|s| - 1]), s[|s| - 1])
  }

  lemma AppendSorts<T(!new)>(le: Order<T>, s: seq<T>, x: T)
    requires SortedBy(le, s) && forall k | 0 <= k < |s| :: le(s[k], x)
    ensures SortedBy(le, s + [x])
  {
  }

  /** Everything in a sorted sequence comes before whatever comes after its last. */
  lemma AllBefore<T(!new)>(le: Order<T>, s: seq<T>, x: T)
    requires TotalPreorder(le) && SortedBy(le, s) && s != [] && le(s[|s| - 1], x)
    ensures forall k | 0 <= k < |s| :: le(s[k], x)
  {
    forall k | 0 <= k < |s|
      ensures le(s[k], x)
    {
      assert k == |s| - 1 || le(s[k], s[|s| - 1]);
    }
  }

  lemma {:induction false} InsertSorts<T(!new)>(le: Order<T>, s: seq<T>, x: T)
    requires TotalPreorder(le) && SortedBy(le, s)
    ensures SortedBy(le, Insert(le, s, x))
  {
    if s == [] {
      assert Insert(le, s, x) == [x];
    } else if le(s[|s| - 1], x) {
      AllBefore(le, s, x);
      AppendSorts(le, s, x);
    } else {
      var init, last := s[..|s| - 1], s[|s| - 1];
      InsertSorts(le, init, x);
      var r := Insert(le, init, x);
      forall k | 0 <= k < |r|
        ensures le(r[k], last)
      {
        assert r[k] in multiset(r);
        assert r[k] in init || r[k] == x;
      }
      AppendSorts(le, r, last);
    }
  }

  lemma {:induction false} SortSorts<T(!new)>(le: Order<T>, s: seq<T>)
    requires TotalPreorder(le)
    ensures SortedBy(le, Sort(le, s))
  {
    if s != [] {
      SortSorts(le, s[..|s| - 1]);
      InsertSorts(le, Sort(le, s[..|s| - 1]), s[|s| - 1]);
    }
  }

  lemma {:induction false} SortOfSorted<T>(le: Order<T>, s: seq<T>)
    requires SortedBy(le, s)
    ensures Sort(le, s) == s
  {
    if s != [] {
      SortOfSorted(le, s[..|s| - 1]);
      if |s| > 1 {
        assert le(s[|s| - 2], s[|s| - 1]);
      }
    }
  }

  // ---- rearrangements --------------------------------------------------------

  lemma SameMembers<T>(a: seq<T>, b: seq<T>)
    requires multiset(a) == multiset(b)
    ensures forall x :: x in a <==> x in b
  {
    forall x
      ensures x in a <==> x in b
    {
      assert x in a <==> x in multiset(a);
      assert x in b <==> x in multiset(b);
    }
  }

  lemma DistinctCounts<T>(s: seq<T>, i: nat, j: nat)
    requires i < j < |s| && s[i] == s[j]
    ensures multiset(s)[s[i]] >= 2
  {
    assert s == s[..j] + [s[j]] + s[j + 1..];
    assert s[i] in s[..j];
  }

  lemma DistinctTransfers<T>(a: seq<T>, b: seq<T>)
    requires multiset(a) == multiset(b)
    requires forall i, j | 0 <= i < j < |b| :: b[i] != b[j]
    ensures forall i, j | 0 <= i < j < |a| :: a[i] != a[j]
  {
    forall i, j | 0 <= i < j < |a|
      ensures a[i] != a[j]
    {
      if a[i] == a[j] {
        DistinctCounts(a, i, j);
        OnceAtMost(b, a[i]);
      }
    }
  }

  lemma {:induction false} OnceAtMost<T>(s: seq<T>, x: T)
    requires forall i, j | 0 <= i < j < |s| :: s[i] != s[j]
    ensures multiset(s)[x] <= 1
  {
    if s != [] {
      var init := s[..|s| - 1];
      OnceAtMost(init, x);
      assert s == init + [s[|s| - 1]];
      assert x == s[|s| - 1] ==> x !in init;
    }
  }

  // ---- ties ------------------------------------------------------------------

  /** Ordered by `le`, and by `first` where `le` cannot tell. */
  predicate Ahead<T>(le: Order<T>, first: Order<T>, a: T, b: T) {
    le(a, b) && (le(b, a) ==> first(a, b))
  }

  ghost predicate InTurn<T(!new)>(le: Order<T>, first: Order<T>, s: seq<T>) {
    forall i, j | 0 <= i < j < |s| :: Ahead(le, first, s[i], s[j])
  }

  lemma InTurnAt<T(!new)>(le: Order<T>, first: Order<T>, s: seq<T>, i: nat, j: nat)
    requires InTurn(le, first, s) && i < j < |s|
    ensures Ahead(le, first, s[i], s[j])
  {
  }

  lemma InTurnIsSorted<T(!new)>(le: Order<T>, first: Order<T>, s: seq<T>)
    requires InTurn(le, first, s)
    ensures SortedBy(le, s)
  {
    forall i, j | 0 <= i < j < |s|
      ensures le(s[i], s[j])
    {
      assert Ahead(le, first, s[i], s[j]);
    }
  }

  lemma {:induction false} InsertInTurn<T(!new)>(le: Order<T>, first: Order<T>, s: seq<T>, x: T)
    requires TotalPreorder(le) && InTurn(le, first, s) && forall k | 0 <= k < |s| :: first(s[k], x)
    ensures InTurn(le, first, Insert(le, s, x))
  {
    if s != [] {
      var init, last := s[..|s| - 1], s[|s| - 1];
      if le(last, x) {
        InTurnIsSorted(le, first, s);
        AllBefore(le, s, x);
      } else {
        InsertInTurn(le, first, init, x);
        var r := Insert(le, init, x);
        forall k | 0 <= k < |r|
          ensures Ahead(le, first, r[k], last)
        {
          assert r[k] in multiset(r);
          if r[k] != x {
            assert r[k] in multiset(init);
            var j :| 0 <= j < |init| && init[j] == r[k];
            assert Ahead(le, first, s[j], s[|s| - 1]);
          }
        }
      }
    }
  }

  /** Whatever comes in by `first` stays in that order where the sort has no other: it is stable. */
  lemma {:induction false} SortIsStable<T(!new)>(le: Order<T>, first: Order<T>, s: seq<T>)
    requires TotalPreorder(le) && forall i, j | 0 <= i < j < |s| :: first(s[i], s[j])
    ensures InTurn(le, first, Sort(le, s))
  {
    if s != [] {
      var init, x := s[..|s| - 1], s[|s| - 1];
      SortIsStable(le, first, init);
      var r := Sort(le, init);
      forall k | 0 <= k < |r|
        ensures first(r[k], x)
      {
        assert r[k] in multiset(r);
        assert r[k] in multiset(init);
        var j :| 0 <= j < |init| && init[j] == r[k];
        assert first(s[j], s[|s| - 1]);
      }
      InsertInTurn(le, first, r, x);
    }
  }
}
