/** The stable `sort_by` of the standard library, as a function on sequences.

    A stable sort has exactly one right answer (`StableSortIsUnique`), so any
    stable algorithm is modelled by `Sort`, whichever way it works inside.
 */
module StableSort {
  import opened Sequences

  ghost predicate TotalPreorder<T(!new)>(leq: (T, T) -> bool) {
    && (forall a, b :: leq(a, b) || leq(b, a))
    && (forall a, b, c :: leq(a, b) && leq(b, c) ==> leq(a, c))
  }

  ghost predicate Sorted<T>(s: seq<T>, leq: (T, T) -> bool) {
    forall i, j :: 0 <= i < j < |s| ==> leq(s[i], s[j])
  }

  /** The subsequence of elements that tie with `p`, in order. */
  ghost function Ties<T>(s: seq<T>, p: T, leq: (T, T) -> bool): seq<T> {
    if s == [] then []
    else Tie(s[0], p, leq) + Ties(s[1..], p, leq)
  }

  ghost function Tie<T>(x: T, p: T, leq: (T, T) -> bool): seq<T> {
    if leq(x, p) && leq(p, x) then [x] else []
  }

  lemma TiesCons<T>(x: T, s: seq<T>, p: T, leq: (T, T) -> bool)
    ensures Ties([x] + s, p, leq) == Tie(x, p, leq) + Ties(s, p, leq)
  {
    assert ([x] + s)[1..] == s;
  }

  ghost predicate IsStableSortOf<T(!new)>(t: seq<T>, s: seq<T>, leq: (T, T) -> bool) {
    Sorted(t, leq) && forall p :: Ties(t, p, leq) == Ties(s, p, leq)
  }

  /** Inserts `x` behind every leading element that may stay before it. */
  function Insert<T>(s: seq<T>, x: T, leq: (T, T) -> bool): seq<T> {
    if s == [] then [x]
    else if leq(s[0], x) then [s[0]] + Insert(s[1..], x, leq)
    else [x] + s
  }

  function Sort<T>(s: seq<T>, leq: (T, T) -> bool): seq<T> {
    if s == [] then [] else Insert(Sort(s[..|s| - 1], leq), s[|s| - 1], leq)
  }

  function Take<T>(s: seq<T>, k: nat): seq<T> {
    if |s| <= k then s else s[..k]
  }

  /** The merge that prefers its left argument on ties. */
  ghost function Merge<T>(a: seq<T>, b: seq<T>, leq: (T, T) -> bool): seq<T>
    decreases |a| + |b|
  {
    if a == [] then b
    else if b == [] then a
    else if leq(a[0], b[0]) then [a[0]] + Merge(a[1..], b, leq)
    else [b[0]] + Merge(a, b[1..], leq)
  }

  // ---- Insertion ----

  lemma {:induction false} InsertKeepsMultiset<T>(s: seq<T>, x: T, leq: (T, T) -> bool)
    ensures multiset(Insert(s, x, leq)) == multiset(s) + multiset{x}
    ensures |Insert(s, x, leq)| == |s| + 1
  {
    if s == [] {
    } else if leq(s[0], x) {
      InsertKeepsMultiset(s[1..], x, leq);
      assert s == [s[0]] + s[1..];
    }
  }

  lemma {:induction false} InsertKeepsSorted<T(!new)>(s: seq<T>, x: T, leq: (T, T) -> bool)
    requires TotalPreorder(leq) && Sorted(s, leq)
    ensures Sorted(Insert(s, x, leq), leq)
  {
    if s == [] {
    } else if leq(s[0], x) {
      var r := Insert(s[1..], x, leq);
      InsertKeepsSorted(s[1..], x, leq);
      InsertKeepsMultiset(s[1..], x, leq);
      forall i | 0 <= i < |r| ensures leq(s[0], r[i]) {
        assert r[i] in multiset(r);
        assert r[i] == x || r[i] in s[1..];
      }
    } else {
      forall i | 0 <= i < |s| ensures leq(x, s[i]) {
        assert leq(x, s[0]);
      }
    }
  }

  lemma {:induction false} InsertTies<T(!new)>(s: seq<T>, x: T, p: T, leq: (T, T) -> bool)
    requires TotalPreorder(leq) && Sorted(s, leq)
    ensures Ties(Insert(s, x, leq), p, leq) == Ties(s, p, leq) + Tie(x, p, leq)
  {
    if s == [] {
      TiesCons(x, [], p, leq);
    } else if leq(s[0], x) {
      InsertTies(s[1..], x, p, leq);
      TiesCons(s[0], Insert(s[1..], x, leq), p, leq);
    } else {
      TiesCons(x, s, p, leq);
      if leq(x, p) && leq(p, x) {
        NoTiesAbove(s, p, leq);
      }
    }
  }

  lemma {:induction false} NoTiesAbove<T(!new)>(s: seq<T>, p: T, leq: (T, T) -> bool)
    requires TotalPreorder(leq) && Sorted(s, leq)
    requires s != [] ==> !leq(s[0], p)
    ensures Ties(s, p, leq) == []
  {
    if s == [] {
    } else {
      if |s| > 1 {
        assert leq(s[0], s[1]);
      }
      NoTiesAbove(s[1..], p, leq);
    }
  }

  // ---- Sort is the stable sort, and there is only one ----

  lemma {:induction false} SortPermutes<T>(s: seq<T>, leq: (T, T) -> bool)
    ensures multiset(Sort(s, leq)) == multiset(s)
    ensures |Sort(s, leq)| == |s|
  {
    if s == [] {
    } else {
      var n := |s| - 1;
      SortPermutes(s[..n], leq);
      InsertKeepsMultiset(Sort(s[..n], leq), s[n], leq);
      assert s == s[..n] + [s[n]];
    }
  }

  lemma {:induction false} TiesSnoc<T>(s: seq<T>, x: T, p: T, leq: (T, T) -> bool)
    ensures Ties(s + [x], p, leq) == Ties(s, p, leq) + Tie(x, p, leq)
  {
    if s == [] {
      TiesCons(x, [], p, leq);
      assert s + [x] == [x] + [];
    } else {
      var t := s[1..];
      TiesSnoc(t, x, p, leq);
      assert s + [x] == [s[0]] + (t + [x]);
      TiesCons(s[0], t + [x], p, leq);
    }
  }

  lemma {:induction false} SortIsStable<T(!new)>(s: seq<T>, leq: (T, T) -> bool)
    requires TotalPreorder(leq)
    ensures IsStableSortOf(Sort(s, leq), s, leq)
  {
    if s == [] {
    } else {
      var init, x := s[..|s| - 1], s[|s| - 1];
      assert s == init + [x];
      SortIsStable(init, leq);
      var r := Sort(init, leq);
      InsertKeepsSorted(r, x, leq);
      forall p ensures Ties(Insert(r, x, leq), p, leq) == Ties(s, p, leq) {
        InsertTies(r, x, p, leq);
        TiesSnoc(init, x, p, leq);
      }
    }
  }

  lemma {:induction false} TiesAreMembers<T>(s: seq<T>, p: T, leq: (T, T) -> bool)
    ensures forall x :: x in Ties(s, p, leq) ==> x in s && leq(x, p) && leq(p, x)
  {
    if s == [] {
    } else {
      TiesAreMembers(s[1..], p, leq);
    }
  }

  /** Any two sequences that are sorted and list every tie class alike are equal. */
  lemma {:induction false} StableSortIsUnique<T(!new)>(t: seq<T>, u: seq<T>, s: seq<T>, leq: (T, T) -> bool)
    requires TotalPreorder(leq)
    requires IsStableSortOf(t, s, leq) && IsStableSortOf(u, s, leq)
    ensures t == u
  {
    SameTiesSameSequence(t, u, leq);
  }

  lemma {:induction false} SameTiesSameSequence<T(!new)>(t: seq<T>, u: seq<T>, leq: (T, T) -> bool)
    requires TotalPreorder(leq) && Sorted(t, leq) && Sorted(u, leq)
    requires forall p :: Ties(t, p, leq) == Ties(u, p, leq)
    ensures t == u
  {
    if t == [] {
      if u != [] {
        HeadsTie(u, t, leq);
      }
    } else {
      HeadsTie(t, u, leq);
      HeadsTie(u, t, leq);
      assert Ties(t, t[0], leq) == Ties(u, t[0], leq);
      assert leq(t[0], t[0]);
      assert Ties(t, t[0], leq)[0] == t[0];
      assert Ties(u, t[0], leq)[0] == u[0];
      assert t[0] == u[0];
      forall p ensures Ties(t[1..], p, leq) == Ties(u[1..], p, leq) {
        assert Ties(t, p, leq) == Ties(u, p, leq);
        if leq(t[0], p) && leq(p, t[0]) {
          assert Ties(t[1..], p, leq) == Ties(t, p, leq)[1..];
          assert Ties(u[1..], p, leq) == Ties(u, p, leq)[1..];
        } else {
          assert Ties(t, p, leq) == Ties(t[1..], p, leq);
          assert Ties(u, p, leq) == Ties(u[1..], p, leq);
        }
      }
      SameTiesSameSequence(t[1..], u[1..], leq);
      assert t == [t[0]] + t[1..] && u == [u[0]] + u[1..];
    }
  }

  lemma {:induction false} HeadsTie<T(!new)>(t: seq<T>, u: seq<T>, leq: (T, T) -> bool)
    requires TotalPreorder(leq) && Sorted(u, leq) && t != []
    requires forall p :: Ties(t, p, leq) == Ties(u, p, leq)
    ensures u != [] && leq(u[0], t[0])
  {
    assert leq(t[0], t[0]);
    assert t[0] in Ties(t, t[0], leq);
    TiesAreMembers(u, t[0], leq);
    assert t[0] in u;
    assert leq(u[0], u[0]);
  }

  // ---- Sorting in pieces ----

  lemma {:induction false} MergeInsert<T(!new)>(a: seq<T>, b: seq<T>, x: T, leq: (T, T) -> bool)
    requires TotalPreorder(leq) && Sorted(a, leq) && Sorted(b, leq)
    ensures Insert(Merge(a, b, leq), x, leq) == Merge(a, Insert(b, x, leq), leq)
    decreases |a| + |b|
  {
    if a == [] {
    } else if b == [] {
      MergeOne(a, x, leq);
    } else if leq(a[0], b[0]) {
      var m := Merge(a[1..], b, leq);
      assert ([a[0]] + m)[1..] == m;
      MergeInsert(a[1..], b, x, leq);
      var ib := Insert(b, x, leq);
      if leq(a[0], x) {
        assert leq(a[0], ib[0]);
      } else {
        assert !leq(b[0], x);
        assert ib == [x] + b;
        assert ib[1..] == b;
      }
    } else {
      var m := Merge(a, b[1..], leq);
      assert ([b[0]] + m)[1..] == m;
      MergeInsert(a, b[1..], x, leq);
      var ib := Insert(b, x, leq);
      if leq(b[0], x) {
        assert ib == [b[0]] + Insert(b[1..], x, leq);
        assert ib[1..] == Insert(b[1..], x, leq);
      } else {
        assert ib == [x] + b;
        assert ib[1..] == b;
        assert !leq(a[0], x);
      }
    }
  }

  lemma {:induction false} MergeOne<T(!new)>(a: seq<T>, x: T, leq: (T, T) -> bool)
    requires TotalPreorder(leq) && Sorted(a, leq)
    ensures Insert(a, x, leq) == Merge(a, [x], leq)
  {
    if a != [] && leq(a[0], x) {
      MergeOne(a[1..], x, leq);
    } else if a != [] {
      assert [x][1..] == [];
    }
  }

  /** Sorting a concatenation is merging the two sorted halves. */
  lemma {:induction false} SortConcat<T(!new)>(a: seq<T>, b: seq<T>, leq: (T, T) -> bool)
    requires TotalPreorder(leq)
    ensures Sort(a + b, leq) == Merge(Sort(a, leq), Sort(b, leq), leq)
    decreases |b|
  {
    if b == [] {
      assert a + b == a;
      if Sort(a, leq) == [] { }
    } else {
      var n := |b| - 1;
      assert (a + b)[..|a + b| - 1] == a + b[..n];
      SortConcat(a, b[..n], leq);
      SortIsStable(a, leq);
      SortIsStable(b[..n], leq);
      MergeInsert(Sort(a, leq), Sort(b[..n], leq), b[n], leq);
    }
  }

  lemma {:induction false} SortOfSorted<T(!new)>(s: seq<T>, leq: (T, T) -> bool)
    requires TotalPreorder(leq) && Sorted(s, leq)
    ensures Sort(s, leq) == s
  {
    SortIsStable(s, leq);
    SameTiesSameSequence(Sort(s, leq), s, leq);
  }

  /** The first k of a merge only look at the first k of each side. */
  lemma {:induction false} TakeMerge<T>(a: seq<T>, b: seq<T>, k: nat, i: nat, j: nat, leq: (T, T) -> bool)
    requires i >= k && j >= k
    ensures Take(Merge(Take(a, i), Take(b, j), leq), k) == Take(Merge(a, b, leq), k)
    decreases k, |a| + |b|
  {
    if k == 0 || a == [] || b == [] {
      TakeTake(if a == [] then b else a, if a == [] then j else i, k);
    } else if leq(a[0], b[0]) {
      var x, t := a[0], a[1..];
      TakeMerge(t, b, k - 1, i - 1, j, leq);
      TakeMergeLeft(x, t, b, k, i, j, leq);
      assert a == [x] + t;
    } else {
      var x, t := b[0], b[1..];
      TakeMerge(a, t, k - 1, i, j - 1, leq);
      TakeMergeRight(a, x, t, k, i, j, leq);
      assert b == [x] + t;
    }
  }

  lemma TakeMergeLeft<T>(x: T, a: seq<T>, b: seq<T>, k: nat, i: nat, j: nat, leq: (T, T) -> bool)
    requires 0 < k <= i && k <= j && b != [] && leq(x, b[0])
    requires Take(Merge(Take(a, i - 1), Take(b, j), leq), k - 1) == Take(Merge(a, b, leq), k - 1)
    ensures Take(Merge(Take([x] + a, i), Take(b, j), leq), k) == Take(Merge([x] + a, b, leq), k)
  {
    MergeLeft(x, a, b, leq);
    TakeCons(x, a, i);
    MergeLeft(x, Take(a, i - 1), Take(b, j), leq);
    TakeCons(x, Merge(a, b, leq), k);
    TakeCons(x, Merge(Take(a, i - 1), Take(b, j), leq), k);
  }

  lemma TakeMergeRight<T>(a: seq<T>, x: T, b: seq<T>, k: nat, i: nat, j: nat, leq: (T, T) -> bool)
    requires 0 < k <= i && k <= j && a != [] && !leq(a[0], x)
    requires Take(Merge(Take(a, i), Take(b, j - 1), leq), k - 1) == Take(Merge(a, b, leq), k - 1)
    ensures Take(Merge(Take(a, i), Take([x] + b, j), leq), k) == Take(Merge(a, [x] + b, leq), k)
  {
    MergeRight(a, x, b, leq);
    TakeCons(x, b, j);
    MergeRight(Take(a, i), x, Take(b, j - 1), leq);
    TakeCons(x, Merge(a, b, leq), k);
    TakeCons(x, Merge(Take(a, i), Take(b, j - 1), leq), k);
  }

  lemma TakeTake<T>(s: seq<T>, i: nat, k: nat)
    requires i >= k
    ensures Take(Take(s, i), k) == Take(s, k)
  {
  }

  lemma MergeLeft<T>(x: T, a: seq<T>, b: seq<T>, leq: (T, T) -> bool)
    requires b != [] && leq(x, b[0])
    ensures Merge([x] + a, b, leq) == [x] + Merge(a, b, leq)
  {
    assert ([x] + a)[1..] == a;
  }

  lemma MergeRight<T>(a: seq<T>, x: T, b: seq<T>, leq: (T, T) -> bool)
    requires a != [] && !leq(a[0], x)
    ensures Merge(a, [x] + b, leq) == [x] + Merge(a, b, leq)
  {
    assert ([x] + b)[1..] == b;
  }

  lemma TakeCons<T>(x: T, s: seq<T>, k: nat)
    requires k > 0
    ensures Take([x] + s, k) == [x] + Take(s, k - 1)
  {
  }

  // ---- Sorting and repetition ----

  lemma {:induction false} DistinctCounts<T>(s: seq<T>)
    requires Distinct(s)
    ensures forall x :: multiset(s)[x] <= 1
  {
    if s == [] {
    } else {
      assert s == [s[0]] + s[1..];
      DistinctCounts(s[1..]);
      assert s[0] !in s[1..];
    }
  }

  lemma TwiceCounts<T>(s: seq<T>, i: nat, j: nat)
    requires i < j < |s| && s[i] == s[j]
    ensures multiset(s)[s[i]] >= 2
  {
    assert s == s[..j] + s[j..];
    assert s[i] in s[..j] && s[j] in s[j..];
  }

  lemma PermutedDistinct<T>(s: seq<T>, t: seq<T>)
    requires Distinct(s) && multiset(s) == multiset(t)
    ensures Distinct(t)
  {
    DistinctCounts(s);
    forall i, j | 0 <= i < j < |t| ensures t[i] != t[j] {
      if t[i] == t[j] {
        TwiceCounts(t, i, j);
      }
    }
  }
}
