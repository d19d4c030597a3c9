/**
 * uthash.h, HASH_SRT: the bottom-up merge sort of a table's insertion-order list, in
 * place on the links. First the sort on sequences and what it guarantees, then the links.
 */
module HashSort {
  import opened Words
  import opened HashTable

  type Compare<!T> = (T, T) -> int

  ghost predicate Le<T>(cmp: Compare<T>, x: Handle<T>, y: Handle<T>) {
    cmp(x.elmt, y.elmt) <= 0
  }

  // ----- the sort on sequences -----

  /** Two runs into one; on a tie the first run goes first. */
  ghost function Merge<T>(cmp: Compare<T>, p: seq<Handle<T>>, q: seq<Handle<T>>): (m: seq<Handle<T>>)
    ensures |m| == |p| + |q|
    decreases |p| + |q|
  {
    if p == [] then q
    else if q == [] then p
    else if Le(cmp, p[0], q[0]) then [p[0]] + Merge(cmp, p[1..], q)
    else [q[0]] + Merge(cmp, p, q[1..])
  }

  ghost function Min(a: nat, b: nat): nat { if a < b then a else b }

  /** One pass: neighbouring runs of k merge pairwise. */
  ghost function Pass<T>(cmp: Compare<T>, s: seq<Handle<T>>, k: nat): (t: seq<Handle<T>>)
    requires k > 0
    ensures |t| == |s|
    decreases |s|
  {
    if s == [] then [] else
    var i, j := Min(k, |s|), Min(2 * k, |s|);
    Merge(cmp, s[..i], s[i..j]) + Pass(cmp, s[j..], k)
  }

  /** Passes of doubling width until one merge covers the list. */
  ghost function MergeSort<T>(cmp: Compare<T>, s: seq<Handle<T>>, k: nat): seq<Handle<T>>
    requires k > 0
    decreases |s| - k
  {
    if |s| <= 2 * k then Pass(cmp, s, k) else MergeSort(cmp, Pass(cmp, s, k), 2 * k)
  }

  // ----- permutation -----

  lemma {:induction false} MergeKeeps<T>(cmp: Compare<T>, p: seq<Handle<T>>, q: seq<Handle<T>>)
    ensures multiset(Merge(cmp, p, q)) == multiset(p) + multiset(q)
    decreases |p| + |q|
  {
    hide Le;
    if p == [] || q == [] {
    } else {
      assert p == [p[0]] + p[1..] && q == [q[0]] + q[1..];
      if Le(cmp, p[0], q[0]) {
        MergeKeeps(cmp, p[1..], q);
      } else {
        MergeKeeps(cmp, p, q[1..]);
      }
    }
  }

  lemma ThreeParts<T>(s: seq<Handle<T>>, i: nat, j: nat)
    requires i <= j <= |s|
    ensures multiset(s) == multiset(s[..i]) + multiset(s[i..j]) + multiset(s[j..])
  {
    assert s == s[..i] + s[i..j] + s[j..];
  }

  lemma {:induction false} PassKeeps<T>(cmp: Compare<T>, s: seq<Handle<T>>, k: nat)
    requires k > 0
    ensures multiset(Pass(cmp, s, k)) == multiset(s)
    decreases |s|
  {
    hide Merge;
    if s == [] {
    } else {
      var i, j := Min(k, |s|), Min(2 * k, |s|);
      MergeKeeps(cmp, s[..i], s[i..j]);
      PassKeeps(cmp, s[j..], k);
      ThreeParts(s, i, j);
    }
  }

  lemma {:induction false} SortKeeps<T>(cmp: Compare<T>, s: seq<Handle<T>>, k: nat)
    requires k > 0
    ensures multiset(MergeSort(cmp, s, k)) == multiset(s)
    decreases |s| - k
  {
    hide Pass;
    PassKeeps(cmp, s, k);
    if |s| <= 2 * k {
    } else {
      SortKeeps(cmp, Pass(cmp, s, k), 2 * k);
    }
  }

  // ----- order -----

  /** cmp is a total preorder on the elements. */
  ghost predicate Preorder<T>(cmp: Compare<T>, all: set<Handle<T>>) {
    && (forall x, y | x in all && y in all :: Le(cmp, x, y) || Le(cmp, y, x))
    && (forall x, y, z | x in all && y in all && z in all :: Le(cmp, x, y) && Le(cmp, y, z) ==> Le(cmp, x, z))
  }

  ghost predicate InOrder<T>(cmp: Compare<T>, s: seq<Handle<T>>) {
    forall i, j | 0 <= i < j < |s| :: Le(cmp, s[i], s[j])
  }

  ghost predicate Runs<T>(cmp: Compare<T>, s: seq<Handle<T>>, k: nat)
    requires k > 0
    decreases |s|
  {
    if |s| <= k then InOrder(cmp, s) else InOrder(cmp, s[..k]) && Runs(cmp, s[k..], k)
  }

  /** x at the front of a sorted list of elements it does not exceed. */
  lemma InOrderCons<T>(cmp: Compare<T>, x: Handle<T>, s: seq<Handle<T>>)
    requires InOrder(cmp, s) && forall y | y in s :: Le(cmp, x, y)
    ensures InOrder(cmp, [x] + s)
  {
    hide Le;
  }

  lemma InOrderHead<T>(cmp: Compare<T>, all: set<Handle<T>>, s: seq<Handle<T>>)
    requires s != [] && InOrder(cmp, s) && Preorder(cmp, all) && forall y | y in s :: y in all
    ensures InOrder(cmp, s[1..]) && forall y | y in s :: Le(cmp, s[0], y)
  {
    hide Le;
    forall y | y in s
      ensures Le(cmp, s[0], y)
    {
      var i :| 0 <= i < |s| && s[i] == y;
      if i == 0 {
        assert Le(cmp, y, y) || Le(cmp, y, y);
      }
    }
  }

  lemma InMerge<T>(cmp: Compare<T>, p: seq<Handle<T>>, q: seq<Handle<T>>)
    ensures forall y | y in Merge(cmp, p, q) :: y in p || y in q
  {
    hide Merge;
    MergeKeeps(cmp, p, q);
    forall y | y in Merge(cmp, p, q)
      ensures y in p || y in q
    {
      assert y in multiset(Merge(cmp, p, q));
    }
  }

  lemma {:induction false} MergeInOrder<T>(cmp: Compare<T>, all: set<Handle<T>>, p: seq<Handle<T>>, q: seq<Handle<T>>)
    requires Preorder(cmp, all) && InOrder(cmp, p) && InOrder(cmp, q)
    requires (forall y | y in p :: y in all) && (forall y | y in q :: y in all)
    ensures InOrder(cmp, Merge(cmp, p, q))
    decreases |p| + |q|
  {
    hide Le, InOrder;
    if p == [] || q == [] {
    } else {
      InOrderHead(cmp, all, p);
      InOrderHead(cmp, all, q);
      if Le(cmp, p[0], q[0]) {
        MergeInOrder(cmp, all, p[1..], q);
        InMerge(cmp, p[1..], q);
        InOrderCons(cmp, p[0], Merge(cmp, p[1..], q));
      } else {
        MergeInOrder(cmp, all, p, q[1..]);
        InMerge(cmp, p, q[1..]);
        InOrderCons(cmp, q[0], Merge(cmp, p, q[1..]));
      }
    }
  }

  lemma InOrderNone<T>(cmp: Compare<T>)
    ensures InOrder(cmp, [])
  {}

  lemma RunsAre<T>(cmp: Compare<T>, s: seq<Handle<T>>, k: nat)
    requires k > 0
    ensures Runs(cmp, s, k) <==> if |s| <= k then InOrder(cmp, s) else InOrder(cmp, s[..k]) && Runs(cmp, s[k..], k)
  {
    hide InOrder;
  }

  lemma TwoRuns<T>(cmp: Compare<T>, s: seq<Handle<T>>, k: nat)
    requires k > 0 && Runs(cmp, s, k)
    ensures var i, j := Min(k, |s|), Min(2 * k, |s|);
            InOrder(cmp, s[..i]) && InOrder(cmp, s[i..j]) && Runs(cmp, s[j..], k)
  {
    hide InOrder, Runs;
    InOrderNone(cmp);
    RunsAre(cmp, s, k);
    RunsAre(cmp, [], k);
    if |s| <= k {
      assert s[..|s|] == s && s[|s|..] == [] && s[|s|..|s|] == [];
    } else {
      var t := s[k..];
      RunsAre(cmp, t, k);
      if |s| <= 2 * k {
        assert s[k..|s|] == t && s[|s|..] == [];
      } else {
        assert t[..k] == s[k..2 * k] && t[k..] == s[2 * k..];
      }
    }
  }

  lemma RunsCons<T>(cmp: Compare<T>, m: seq<Handle<T>>, t: seq<Handle<T>>, k: nat)
    requires k > 0 && |m| <= k && InOrder(cmp, m) && Runs(cmp, t, k) && (|m| < k ==> t == [])
    ensures Runs(cmp, m + t, k)
  {
    hide InOrder;
    if t == [] {
      assert m + t == m;
    } else {
      assert (m + t)[..k] == m && (m + t)[k..] == t;
    }
  }

  /** The runs of length k pair up into runs of length 2k. */
  lemma {:induction false} PassRuns<T>(cmp: Compare<T>, all: set<Handle<T>>, s: seq<Handle<T>>, k: nat)
    requires k > 0 && Preorder(cmp, all) && Runs(cmp, s, k) && forall y | y in s :: y in all
    ensures Runs(cmp, Pass(cmp, s, k), 2 * k)
    decreases |s|
  {
    hide Preorder, InOrder;
    if s == [] {
      assert InOrder(cmp, s);
    } else {
      var i, j := Min(k, |s|), Min(2 * k, |s|);
      TwoRuns(cmp, s, k);
      MergeInOrder(cmp, all, s[..i], s[i..j]);
      PassRuns(cmp, all, s[j..], k);
      RunsCons(cmp, Merge(cmp, s[..i], s[i..j]), Pass(cmp, s[j..], k), 2 * k);
    }
  }

  lemma SameElements<T>(s: seq<Handle<T>>, t: seq<Handle<T>>, cmp: Compare<T>, k: nat)
    requires k > 0 && t == Pass(cmp, s, k)
    ensures forall y | y in t :: y in s
  {
    hide Pass;
    PassKeeps(cmp, s, k);
    forall y | y in t
      ensures y in s
    {
      assert y in multiset(t);
    }
  }

  /** For every total preorder the result is sorted. */
  lemma {:induction false} SortInOrder<T>(cmp: Compare<T>, all: set<Handle<T>>, s: seq<Handle<T>>, k: nat)
    requires k > 0 && Preorder(cmp, all) && Runs(cmp, s, k) && forall y | y in s :: y in all
    ensures InOrder(cmp, MergeSort(cmp, s, k))
    decreases |s| - k
  {
    hide Pass, Preorder, InOrder;
    PassRuns(cmp, all, s, k);
    if |s| <= 2 * k {
    } else {
      SameElements(s, Pass(cmp, s, k), cmp, k);
      SortInOrder(cmp, all, Pass(cmp, s, k), 2 * k);
    }
  }

  lemma {:induction false} RunsOfOne<T>(cmp: Compare<T>, s: seq<Handle<T>>)
    ensures Runs(cmp, s, 1)
    decreases |s|
  {
    if |s| <= 1 {
    } else {
      RunsOfOne(cmp, s[1..]);
    }
  }

  // ----- stability -----

  ghost predicate Ties<T>(cmp: Compare<T>, x: Handle<T>, y: Handle<T>) {
    Le(cmp, x, y) && Le(cmp, y, x)
  }

  ghost function OwnTie<T>(cmp: Compare<T>, y: Handle<T>, x: Handle<T>): seq<Handle<T>> {
    if Ties(cmp, y, x) then [y] else []
  }

  /** The elements of s that tie with x, in their order. */
  ghost function Tied<T>(cmp: Compare<T>, s: seq<Handle<T>>, x: Handle<T>): seq<Handle<T>> {
    if s == [] then []
    else OwnTie(cmp, s[0], x) + Tied(cmp, s[1..], x)
  }

  lemma TiedNone<T>(cmp: Compare<T>, x: Handle<T>)
    ensures Tied(cmp, [], x) == []
  {}

  lemma TiedHead<T>(cmp: Compare<T>, s: seq<Handle<T>>, x: Handle<T>)
    requires s != []
    ensures Tied(cmp, s, x) == OwnTie(cmp, s[0], x) + Tied(cmp, s[1..], x)
  {
    hide Ties;
  }

  lemma Assoc<T>(a: seq<T>, b: seq<T>, c: seq<T>)
    ensures a + (b + c) == (a + b) + c
  {}

  lemma {:induction false} TiedAppend<T>(cmp: Compare<T>, s: seq<Handle<T>>, t: seq<Handle<T>>, x: Handle<T>)
    ensures Tied(cmp, s + t, x) == Tied(cmp, s, x) + Tied(cmp, t, x)
    decreases |s|
  {
    hide *;
    if s == [] {
      assert s + t == t;
      TiedNone(cmp, x);
      assert [] + Tied(cmp, t, x) == Tied(cmp, t, x);
    } else {
      assert (s + t)[1..] == s[1..] + t && (s + t)[0] == s[0];
      TiedAppend(cmp, s[1..], t, x);
      TiedHead(cmp, s, x);
      TiedHead(cmp, s + t, x);
      Assoc(OwnTie(cmp, s[0], x), Tied(cmp, s[1..], x), Tied(cmp, t, x));
    }
  }

  /** Nothing in a sorted run that starts above x's class ties with x. */
  lemma {:induction false} NoneTied<T>(cmp: Compare<T>, all: set<Handle<T>>, s: seq<Handle<T>>, x: Handle<T>)
    requires Preorder(cmp, all) && x in all && forall y | y in s :: y in all && !Le(cmp, y, x)
    ensures Tied(cmp, s, x) == []
    decreases |s|
  {
    hide Le;
    if s == [] {
    } else {
      NoneTied(cmp, all, s[1..], x);
    }
  }

  lemma OwnTieIs<T>(cmp: Compare<T>, y: Handle<T>, x: Handle<T>)
    ensures OwnTie(cmp, y, x) == if Ties(cmp, y, x) then [y] else []
  {}

  lemma MergeNothing<T>(cmp: Compare<T>, p: seq<Handle<T>>, q: seq<Handle<T>>)
    requires p == [] || q == []
    ensures Merge(cmp, p, q) == (if p == [] then q else p)
  {}

  lemma MergeHead<T>(cmp: Compare<T>, p: seq<Handle<T>>, q: seq<Handle<T>>)
    requires p != [] && q != []
    ensures Merge(cmp, p, q) ==
            if Le(cmp, p[0], q[0]) then [p[0]] + Merge(cmp, p[1..], q) else [q[0]] + Merge(cmp, p, q[1..])
  {
    hide Le;
  }

  lemma TiedCons<T>(cmp: Compare<T>, y: Handle<T>, s: seq<Handle<T>>, x: Handle<T>)
    ensures Tied(cmp, [y] + s, x) == OwnTie(cmp, y, x) + Tied(cmp, s, x)
  {
    hide Tied, OwnTie;
    TiedHead(cmp, [y] + s, x);
    assert ([y] + s)[1..] == s;
  }

  /** When y is strictly below all of p, nothing of p ties with what y ties with. */
  lemma TiesBelow<T>(cmp: Compare<T>, all: set<Handle<T>>, p: seq<Handle<T>>, y: Handle<T>, x: Handle<T>)
    requires Preorder(cmp, all) && x in all && y in all && (forall z | z in p :: z in all)
    requires p != [] && (forall z | z in p :: Le(cmp, p[0], z)) && !Le(cmp, p[0], y)
    ensures Ties(cmp, y, x) ==> Tied(cmp, p, x) == []
  {
    hide Le, Tied;
    if Ties(cmp, y, x) {
      forall z | z in p
        ensures !Le(cmp, z, x)
      {}
      NoneTied(cmp, all, p, x);
    }
  }

  /** Merging sorted runs keeps every class of ties in order, the first run's before the second's. */
  lemma {:induction false} MergeStable<T>(cmp: Compare<T>, all: set<Handle<T>>, p: seq<Handle<T>>,
                                           q: seq<Handle<T>>, x: Handle<T>)
    requires Preorder(cmp, all) && InOrder(cmp, p) && x in all
    requires (forall y | y in p :: y in all) && (forall y | y in q :: y in all)
    ensures Tied(cmp, Merge(cmp, p, q), x) == Tied(cmp, p, x) + Tied(cmp, q, x)
    decreases |p| + |q|
  {
    hide Le, InOrder, Ties, Tied, Merge, Preorder, OwnTie;
    if p == [] || q == [] {
      TiedNone(cmp, x);
      MergeNothing(cmp, p, q);
    } else {
      InOrderHead(cmp, all, p);
      MergeHead(cmp, p, q);
      if Le(cmp, p[0], q[0]) {
        MergeStable(cmp, all, p[1..], q, x);
        TiedCons(cmp, p[0], Merge(cmp, p[1..], q), x);
        TiedHead(cmp, p, x);
        Assoc(OwnTie(cmp, p[0], x), Tied(cmp, p[1..], x), Tied(cmp, q, x));
      } else {
        MergeStable(cmp, all, p, q[1..], x);
        TiedCons(cmp, q[0], Merge(cmp, p, q[1..]), x);
        TiedHead(cmp, q, x);
        TiesBelow(cmp, all, p, q[0], x);
        OwnTieIs(cmp, q[0], x);
        Assoc(OwnTie(cmp, q[0], x), Tied(cmp, p, x), Tied(cmp, q[1..], x));
        Assoc(Tied(cmp, p, x), OwnTie(cmp, q[0], x), Tied(cmp, q[1..], x));
        assert OwnTie(cmp, q[0], x) + Tied(cmp, p, x) == Tied(cmp, p, x) + OwnTie(cmp, q[0], x);
      }
    }
  }

  lemma {:induction false} PassStable<T>(cmp: Compare<T>, all: set<Handle<T>>, s: seq<Handle<T>>, k: nat, x: Handle<T>)
    requires k > 0 && Preorder(cmp, all) && Runs(cmp, s, k) && x in all && forall y | y in s :: y in all
    ensures Tied(cmp, Pass(cmp, s, k), x) == Tied(cmp, s, x)
    decreases |s|
  {
    hide Preorder, InOrder, Tied, Merge, Runs;
    if s == [] {
    } else {
      var i, j := Min(k, |s|), Min(2 * k, |s|);
      TwoRuns(cmp, s, k);
      MergeStable(cmp, all, s[..i], s[i..j], x);
      PassStable(cmp, all, s[j..], k, x);
      TiedAppend(cmp, Merge(cmp, s[..i], s[i..j]), Pass(cmp, s[j..], k), x);
      TiedAppend(cmp, s[..i], s[i..j], x);
      TiedAppend(cmp, s[..i] + s[i..j], s[j..], x);
      assert s == s[..i] + s[i..j] + s[j..];
    }
  }

  /** Elements that tie keep their order. */
  lemma {:induction false} SortStable<T>(cmp: Compare<T>, all: set<Handle<T>>, s: seq<Handle<T>>, k: nat, x: Handle<T>)
    requires k > 0 && Preorder(cmp, all) && Runs(cmp, s, k) && x in all && forall y | y in s :: y in all
    ensures Tied(cmp, MergeSort(cmp, s, k), x) == Tied(cmp, s, x)
    decreases |s| - k
  {
    hide Pass, Preorder, Tied, Runs;
    PassStable(cmp, all, s, k, x);
    if |s| <= 2 * k {
    } else {
      PassRuns(cmp, all, s, k);
      SameElements(s, Pass(cmp, s, k), cmp, k);
      SortStable(cmp, all, Pass(cmp, s, k), 2 * k, x);
    }
  }

  /** What the program computes: a sorted, stable permutation, for every total preorder. */
  lemma SortCorrect<T>(cmp: Compare<T>, s: seq<Handle<T>>, x: Handle<T>)
    requires Preorder(cmp, Elements(s))
    ensures var t := MergeSort(cmp, s, 1);
            && multiset(t) == multiset(s)
            && (forall i, j | 0 <= i < j < |t| :: cmp(t[i].elmt, t[j].elmt) <= 0)
            && (x in s ==> Tied(cmp, t, x) == Tied(cmp, s, x))
  {
    hide Preorder, MergeSort, Tied;
    SortKeeps(cmp, s, 1);
    RunsOfOne(cmp, s);
    SortInOrder(cmp, Elements(s), s, 1);
    if x in s {
      SortStable(cmp, Elements(s), s, 1, x);
    }
  }

  // ----- the links -----

  /** The forward links of s lead from each element to the following one. */
  ghost predicate Segment<T>(s: seq<Handle<T>>)
    reads s`next
  {
    forall i {:trigger s[i].next} | 0 <= i < |s| - 1 :: s[i].next == s[i + 1]
  }

  /** The list built so far: its links, its head and its tail. */
  ghost predicate Built<T>(d: seq<Handle<T>>, list: Handle?<T>, tail: Handle?<T>)
    reads d`next, d`prev
  {
    Segment(d) && BackLinked(d) && list == First(d) && tail == Last(d)
  }

  /** Append e to the list built so far: the end of the merge loop's body. */
  method Attach<T>(e: Handle<T>, list: Handle?<T>, tail: Handle?<T>, ghost d: seq<Handle<T>>)
    returns (list': Handle?<T>)
    requires Built(d, list, tail) && Distinct(d) && e !in d
    modifies d`next, e`prev
    ensures Built(d + [e], list', e)
    ensures forall x | x in d && x != Last(d) :: x.next == old(x.next)
    ensures e.next == old(e.next)
  {
    list' := list;
    if tail != null {
      tail.next := e;
    } else {
      list' := e;
    }
    e.prev := tail;
  }

  /** Walk at most k elements on from p. */
  method CutRun<T>(p: Handle<T>, k: nat, ghost s: seq<Handle<T>>) returns (psize: nat, q: Handle?<T>)
    requires k > 0 && s != [] && p == s[0] && Listed(s)
    ensures psize == Min(k, |s|) && q == First(s[psize..])
  {
    psize, q := 0, p;
    var i := 0;
    while i < k
      invariant psize == i <= |s| && q != null && i < |s| && q == s[i]
      invariant i <= k
      decreases k - i
    {
      psize := psize + 1;
      q := q.next;
      if q == null {
        return;
      }
      i := i + 1;
    }
  }

  /** The list built, the rest of the first run and what follows it share no handle. */
  ghost predicate Separate<T>(d: seq<Handle<T>>, p: seq<Handle<T>>, s: seq<Handle<T>>, all: set<Handle<T>>) {
    && Distinct(d) && Distinct(p) && Distinct(s)
    && (forall x | x in d :: x in all && x !in p && x !in s)
    && (forall x | x in p :: x in all && x !in s)
    && (forall x | x in s :: x in all)
  }

  lemma DistinctParts<T>(d: seq<Handle<T>>, e: Handle<T>)
    requires Distinct(d + [e])
    ensures Distinct(d) && e !in d
  {
    forall i, j | 0 <= i < j < |d|
      ensures d[i] != d[j]
    {
      assert (d + [e])[i] != (d + [e])[j];
    }
    forall i | 0 <= i < |d|
      ensures d[i] != e
    {
      assert (d + [e])[i] != (d + [e])[|d|];
    }
  }

  /** Append e, the rest of the two runs standing by. */
  method Take<T>(e: Handle<T>, list: Handle?<T>, tail: Handle?<T>,
                 ghost d: seq<Handle<T>>, ghost p: seq<Handle<T>>, ghost s: seq<Handle<T>>, ghost all: set<Handle<T>>)
    returns (list': Handle?<T>)
    requires Built(d, list, tail) && Segment(p) && Listed(s)
    requires Separate(d + [e], p, s, all)
    modifies all`next, all`prev
    ensures Built(d + [e], list', e) && Segment(p) && Listed(s)
  {
    assert forall x | x in d :: x in d + [e];
    assert Distinct(d) && e !in d by { DistinctParts(d, e); }
    assert e in d + [e];
    hide Built, Distinct;
    ghost var last := Last(d);
    assert last != null ==> last in d + [e];
    list' := Attach(e, list, tail, d);
  }

  lemma MergeFirst<T>(cmp: Compare<T>, d: seq<Handle<T>>, p: seq<Handle<T>>, q: seq<Handle<T>>)
    requires p != [] && (q == [] || Le(cmp, p[0], q[0]))
    ensures d + Merge(cmp, p, q) == (d + [p[0]]) + Merge(cmp, p[1..], q)
  {
    hide Le, Merge;
    if q == [] {
      MergeNothing(cmp, p, q);
      MergeNothing(cmp, p[1..], q);
      assert p == [p[0]] + p[1..];
    } else {
      MergeHead(cmp, p, q);
    }
    Assoc(d, [p[0]], Merge(cmp, p[1..], q));
  }

  lemma SegmentTail<T>(p: seq<Handle<T>>)
    requires p != [] && Segment(p)
    ensures Segment(p[1..]) && (|p| > 1 ==> p[0].next == p[1])
  {
    forall i | 0 <= i < |p| - 2
      ensures p[1..][i].next == p[1..][i + 1]
    {
      assert p[i + 1].next == p[i + 2];
    }
  }

  lemma MoveOver<T>(d: seq<Handle<T>>, p: seq<Handle<T>>, s: seq<Handle<T>>, all: set<Handle<T>>)
    requires p != [] && Separate(d, p, s, all)
    ensures Separate(d + [p[0]], p[1..], s, all)
  {
    assert p[0] in p;
    assert forall x | x in p[1..] :: x in p && x != p[0];
  }

  /** Taking the head of the first run. */
  lemma TakeFirst<T>(cmp: Compare<T>, d: seq<Handle<T>>, p: seq<Handle<T>>, q: seq<Handle<T>>, r: seq<Handle<T>>,
                     all: set<Handle<T>>)
    requires p != [] && Separate(d, p, q + r, all) && Segment(p)
    requires q == [] || Le(cmp, p[0], q[0])
    ensures Separate(d + [p[0]], p[1..], q + r, all) && Segment(p[1..])
    ensures |p| > 1 ==> p[0].next == p[1]
    ensures d + Merge(cmp, p, q) == (d + [p[0]]) + Merge(cmp, p[1..], q)
  {
    hide Le, Separate, Segment;
    SegmentTail(p);
    MoveOver(d, p, q + r, all);
    MergeFirst(cmp, d, p, q);
  }

  lemma MergeSecond<T>(cmp: Compare<T>, d: seq<Handle<T>>, p: seq<Handle<T>>, q: seq<Handle<T>>)
    requires q != [] && (p == [] || !Le(cmp, p[0], q[0]))
    ensures d + Merge(cmp, p, q) == (d + [q[0]]) + Merge(cmp, p, q[1..])
  {
    hide Le, Merge;
    if p == [] {
      MergeNothing(cmp, p, q);
      MergeNothing(cmp, p, q[1..]);
      assert q == [q[0]] + q[1..];
    } else {
      MergeHead(cmp, p, q);
    }
    Assoc(d, [q[0]], Merge(cmp, p, q[1..]));
  }

  lemma ListedTail<T>(s: seq<Handle<T>>)
    requires s != [] && Listed(s)
    ensures Listed(s[1..]) && s[0].next == First(s[1..])
  {
    forall i | 0 <= i < |s| - 1
      ensures s[1..][i].next == if i + 1 < |s| - 1 then s[1..][i + 1] else null
    {
      assert s[i + 1].next == if i + 2 < |s| then s[i + 2] else null;
    }
  }

  lemma MoveSecond<T>(d: seq<Handle<T>>, p: seq<Handle<T>>, s: seq<Handle<T>>, all: set<Handle<T>>)
    requires s != [] && Separate(d, p, s, all)
    ensures Separate(d + [s[0]], p, s[1..], all)
  {
    assert s[0] in s;
    assert forall x | x in s[1..] :: x in s && x != s[0];
  }

  /** Taking the head of the second run. */
  lemma TakeSecond<T>(cmp: Compare<T>, d: seq<Handle<T>>, p: seq<Handle<T>>, q: seq<Handle<T>>, r: seq<Handle<T>>,
                      all: set<Handle<T>>)
    requires q != [] && Separate(d, p, q + r, all) && Listed(q + r)
    requires p == [] || !Le(cmp, p[0], q[0])
    ensures Separate(d + [q[0]], p, q[1..] + r, all) && Listed(q[1..] + r)
    ensures q[0].next == First(q[1..] + r)
    ensures d + Merge(cmp, p, q) == (d + [q[0]]) + Merge(cmp, p, q[1..])
  {
    hide Le, Separate, Listed;
    assert (q + r)[1..] == q[1..] + r && (q + r)[0] == q[0];
    ListedTail(q + r);
    MoveSecond(d, p, q + r, all);
    MergeSecond(cmp, d, p, q);
  }

  lemma LeIs<T>(cmp: Compare<T>, x: Handle<T>, y: Handle<T>)
    ensures Le(cmp, x, y) <==> cmp(x.elmt, y.elmt) <= 0
  {}

  lemma NothingLeft<T>(cmp: Compare<T>, d: seq<Handle<T>>, r: seq<Handle<T>>)
    ensures d + Merge(cmp, [], []) == d && [] + r == r
  {}

  /** Merge the psize elements from p with at most k from q on, behind the list built so far. */
  method MergeRuns<T>(cmp: Compare<T>, p0: Handle<T>, psize0: nat, q0: Handle?<T>, k: nat,
                      list0: Handle?<T>, tail0: Handle?<T>,
                      ghost d0: seq<Handle<T>>, ghost a: seq<Handle<T>>, ghost b: seq<Handle<T>>,
                      ghost r: seq<Handle<T>>,
                      ghost all: set<Handle<T>>)
    returns (list: Handle?<T>, tail: Handle?<T>, q: Handle?<T>)
    requires psize0 == |a| > 0 && p0 == a[0] && q0 == First(b + r) && |b| == Min(k, |b + r|)
    requires Segment(a) && Listed(b + r) && Built(d0, list0, tail0) && Separate(d0, a, b + r, all)
    modifies all`next, all`prev
    ensures Built(d0 + Merge(cmp, a, b), list, tail) && tail != null
    ensures q == First(r) && Listed(r) && Separate(d0 + Merge(cmp, a, b), [], r, all)
  {
    hide Built, Segment, Listed, Separate, Merge, Le;
    ghost var d, a', b' := d0, a, b;
    var p: Handle?<T>, psize, qsize := p0, psize0, k;
    q, list, tail := q0, list0, tail0;
    while psize != 0 || (qsize != 0 && q != null)
      invariant psize == |a'| && (a' != [] ==> p == a'[0]) && q == First(b' + r)
      invariant |b'| <= qsize && (|b'| < qsize ==> r == [])
      invariant Segment(a') && Listed(b' + r) && Built(d, list, tail) && Separate(d, a', b' + r, all)
      invariant d + Merge(cmp, a', b') == d0 + Merge(cmp, a, b)
      invariant tail == null ==> a' != []
      decreases |a'| + |b'|
    {
      var e: Handle<T>;
      if psize == 0 {
        e := q;
        TakeSecond(cmp, d, a', b', r, all);
        q, qsize := q.next, qsize - 1;
        b' := b'[1..];
      } else if qsize == 0 || q == null {
        e := p;
        TakeFirst(cmp, d, a', b', r, all);
        p, psize := p.next, psize - 1;
        a' := a'[1..];
      } else if cmp(p.elmt, q.elmt) <= 0 {
        e := p;
        LeIs(cmp, p, q);
        TakeFirst(cmp, d, a', b', r, all);
        p, psize := p.next, psize - 1;
        a' := a'[1..];
      } else {
        e := q;
        LeIs(cmp, p, q);
        TakeSecond(cmp, d, a', b', r, all);
        q, qsize := q.next, qsize - 1;
        b' := b'[1..];
      }
      list := Take(e, list, tail, d, a', b' + r, all);
      tail := e;
      d := d + [e];
    }
    NothingLeft(cmp, d, r);
  }

  /** Cutting a run of i off the front of the rest. */
  lemma CutOff<T>(d: seq<Handle<T>>, s: seq<Handle<T>>, i: nat, all: set<Handle<T>>)
    requires i <= |s| && Listed(s) && Separate(d, [], s, all)
    ensures Segment(s[..i]) && Listed(s[i..]) && Separate(d, s[..i], s[i..], all)
  {
    forall n | 0 <= n < i - 1
      ensures s[..i][n].next == s[..i][n + 1]
    {
      assert s[n].next == s[n + 1];
    }
    forall n | 0 <= n < |s| - i
      ensures s[i..][n].next == if n + 1 < |s| - i then s[i..][n + 1] else null
    {
      assert s[i + n].next == if i + n + 1 < |s| then s[i + n + 1] else null;
    }
  }

  lemma Slices<T>(s: seq<Handle<T>>, k: nat)
    requires k > 0
    ensures var i, j := Min(k, |s|), Min(2 * k, |s|);
            s[i..] == s[i..j] + s[j..] && |s[i..j]| == Min(k, |s[i..]|)
  {}

  lemma Bounds(k: nat, n: nat)
    ensures Min(k, n) <= Min(2 * k, n) <= n
  {}

  lemma PassStep<T>(cmp: Compare<T>, d: seq<Handle<T>>, s: seq<Handle<T>>, k: nat)
    requires k > 0 && s != []
    ensures var i, j := Min(k, |s|), Min(2 * k, |s|);
            d + Pass(cmp, s, k) == (d + Merge(cmp, s[..i], s[i..j])) + Pass(cmp, s[j..], k)
  {
    hide Merge, Min;
    var i, j := Min(k, |s|), Min(2 * k, |s|);
    assert i <= j <= |s| by { Bounds(k, |s|); }
    var m, t := Merge(cmp, s[..i], s[i..j]), Pass(cmp, s[j..], k);
    assert Pass(cmp, s, k) == m + t;
    assert d + (m + t) == (d + m) + t;
  }

  /** One merge of a pass: the two runs at the front of the rest. */
  method MergeNext<T>(cmp: Compare<T>, p: Handle<T>, k: nat, list0: Handle?<T>, tail0: Handle?<T>,
                      ghost d: seq<Handle<T>>, ghost rest: seq<Handle<T>>, ghost all: set<Handle<T>>)
    returns (list: Handle?<T>, tail: Handle?<T>, q: Handle?<T>, ghost d': seq<Handle<T>>)
    requires k > 0 && rest != [] && p == rest[0] && Listed(rest) && Built(d, list0, tail0)
    requires Separate(d, [], rest, all)
    modifies all`next, all`prev
    ensures Built(d', list, tail) && tail != null
    ensures var r := rest[Min(2 * k, |rest|)..];
            && q == First(r) && Listed(r) && Separate(d', [], r, all)
            && d + Pass(cmp, rest, k) == d' + Pass(cmp, r, k)
  {
    hide Built, Segment, Listed, Separate, Merge, Pass;
    var psize, q0 := CutRun(p, k, rest);
    ghost var i, j := Min(k, |rest|), Min(2 * k, |rest|);
    CutOff(d, rest, i, all);
    PassStep(cmp, d, rest, k);
    Slices(rest, k);
    d' := d + Merge(cmp, rest[..i], rest[i..j]);
    list, tail, q := MergeRuns(cmp, p, psize, q0, k, list0, tail0, d, rest[..i], rest[i..j], rest[j..], all);
  }

  lemma StartPass<T>(s: seq<Handle<T>>)
    requires Distinct(s)
    ensures Built<T>([], null, null) && Separate([], [], s, Elements(s))
  {}

  lemma EndPass<T>(cmp: Compare<T>, d: seq<Handle<T>>, k: nat)
    requires k > 0
    ensures d + Pass(cmp, [], k) == d
  {}

  lemma LastIn<T>(d: seq<Handle<T>>, list: Handle?<T>, tail: Handle?<T>, all: set<Handle<T>>)
    requires Built(d, list, tail) && Separate(d, [], [], all)
    ensures tail != null ==> tail in all
    ensures list == First(d) && tail == Last(d)
    ensures forall i | 0 <= i < |d| - 1 :: d[i] != tail && d[i].next == d[i + 1]
    ensures BackLinked(d)
  {}

  lemma Terminated<T>(d: seq<Handle<T>>, list: Handle?<T>, tail: Handle?<T>)
    requires tail == Last(d) && (tail != null ==> tail.next == null) && BackLinked(d)
    requires forall i {:trigger d[i].next} | 0 <= i < |d| - 1 :: d[i].next == d[i + 1]
    ensures Ordered(d)
  {}

  /** One turn of the outer loop of HASH_SRT. */
  method MergePass<T>(cmp: Compare<T>, list0: Handle<T>, k: nat, ghost s: seq<Handle<T>>)
    returns (list: Handle?<T>, tail: Handle?<T>, merges: nat)
    requires k > 0 && s != [] && list0 == s[0] && Listed(s) && Distinct(s)
    modifies s`next, s`prev
    ensures var t := Pass(cmp, s, k);
            Ordered(t) && list == First(t) && tail == Last(t)
    ensures merges <= 1 <==> |s| <= 2 * k
  {
    hide Built, Listed, Separate, Pass, Ordered, Distinct;
    ghost var all := Elements(s);
    ghost var d, rest := [], s;
    var p: Handle?<T> := list0;
    list, tail, merges := null, null, 0;
    StartPass(s);
    while p != null
      invariant p == First(rest) && Listed(rest) && Built(d, list, tail) && Separate(d, [], rest, all)
      invariant d + Pass(cmp, rest, k) == Pass(cmp, s, k)
      invariant merges == 0 ==> rest == s
      invariant merges == 1 ==> |rest| == |s| - Min(2 * k, |s|)
      invariant merges > 0 ==> tail != null
      invariant merges > 1 ==> |s| > 2 * k
      decreases |rest|
    {
      merges := merges + 1;
      list, tail, p, d := MergeNext(cmp, p, k, list, tail, d, rest, all);
      rest := rest[Min(2 * k, |rest|)..];
    }
    EndPass(cmp, d, k);
    LastIn(d, list, tail, all);
    if tail != null {
      tail.next := null;
    }
    Terminated(d, list, tail);
  }

  // ----- the program -----

  lemma {:induction false} CountOnce<T>(s: seq<Handle<T>>, x: Handle<T>)
    requires Distinct(s)
    ensures multiset(s)[x] <= 1
    decreases |s|
  {
    if s == [] {
    } else {
      assert s == [s[0]] + s[1..];
      CountOnce(s[1..], x);
      if s[0] == x {
        assert x !in s[1..];
        assert x !in multiset(s[1..]);
      }
    }
  }

  lemma CountTwice<T>(s: seq<Handle<T>>, i: nat, j: nat)
    requires i < j < |s| && s[i] == s[j]
    ensures multiset(s)[s[i]] >= 2
  {
    assert s == s[..i] + [s[i]] + s[i + 1..j] + [s[j]] + s[j + 1..];
  }

  lemma PermutedKeys<T>(s: seq<Handle<T>>, t: seq<Handle<T>>)
    requires UniqueKeys(s) && Distinct(t) && forall x | x in t :: x in s
    ensures UniqueKeys(t)
  {
    forall i, j | 0 <= i < j < |t|
      ensures t[i].key != t[j].key
    {
      assert t[i] in s && t[j] in s;
    }
  }

  /** A permutation keeps what the table's invariant says of its handles. */
  lemma Permuted<T>(s: seq<Handle<T>>, t: seq<Handle<T>>)
    requires multiset(t) == multiset(s) && Distinct(s) && UniqueKeys(s)
    ensures |t| == |s| && Elements(t) == Elements(s) && Distinct(t) && UniqueKeys(t)
    ensures forall i | 0 <= i < |t| :: t[i] in s
  {
    hide UniqueKeys;
    assert |t| == |multiset(t)| == |multiset(s)| == |s|;
    assert forall x :: x in t <==> x in multiset(t);
    assert forall x :: x in s <==> x in multiset(s);
    forall i, j | 0 <= i < j < |t|
      ensures t[i] != t[j]
    {
      if t[i] == t[j] {
        CountTwice(t, i, j);
        CountOnce(s, t[i]);
      }
    }
    PermutedKeys(s, t);
  }

  /** The map does not depend on the order of its handles. */
  lemma MapOfPermuted<T>(s: seq<Handle<T>>, t: seq<Handle<T>>)
    requires UniqueKeys(s) && UniqueKeys(t) && Elements(t) == Elements(s)
    ensures MapOf(t) == MapOf(s)
  {
    hide MapOf, UniqueKeys;
    assert forall x :: x in t <==> x in Elements(t);
    assert forall x :: x in s <==> x in Elements(s);
    forall key: Word
      ensures key in MapOf(t) <==> key in MapOf(s)
      ensures key in MapOf(t) ==> MapOf(t)[key] == MapOf(s)[key]
    {
      MapOfFind(s, key);
      MapOfFind(t, key);
    }
  }

  lemma OrderedIsListed<T>(s: seq<Handle<T>>)
    requires Ordered(s)
    ensures Listed(s)
  {}

  /** The passes of HASH_SRT; head and tail are set by the pass that makes a single merge. */
  method SortLinks<T>(first: Handle<T>, cmp: Compare<T>, ghost order: seq<Handle<T>>)
    returns (head: Handle?<T>, tail: Handle?<T>)
    requires order != [] && first == order[0] && Listed(order) && Distinct(order) && UniqueKeys(order)
    modifies order`next, order`prev
    ensures var t := MergeSort(cmp, order, 1);
            Ordered(t) && head == First(t) && tail == Last(t)
  {
    hide Listed, Ordered, Distinct, UniqueKeys, Pass;
    ghost var s := order;
    var insize, looping := 1, true;
    var list: Handle := first;
    head, tail := first, null;
    while looping
      invariant insize > 0 && multiset(s) == multiset(order)
      invariant Distinct(s) && (forall i | 0 <= i < |s| :: s[i] in order) && s != [] && |s| == |order|
      invariant looping ==> list == s[0] && Listed(s) && MergeSort(cmp, s, insize) == MergeSort(cmp, order, 1)
      invariant !looping ==> Ordered(s) && s == MergeSort(cmp, order, 1) && head == First(s) && tail == Last(s)
      decreases looping, |s| - insize
    {
      PassKeeps(cmp, s, insize);
      Permuted(order, Pass(cmp, s, insize));
      var merged, last, merges := MergePass(cmp, list, insize, s);
      s := Pass(cmp, s, insize);
      list := merged;
      if merges <= 1 {
        looping := false;
        head, tail := merged, last;
      }
      OrderedIsListed(s);
      insize := 2 * insize;
    }
  }

  /** HASH_SRT on a table that holds something. */
  method SortList<T>(table: Table<T>, cmp: Compare<T>)
    requires table.Valid() && table.head != null
    modifies table`head, table`tail, table`order, table.order`next, table.order`prev
    ensures table.Valid() && table.order == MergeSort(cmp, old(table.order), 1)
    ensures MapOf(table.order) == MapOf(old(table.order))
  {
    hide Homed, Chained, Members, MergeSort, MapOf, Distinct, UniqueKeys, Ordered;
    ghost var s := MergeSort(cmp, table.order, 1);
    OrderedIsListed(table.order);
    SortKeeps(cmp, table.order, 1);
    Permuted(table.order, s);
    MapOfPermuted(table.order, s);
    table.head, table.tail := SortLinks(table.head, cmp, table.order);
    table.order := s;
  }

  /**
   * HASH_SRT. The list comes out as MergeSort gives it, with links, head and tail to match;
   * the buckets and their chains are not touched.
   */
  method Sort<T>(table: Table<T>, cmp: Compare<T>)
    requires table.Valid()
    modifies table`head, table`tail, table`order, table.order`next, table.order`prev
    ensures table.Valid() && table.order == MergeSort(cmp, old(table.order), 1)
    ensures MapOf(table.order) == MapOf(old(table.order))
  {
    if table.head != null {
      SortList(table, cmp);
    }
  }
}
