/**
 * uthash.h: the hash table behind the block cache. Handles are linked twice, in
 * insertion order and in the chain of their bucket; the buckets double when a chain
 * grows. Its meaning is the sequence of handles in insertion order, hence a map.
 */
module HashTable {
  import opened Words

  const INITIAL_BUCKETS: nat := 32
  const INITIAL_LOG2: nat := 5
  const CAPACITY_THRESH: nat := 10

  /** UT_hash_handle, with the element that contains it. */
  class Handle<T> {
    const key: Word
    const hashv: Word
    const elmt: T
    var prev: Handle?<T>
    var next: Handle?<T>
    var hhPrev: Handle?<T>
    var hhNext: Handle?<T>

    constructor (key: Word, hashv: Word, elmt: T)
      ensures this.key == key && this.hashv == hashv && this.elmt == elmt
      ensures prev == next == hhPrev == hhNext == null
    {
      this.key, this.hashv, this.elmt := key, hashv, elmt;
      prev, next, hhPrev, hhNext := null, null, null, null;
    }
  }

  /** UT_hash_bucket */
  datatype Bucket<!T> = Bucket(head: Handle?<T>, count: nat, expandMult: nat)

  /** HASH_TO_BKT */
  function ToBucket(hashv: Word, n: nat): nat
    requires n > 0
  {
    Bits(AND, hashv, n - 1)
  }

  /** hashv & (num_bkts - 1) is the remainder, since the number of buckets is a power of two. */
  lemma BucketIndex(hashv: Word, log2: nat)
    ensures ToBucket(hashv, Pow2(log2)) == hashv % Pow2(log2)
  {
    hide Pow2, Bits;
    Parts(hashv, Pow2(log2));
    AndLow(hashv % Pow2(log2), hashv / Pow2(log2), log2);
  }

  // ----- linked sequences of handles -----

  ghost function First<T>(s: seq<Handle<T>>): Handle?<T> {
    if s == [] then null else s[0]
  }

  ghost function Last<T>(s: seq<Handle<T>>): Handle?<T> {
    if s == [] then null else s[|s| - 1]
  }

  ghost predicate Distinct<T>(s: seq<Handle<T>>) {
    forall i, j | 0 <= i < j < |s| :: s[i] != s[j]
  }

  ghost predicate UniqueKeys<T>(s: seq<Handle<T>>) {
    forall i, j | 0 <= i < j < |s| :: s[i].key != s[j].key
  }

  /** The forward links of s run to null. */
  ghost predicate Listed<T>(s: seq<Handle<T>>)
    reads s`next
  {
    forall i {:trigger s[i].next} | 0 <= i < |s| :: s[i].next == if i + 1 < |s| then s[i + 1] else null
  }

  ghost predicate BackLinked<T>(s: seq<Handle<T>>)
    reads s`prev
  {
    forall i {:trigger s[i].prev} | 0 <= i < |s| :: s[i].prev == if i > 0 then s[i - 1] else null
  }

  /** The insertion-order links spell s. */
  ghost predicate Ordered<T>(s: seq<Handle<T>>)
    reads s`next, s`prev
  {
    Listed(s) && BackLinked(s)
  }

  /** The forward links of a bucket chain spell s. */
  ghost predicate Forward<T>(s: seq<Handle<T>>)
    reads s`hhNext
  {
    forall i {:trigger s[i].hhNext} | 0 <= i < |s| :: s[i].hhNext == if i + 1 < |s| then s[i + 1] else null
  }

  ghost predicate Backward<T>(s: seq<Handle<T>>)
    reads s`hhPrev
  {
    forall i {:trigger s[i].hhPrev} | 0 <= i < |s| :: s[i].hhPrev == if i > 0 then s[i - 1] else null
  }

  /** A bucket heads and counts the chain s. */
  ghost predicate Heads<T>(b: Bucket<T>, s: seq<Handle<T>>) {
    b.head == First(s) && b.count == |s|
  }

  // ----- chains -----

  ghost function Members<T>(chains: seq<seq<Handle<T>>>): set<Handle<T>> {
    set k, j | 0 <= k < |chains| && 0 <= j < |chains[k]| :: chains[k][j]
  }

  /** Every handle sits, once, in the chain its hash names. */
  ghost predicate Homed<T>(chains: seq<seq<Handle<T>>>) {
    && |chains| > 0
    && (forall k | 0 <= k < |chains| :: Distinct(chains[k]))
    && (forall k, j | 0 <= k < |chains| && 0 <= j < |chains[k]| :: chains[k][j].hashv % |chains| == k)
  }

  ghost predicate Chained<T>(buckets: array<Bucket<T>>, chains: seq<seq<Handle<T>>>)
    reads buckets, Members(chains)`hhNext, Members(chains)`hhPrev
  {
    && buckets.Length == |chains|
    && (forall k | 0 <= k < |chains| :: Heads(buckets[k], chains[k]))
    && (forall k | 0 <= k < |chains| :: Forward(chains[k]))
    && (forall k | 0 <= k < |chains| :: Backward(chains[k]))
  }

  lemma HomedPrepend<T>(chains: seq<seq<Handle<T>>>, b: nat, x: Handle<T>)
    requires Homed(chains) && b < |chains| && x.hashv % |chains| == b && x !in chains[b]
    ensures Homed(chains[b := [x] + chains[b]])
  {
    assert forall k, j | 0 <= k < |chains| && 0 <= j < |chains[k]|
           && k != b :: chains[b := [x] + chains[b]][k][j] == chains[k][j];
  }

  /** A handle whose hash names bucket b is in no other chain. */
  lemma NotElsewhere<T>(chains: seq<seq<Handle<T>>>, b: nat, x: Handle<T>)
    requires Homed(chains) && b < |chains| && x.hashv % |chains| == b
    ensures forall k | 0 <= k < |chains| && k != b :: x !in chains[k]
  {}

  lemma ForwardCons<T>(x: Handle<T>, c: seq<Handle<T>>)
    requires Forward(c) && x.hhNext == First(c)
    ensures Forward([x] + c)
  {
    var s := [x] + c;
    assert s[0] == x && forall i | 0 <= i < |c| :: s[i + 1] == c[i];
    forall i | 0 <= i < |s|
      ensures s[i].hhNext == if i + 1 < |s| then s[i + 1] else null
    {
      if i > 0 {
        assert s[i] == c[i - 1];
      }
    }
  }

  lemma BackwardCons<T>(x: Handle<T>, c: seq<Handle<T>>)
    requires x.hhPrev == null
    requires forall i {:trigger c[i].hhPrev} | 0 <= i < |c| :: c[i].hhPrev == if i > 0 then c[i - 1] else x
    ensures Backward([x] + c)
  {
    var s := [x] + c;
    assert s[0] == x && forall i | 0 <= i < |c| :: s[i + 1] == c[i];
    forall i | 0 <= i < |s|
      ensures s[i].hhPrev == if i > 0 then s[i - 1] else null
    {
      if i > 0 {
        assert s[i] == c[i - 1];
      }
    }
  }

  lemma ChainedKept<T>(buckets: array<Bucket<T>>, chains: seq<seq<Handle<T>>>, b: nat)
    requires buckets.Length == |chains| && b < |chains| && Heads(buckets[b], chains[b])
    requires forall k | 0 <= k < |chains| && k != b :: Heads(buckets[k], chains[k])
    requires forall k | 0 <= k < |chains| :: Forward(chains[k])
    requires forall k | 0 <= k < |chains| :: Backward(chains[k])
    ensures Chained(buckets, chains)
  {}

  /** The first handle of a chain is nowhere else. */
  lemma FirstApart<T>(chains: seq<seq<Handle<T>>>, b: nat)
    requires Homed(chains) && b < |chains|
    ensures forall i | 0 < i < |chains[b]| :: chains[b][i] != chains[b][0]
    ensures chains[b] != [] ==> chains[b][0] in Members(chains)
    ensures chains[b] != [] ==> forall k | 0 <= k < |chains| && k != b :: chains[b][0] !in chains[k]
  {
    if chains[b] != [] {
      NotElsewhere(chains, b, chains[b][0]);
    }
  }

  /** Put x at the head of bucket b: the linking part of HASH_ADD_TO_BKT and HASH_EXPAND_BUCKETS. */
  method Prepend<T>(buckets: array<Bucket<T>>, b: nat, x: Handle<T>, ghost chains: seq<seq<Handle<T>>>)
    requires Homed(chains) && Chained(buckets, chains)
    requires b < |chains| && x.hashv % |chains| == b && x !in chains[b]
    modifies buckets, x`hhNext, x`hhPrev, Members(chains)`hhPrev
    ensures Homed(chains[b := [x] + chains[b]])
    ensures Chained(buckets, chains[b := [x] + chains[b]])
    ensures buckets[b].count == old(buckets[b].count) + 1
    ensures forall k | 0 <= k < buckets.Length :: buckets[k].expandMult == old(buckets[k].expandMult)
  {
    hide Homed, Distinct, Members;
    HomedPrepend(chains, b, x);
    NotElsewhere(chains, b, x);
    var first := buckets[b].head;
    ghost var c := chains[b];
    FirstApart(chains, b);
    x.hhNext := first;
    x.hhPrev := null;
    if first != null {
      first.hhPrev := x;
    }
    buckets[b] := buckets[b].(head := x, count := buckets[b].count + 1);
    ForwardCons(x, c);
    BackwardCons(x, c);
    forall k | 0 <= k < |chains| && k != b
      ensures Forward(chains[k]) && Backward(chains[k])
    {
      assert old(Forward(chains[k])) && old(Backward(chains[k]));
      assert forall y | y in chains[k] :: y != x && y != first;
    }
    ChainedKept(buckets, chains[b := [x] + c], b);
  }

  lemma MembersPrepend<T>(chains: seq<seq<Handle<T>>>, b: nat, x: Handle<T>)
    requires b < |chains|
    ensures Members(chains[b := [x] + chains[b]]) == Members(chains) + {x}
  {
    var longer := chains[b := [x] + chains[b]];
    assert longer[b][0] == x;
    forall k, j | 0 <= k < |chains| && 0 <= j < |chains[k]|
      ensures chains[k][j] in Members(longer)
    {
      if k == b {
        assert longer[b][j + 1] == chains[b][j];
      } else {
        assert longer[k][j] == chains[k][j];
      }
    }
    forall k, j | 0 <= k < |longer| && 0 <= j < |longer[k]|
      ensures longer[k][j] in Members(chains) + {x}
    {
      if k == b && j > 0 {
        assert longer[b][j] == chains[b][j - 1];
      }
    }
  }

  ghost function Elements<T>(s: seq<Handle<T>>): set<Handle<T>> {
    set x | x in s
  }

  // ----- how full the buckets are -----

  /** expand_mult when the count of its bucket has become count. */
  function Widened(mult: nat, count: nat, ideal: nat): nat {
    if count > ideal && count > mult * ideal then mult + 1 else mult
  }

  /** expand_mult of a bucket that has received count items one after the other. */
  function Mult(count: nat, ideal: nat): nat {
    if count == 0 then 0 else Widened(Mult(count - 1, ideal), count, ideal)
  }

  /** No multiple for a chain up to the ideal length; beyond it, the length lies within one multiple. */
  lemma {:induction false} MultIs(count: nat, ideal: nat)
    requires ideal > 0
    ensures count <= ideal <==> Mult(count, ideal) == 0
    ensures count > ideal ==> (Mult(count, ideal) - 1) * ideal < count <= (Mult(count, ideal) + 1) * ideal
    decreases count
  {
    if count == 0 {
    } else {
      var m := Mult(count - 1, ideal);
      MultIs(count - 1, ideal);
      assert (m + 1) * ideal == m * ideal + ideal && (m + 2) * ideal == m * ideal + 2 * ideal;
      assert m > 0 ==> (m - 1) * ideal == m * ideal - ideal;
    }
  }

  /** c is items / n, rounded up. */
  predicate IsCeiling(c: nat, items: nat, n: nat) {
    (c - 1) * n < items <= c * n
  }

  /** The ideal chain length of items in n buckets. */
  function Ideal(items: nat, n: nat): (c: nat)
    requires items > 0 && n > 0
    ensures IsCeiling(c, items, n)
  {
    var q := items / n;
    Parts(items, n);
    assert (q + 1) * n == n * q + n && (q - 1) * n == n * q - n && q * n == n * q;
    q + (if items % n != 0 then 1 else 0)
  }

  /** Each bucket has the multiple its chain asks for. */
  ghost predicate Tuned<T>(buckets: array<Bucket<T>>, chains: seq<seq<Handle<T>>>, ideal: nat)
    reads buckets
  {
    buckets.Length == |chains| && forall k | 0 <= k < |chains| :: buckets[k].expandMult == Mult(|chains[k]|, ideal)
  }

  /** How many items lie beyond the ideal length of their chains. */
  ghost function Excess<T>(chains: seq<seq<Handle<T>>>, ideal: nat): nat {
    if chains == [] then 0
    else
      var n := |chains| - 1;
      Excess(chains[..n], ideal) + if |chains[n]| > ideal then |chains[n]| - ideal else 0
  }

  lemma {:induction false} ExcessPrepend<T>(chains: seq<seq<Handle<T>>>, b: nat, x: Handle<T>, ideal: nat)
    requires b < |chains|
    ensures Excess(chains[b := [x] + chains[b]], ideal) ==
            Excess(chains, ideal) + if |chains[b]| + 1 > ideal then 1 else 0
    decreases |chains|
  {
    var n := |chains| - 1;
    var longer: seq<seq<Handle<T>>> := chains[b := [x] + chains[b]];
    if b == n {
      assert longer[..n] == chains[..n];
    } else {
      ExcessPrepend(chains[..n], b, x, ideal);
      assert longer[..n] == chains[..n][b := [x] + chains[..n][b]];
    }
  }

  /** n empty chains. */
  ghost function NoHandles<T>(n: nat): (chains: seq<seq<Handle<T>>>)
    ensures |chains| == n && forall k | 0 <= k < n :: chains[k] == []
  {
    seq(n, _ => [])
  }

  lemma {:induction false} ExcessNone<T>(n: nat, ideal: nat)
    ensures Excess(NoHandles<T>(n), ideal) == 0
    decreases n
  {
    if n == 0 {
    } else {
      ExcessNone<T>(n - 1, ideal);
      assert NoHandles<T>(n)[..n - 1] == NoHandles<T>(n - 1);
    }
  }

  /** The bucket bookkeeping of HASH_EXPAND_BUCKETS for one item that has just arrived in bucket b. */
  method CountArrival<T>(buckets: array<Bucket<T>>, b: nat, idealMax: nat, nonideal: nat) returns (nonideal': nat)
    requires b < buckets.Length
    modifies buckets
    ensures nonideal' == nonideal + if buckets[b].count > idealMax then 1 else 0
    ensures var o := old(buckets[b]);
            buckets[b] == o.(expandMult := Widened(o.expandMult, o.count, idealMax))
    ensures forall k | 0 <= k < buckets.Length && k != b :: buckets[k] == old(buckets[k])
  {
    nonideal' := nonideal;
    if buckets[b].count > idealMax {
      nonideal' := nonideal + 1;
      if buckets[b].count > buckets[b].expandMult * idealMax {
        buckets[b] := buckets[b].(expandMult := buckets[b].expandMult + 1);
      }
    }
  }

  lemma HomedNonEmpty<T>(chains: seq<seq<Handle<T>>>)
    requires Homed(chains)
    ensures |chains| > 0
  {}

  lemma NotMember<T>(chains: seq<seq<Handle<T>>>, b: nat, x: Handle<T>)
    requires x !in Members(chains) && b < |chains|
    ensures x !in chains[b]
  {}

  /** One item moves to its new bucket: the body of the inner loop of HASH_EXPAND_BUCKETS. */
  method MoveItem<T>(x: Handle<T>, buckets: array<Bucket<T>>, ghost chains: seq<seq<Handle<T>>>,
                     idealMax: nat, nonideal: nat, ghost log2: nat)
    returns (nonideal': nat, ghost chains': seq<seq<Handle<T>>>)
    requires Homed(chains) && Chained(buckets, chains) && x !in Members(chains) && |chains| == Pow2(log2)
    requires Tuned(buckets, chains, idealMax) && nonideal == Excess(chains, idealMax)
    modifies buckets, x`hhNext, x`hhPrev, Members(chains)`hhPrev
    ensures |chains'| == |chains| && Homed(chains') && Chained(buckets, chains')
    ensures Members(chains') == Members(chains) + {x}
    ensures Tuned(buckets, chains', idealMax) && nonideal' == Excess(chains', idealMax)
  {
    hide Homed, Forward, Backward, Members, Excess, Widened;
    HomedNonEmpty(chains);
    BucketIndex(x.hashv, log2);
    var b := ToBucket(x.hashv, buckets.Length);
    NotMember(chains, b, x);
    Prepend(buckets, b, x, chains);
    MembersPrepend(chains, b, x);
    chains' := chains[b := [x] + chains[b]];
    ExcessPrepend(chains, b, x, idealMax);
    nonideal' := CountArrival(buckets, b, idealMax, nonideal);
    ChainedKept(buckets, chains', b);
  }

  lemma RestOfChain<T>(s: seq<Handle<T>>)
    requires s != [] && Forward(s) && Distinct(s)
    ensures Forward(s[1..]) && Distinct(s[1..]) && s[0] !in s[1..]
    ensures s[0].hhNext == First(s[1..])
    ensures Elements(s) == {s[0]} + Elements(s[1..])
  {
    forall i | 0 <= i < |s| - 1
      ensures s[1..][i].hhNext == if i + 1 < |s| - 1 then s[1..][i + 1] else null
    {
      assert s[1..][i] == s[i + 1];
      assert s[i + 1].hhNext == if i + 2 < |s| then s[i + 2] else null;
    }
  }

  /** The inner loop of HASH_EXPAND_BUCKETS: move one chain into the new buckets. */
  method MoveChain<T>(first: Handle?<T>, ghost chain: seq<Handle<T>>, buckets: array<Bucket<T>>,
                      ghost chains: seq<seq<Handle<T>>>, idealMax: nat, nonideal: nat, ghost log2: nat)
    returns (nonideal': nat, ghost chains': seq<seq<Handle<T>>>)
    requires first == First(chain) && Forward(chain) && Distinct(chain) && |chains| == Pow2(log2)
    requires Homed(chains) && Chained(buckets, chains) && Elements(chain) !! Members(chains)
    requires Tuned(buckets, chains, idealMax) && nonideal == Excess(chains, idealMax)
    modifies buckets, chain`hhNext, chain`hhPrev, Members(chains)`hhPrev
    ensures |chains'| == |chains| && Homed(chains') && Chained(buckets, chains')
    ensures Members(chains') == Members(chains) + Elements(chain)
    ensures Tuned(buckets, chains', idealMax) && nonideal' == Excess(chains', idealMax)
  {
    hide Homed, Chained, Distinct, Members, Forward, Tuned, Excess;
    nonideal', chains' := nonideal, chains;
    var thh := first;
    ghost var rest := chain;
    while thh != null
      invariant thh == First(rest) && Forward(rest) && Distinct(rest)
      invariant Elements(rest) <= Elements(chain) && Elements(rest) !! Members(chains')
      invariant |chains'| == |chains| && Homed(chains') && Chained(buckets, chains')
      invariant Members(chains') + Elements(rest) == Members(chains) + Elements(chain)
      invariant Tuned(buckets, chains', idealMax) && nonideal' == Excess(chains', idealMax)
      decreases |rest|
    {
      var nxt := thh.hhNext;
      RestOfChain(rest);
      nonideal', chains' := MoveItem(thh, buckets, chains', idealMax, nonideal', log2);
      thh := nxt;
      rest := rest[1..];
    }
  }

  // ----- whole tables -----

  lemma MembersTake<T>(chains: seq<seq<Handle<T>>>, i: nat)
    requires i < |chains|
    ensures Members(chains[..i + 1]) == Members(chains[..i]) + Elements(chains[i])
  {
    forall x | x in Elements(chains[i])
      ensures x in Members(chains[..i + 1])
    {
      var j :| 0 <= j < |chains[i]| && chains[i][j] == x;
      assert chains[..i + 1][i][j] == x;
    }
    forall k, j | 0 <= k < i && 0 <= j < |chains[..i][k]|
      ensures chains[..i][k][j] in Members(chains[..i + 1])
    {
      assert chains[..i + 1][k][j] == chains[..i][k][j];
    }
    var longer := chains[..i + 1];
    forall k, j | 0 <= k < |longer| && 0 <= j < |longer[k]|
      ensures longer[k][j] in Members(chains[..i]) + Elements(chains[i])
    {
      if k < i {
        assert longer[k][j] == chains[..i][k][j];
      }
    }
  }

  /** Chains share no handles. */
  lemma ChainsApart<T>(chains: seq<seq<Handle<T>>>, i: nat)
    requires Homed(chains) && i < |chains|
    ensures Distinct(chains[i])
    ensures Elements(chains[i]) !! Members(chains[..i])
    ensures forall k, x | 0 <= k < |chains| && k != i && x in chains[k] :: x !in chains[i]
  {
    forall k, x | 0 <= k < |chains| && x in chains[k]
      ensures x.hashv % |chains| == k
    {
      var j :| 0 <= j < |chains[k]| && chains[k][j] == x;
    }
  }

  lemma NoChains<T>(n: nat)
    requires n > 0
    ensures Homed(NoHandles<T>(n)) && Members(NoHandles<T>(n)) == {}
  {}

  lemma ChainedLength<T>(buckets: array<Bucket<T>>, chains: seq<seq<Handle<T>>>)
    requires Chained(buckets, chains)
    ensures buckets.Length == |chains|
  {}

  method NewBuckets<T>(n: nat) returns (buckets: array<Bucket<T>>)
    ensures fresh(buckets) && Chained(buckets, NoHandles<T>(n))
    ensures forall k | 0 <= k < n :: buckets[k].count == buckets[k].expandMult == 0
  {
    buckets := new Bucket<T>[n](_ => Bucket(null, 0, 0));
  }

  lemma ForwardChains<T>(buckets: array<Bucket<T>>, chains: seq<seq<Handle<T>>>)
    requires Chained(buckets, chains)
    ensures buckets.Length == |chains|
    ensures forall k | 0 <= k < |chains| :: Forward(chains[k]) && buckets[k].head == First(chains[k])
  {}

  lemma MembersIn<T>(chains: seq<seq<Handle<T>>>, i: nat)
    requires i < |chains|
    ensures Elements(chains[i]) <= Members(chains) && Members(chains[..i]) <= Members(chains)
  {
    forall k, j | 0 <= k < i && 0 <= j < |chains[..i][k]|
      ensures chains[..i][k][j] in Members(chains)
    {
      assert chains[k][j] == chains[..i][k][j];
    }
  }

  lemma NoMembers<T>(chains: seq<seq<Handle<T>>>)
    ensures Members(chains[..0]) == {}
  {}

  /** The outer loop of HASH_EXPAND_BUCKETS: all items move to twice as many buckets. */
  method Redistribute<T>(buckets: array<Bucket<T>>, ghost chains: seq<seq<Handle<T>>>, idealMax: nat, ghost log2: nat)
    returns (bigger: array<Bucket<T>>, nonideal: nat, ghost spread: seq<seq<Handle<T>>>)
    requires Homed(chains) && Chained(buckets, chains) && |chains| == Pow2(log2)
    modifies Members(chains)`hhNext, Members(chains)`hhPrev
    ensures fresh(bigger) && |spread| == 2 * |chains| && Homed(spread) && Chained(bigger, spread)
    ensures Members(spread) == Members(chains)
    ensures Tuned(bigger, spread, idealMax) && nonideal == Excess(spread, idealMax)
  {
    hide Homed, Chained, Distinct, Members, Backward, Excess;
    HomedNonEmpty(chains);
    ForwardChains(buckets, chains);
    var n := buckets.Length;
    bigger := NewBuckets<T>(2 * n);
    spread, nonideal := NoHandles<T>(2 * n), 0;
    NoChains<T>(2 * n);
    NoMembers(chains);
    ExcessNone<T>(2 * n, idealMax);
    ChainedLength(bigger, spread);
    hide Tuned;
    for i := 0 to n
      invariant Tuned(bigger, spread, idealMax) && nonideal == Excess(spread, idealMax)
      invariant |spread| == 2 * n && Homed(spread) && Chained(bigger, spread)
      invariant Members(spread) == Members(chains[..i])
      invariant forall k | i <= k < n :: Forward(chains[k]) && buckets[k].head == First(chains[k])
    {
      MembersTake(chains, i);
      ChainsApart(chains, i);
      MembersIn(chains, i);
      label moving:
      nonideal, spread := MoveChain(buckets[i].head, chains[i], bigger, spread, idealMax, nonideal, log2 + 1);
      forall k | i < k < n
        ensures Forward(chains[k]) && buckets[k].head == First(chains[k])
      {
        assert old@moving(Forward(chains[k]));
        assert forall j | 0 <= j < |chains[k]| :: chains[k][j] in chains[k] && chains[k][j] !in chains[i];
        assert forall j | 0 <= j < |chains[k]| :: chains[k][j].hhNext == old@moving(chains[k][j].hhNext);
      }
    }
    assert chains[..n] == chains;
  }

  lemma ElementsAppend<T>(s: seq<Handle<T>>, x: Handle<T>)
    requires x !in s
    ensures Elements(s + [x]) - {x} == Elements(s)
    ensures s == [] ==> Elements(s) == {}
  {}

  lemma DistinctAppend<T>(s: seq<Handle<T>>, x: Handle<T>)
    requires Distinct(s) && UniqueKeys(s) && x !in s && forall y | y in s :: y.key != x.key
    ensures Distinct(s + [x]) && UniqueKeys(s + [x])
  {}

  lemma DistinctLast<T>(s: seq<Handle<T>>)
    requires Distinct(s)
    ensures forall i | 0 <= i < |s| - 1 :: s[i] != s[|s| - 1]
  {}

  lemma OrderedAppend<T>(s: seq<Handle<T>>, x: Handle<T>)
    requires forall i {:trigger s[i].next} | 0 <= i < |s| :: s[i].next == if i + 1 < |s| then s[i + 1] else x
    requires forall i {:trigger s[i].prev} | 0 <= i < |s| :: s[i].prev == if i > 0 then s[i - 1] else null
    requires x.next == null && x.prev == Last(s)
    ensures Ordered(s + [x])
  {}

  /** Where a look-up has to search, and that it finds nothing foreign there. */
  lemma InItsChain<T>(order: seq<Handle<T>>, chains: seq<seq<Handle<T>>>)
    requires Homed(chains) && Members(chains) == Elements(order)
    ensures |chains| > 0
    ensures forall x | x in order :: x in chains[x.hashv % |chains|]
    ensures forall k, x | 0 <= k < |chains| && x in chains[k] :: x in order
  {
    forall x | x in order
      ensures x in chains[x.hashv % |chains|]
    {
      assert x in Members(chains);
    }
    forall k, x | 0 <= k < |chains| && x in chains[k]
      ensures x in order
    {
      var j :| 0 <= j < |chains[k]| && chains[k][j] == x;
      assert chains[k][j] in Members(chains);
    }
  }

  ghost function Without<T>(s: seq<Handle<T>>, j: nat): seq<Handle<T>>
    requires j < |s|
  {
    s[..j] + s[j + 1..]
  }

  lemma WithoutElements<T>(s: seq<Handle<T>>, j: nat)
    requires j < |s| && Distinct(s)
    ensures Distinct(Without(s, j)) && Elements(Without(s, j)) == Elements(s) - {s[j]}
  {
    var t := Without(s, j);
    forall i | 0 <= i < |s| && i != j
      ensures s[i] in t
    {
      assert t[if i < j then i else i - 1] == s[i];
    }
  }

  lemma HomedRemove<T>(chains: seq<seq<Handle<T>>>, b: nat, j: nat)
    requires Homed(chains) && b < |chains| && j < |chains[b]|
    ensures Homed(chains[b := Without(chains[b], j)])
  {
    var fewer: seq<seq<Handle<T>>> := chains[b := Without(chains[b], j)];
    WithoutElements(chains[b], j);
    forall k, i | 0 <= k < |fewer| && 0 <= i < |fewer[k]|
      ensures fewer[k][i].hashv % |fewer| == k
    {
      if k == b {
        assert fewer[k][i] == chains[k][if i < j then i else i + 1];
      }
    }
  }

  ghost function After<T>(s: seq<Handle<T>>, i: nat): Handle?<T>
    requires i < |s|
  {
    if i + 1 < |s| then s[i + 1] else null
  }

  /** The links of c, once its element j is bypassed, spell c without it. */
  lemma ForwardRemove<T>(c: seq<Handle<T>>, j: nat)
    requires j < |c|
    requires forall i {:trigger c[i].hhNext} | 0 <= i < |c| && i != j ::
               c[i].hhNext == (if i + 1 == j then After(c, j) else After(c, i))
    ensures Forward(Without(c, j))
  {
    var s := Without(c, j);
    forall i | 0 <= i < |s|
      ensures s[i].hhNext == if i + 1 < |s| then s[i + 1] else null
    {
      var k := if i < j then i else i + 1;
      assert s[i] == c[k];
      assert i + 1 < |s| ==> s[i + 1] == c[if i + 1 < j then i + 1 else i + 2];
    }
  }

  ghost function Before<T>(s: seq<Handle<T>>, i: nat): Handle?<T>
    requires i < |s|
  {
    if i > 0 then s[i - 1] else null
  }

  lemma BackwardRemove<T>(c: seq<Handle<T>>, j: nat)
    requires j < |c|
    requires forall i {:trigger c[i].hhPrev} | 0 <= i < |c| && i != j ::
               c[i].hhPrev == (if i == j + 1 then Before(c, j) else Before(c, i))
    ensures Backward(Without(c, j))
  {
    var s := Without(c, j);
    forall i | 0 <= i < |s|
      ensures s[i].hhPrev == if i > 0 then s[i - 1] else null
    {
      var k := if i < j then i else i + 1;
      assert s[i] == c[k];
      assert i > 0 ==> s[i - 1] == c[if i - 1 < j then i - 1 else i];
    }
  }

  lemma WithoutKeys<T>(s: seq<Handle<T>>, k: nat)
    requires k < |s| && UniqueKeys(s)
    ensures UniqueKeys(Without(s, k))
    ensures forall x | x in Without(s, k) :: x in s
  {}

  lemma DistinctAround<T>(s: seq<Handle<T>>, k: nat)
    requires k < |s| && Distinct(s)
    ensures forall i | 0 <= i < |s| && i != k :: s[i] != s[k]
    ensures k > 0 ==> forall i | 0 <= i < |s| && i != k - 1 :: s[i] != s[k - 1]
    ensures k + 1 < |s| ==> forall i | 0 <= i < |s| && i != k + 1 :: s[i] != s[k + 1]
  {}

  /** The order links of s, once its element k is bypassed, spell s without it. */
  lemma OrderedRemove<T>(s: seq<Handle<T>>, k: nat)
    requires k < |s|
    requires forall i {:trigger s[i].next} | 0 <= i < |s| && i != k ::
               s[i].next == (if i + 1 == k then After(s, k) else After(s, i))
    requires forall i {:trigger s[i].prev} | 0 <= i < |s| && i != k ::
               s[i].prev == (if i == k + 1 then Before(s, k) else Before(s, i))
    ensures Ordered(Without(s, k))
  {
    var t := Without(s, k);
    forall i | 0 <= i < |t|
      ensures t[i].next == if i + 1 < |t| then t[i + 1] else null
      ensures t[i].prev == if i > 0 then t[i - 1] else null
    {
      assert t[i] == s[if i < k then i else i + 1];
      assert i + 1 < |t| ==> t[i + 1] == s[if i + 1 < k then i + 1 else i + 2];
      assert i > 0 ==> t[i - 1] == s[if i - 1 < k then i - 1 else i];
    }
  }

  lemma OrderEnds<T>(s: seq<Handle<T>>, k: nat)
    requires k < |s| && Ordered(s)
    ensures s[k].prev == null && s[k].next == null <==> |s| == 1
  {}

  lemma MembersRemove<T>(chains: seq<seq<Handle<T>>>, b: nat, j: nat)
    requires Homed(chains) && b < |chains| && j < |chains[b]|
    ensures Members(chains[b := Without(chains[b], j)]) == Members(chains) - {chains[b][j]}
  {
    var fewer: seq<seq<Handle<T>>> := chains[b := Without(chains[b], j)];
    WithoutElements(chains[b], j);
    NotElsewhere(chains, b, chains[b][j]);
    forall k, i | 0 <= k < |fewer| && 0 <= i < |fewer[k]|
      ensures fewer[k][i] in Members(chains) - {chains[b][j]}
    {
      if k == b {
        assert fewer[k][i] == chains[k][if i < j then i else i + 1];
      }
      assert fewer[k][i] in fewer[k];
    }
    forall k, i | 0 <= k < |chains| && 0 <= i < |chains[k]| && chains[k][i] != chains[b][j]
      ensures chains[k][i] in Members(fewer)
    {
      if k == b {
        assert fewer[k][if i < j then i else i - 1] == chains[k][i];
      } else {
        assert fewer[k][i] == chains[k][i];
      }
    }
  }

  lemma WithoutFirst<T>(s: seq<Handle<T>>)
    requires s != [] && Distinct(s)
    ensures Without(s, 0) == s[1..]
    ensures forall k | 0 <= k < |s| && s[k] == s[0] :: k == 0
  {}

  lemma MoveBracket<T>(freed: seq<Handle<T>>, b: Handle<T>, rest: seq<Handle<T>>, before: seq<Handle<T>>)
    requires before == [b] + rest
    ensures freed + before == (freed + [b]) + rest
  {}

  class Table<T> {
    const hash: Word -> Word
    var head: Handle?<T>
    var tail: Handle?<T>
    var buckets: array<Bucket<T>>
    var numBuckets: nat
    var log2: nat
    var numItems: nat
    var idealMax: nat
    var nonideal: nat
    var ineffective: nat
    var noexpand: bool

    /** The handles in insertion order, and the chains of the buckets. */
    ghost var order: seq<Handle<T>>
    ghost var chains: seq<seq<Handle<T>>>

    ghost predicate ValidOrder()
      reads this, order`next, order`prev
    {
      && Distinct(order) && UniqueKeys(order) && Ordered(order)
      && head == First(order) && numItems == |order|
      && (forall x | x in order :: x.hashv == hash(x.key))
      && (order != [] ==> tail == Last(order))
    }

    ghost predicate ValidChains()
      reads this, buckets, order`hhNext, order`hhPrev
    {
      order != [] ==>
        && numBuckets == |chains| == Pow2(log2)
        && Homed(chains) && Members(chains) == Elements(order)
        && Chained(buckets, chains)
    }

    ghost predicate Valid()
      reads this, buckets, order
    {
      ValidOrder() && ValidChains()
    }

    constructor (hash: Word -> Word)
      ensures Valid() && order == [] && this.hash == hash && fresh(buckets)
    {
      this.hash := hash;
      head, tail := null, null;
      buckets := new Bucket<T>[0];
      numBuckets, log2, numItems, idealMax, nonideal, ineffective, noexpand := 0, 0, 0, 0, 0, 0, false;
      order, chains := [], [];
    }

    /**
     * What an expansion leaves, beside twice the buckets: the ideal length is the number of items
     * by buckets, rounded up.
     */
    ghost predicate Rebuilt(ineffectiveBefore: nat, noexpandBefore: bool)
      reads this, buckets
    {
      && Tuned(buckets, chains, idealMax) && nonideal == Excess(chains, idealMax)
      && IsCeiling(idealMax, numItems, numBuckets)
      && ineffective == (if nonideal > numItems / 2 then ineffectiveBefore + 1 else 0)
      && noexpand == (noexpandBefore || ineffective > 1)
    }

    /** HASH_EXPAND_BUCKETS */
    method ExpandBuckets()
      requires ValidChains() && order != [] && numItems > 0
      modifies this`buckets, this`numBuckets, this`log2, this`idealMax, this`nonideal, this`ineffective,
               this`noexpand, this`chains
      modifies order`hhNext, order`hhPrev
      ensures ValidChains() && fresh(buckets) && numBuckets == 2 * old(numBuckets)
      ensures Rebuilt(old(ineffective), old(noexpand))
    {
      hide Homed, Chained, Members, Tuned, Excess, IsCeiling, Ideal;
      var n := numBuckets;
      idealMax := Ideal(numItems, 2 * n);
      buckets, nonideal, chains := Redistribute(buckets, chains, idealMax, log2);
      numBuckets, log2 := 2 * n, log2 + 1;
      ineffective := if nonideal > numItems / 2 then ineffective + 1 else 0;
      if ineffective > 1 {
        noexpand := true;
      }
    }

    /** The order links with x appended: HASH_APPEND_LIST, or the first element of a new table. */
    method AppendOrder(x: Handle<T>)
      requires ValidOrder() && x !in order && x.hashv == hash(x.key)
      requires forall y | y in order :: y.key != x.key
      modifies this`head, this`tail, this`numItems, this`order, x`next, x`prev, order`next
      ensures ValidOrder() && order == old(order) + [x]
    {
      hide Distinct, UniqueKeys, Homed, Members, Chained, Pow2, Elements;
      DistinctAppend(order, x);
      DistinctLast(order);
      assert forall y | y in order + [x] :: y in order || y == x;
      x.next := null;
      if head == null {
        x.prev := null;
        head := x;
      } else {
        x.prev := tail;
        tail.next := x;
      }
      OrderedAppend(order, x);
      tail := x;
      numItems := numItems + 1;
      order := order + [x];
    }

    /** The bucket of a hash is full when one more item makes a chain of ten for each multiple and one more. */
    predicate Full(hashv: Word)
      reads this`numBuckets, this`noexpand, this`buckets, buckets
    {
      && 0 < numBuckets && hashv % numBuckets < buckets.Length && !noexpand
      && var b := buckets[hashv % numBuckets]; b.count + 1 >= 10 * (b.expandMult + 1)
    }

    /** HASH_MAKE_TABLE */
    method MakeTable()
      modifies this`buckets, this`numBuckets, this`log2, this`idealMax, this`nonideal, this`ineffective,
               this`noexpand, this`chains
      ensures fresh(buckets) && numBuckets == |chains| == Pow2(log2)
      ensures Homed(chains) && Members(chains) == {} && Chained(buckets, chains)
      ensures numBuckets == 32 && ineffective == 0 && !noexpand
      ensures forall hashv :: !Full(hashv)
    {
      hide Homed, Members, Chained;
      numBuckets, log2 := INITIAL_BUCKETS, INITIAL_LOG2;
      idealMax, nonideal, ineffective, noexpand := 0, 0, 0, false;
      buckets := NewBuckets<T>(INITIAL_BUCKETS);
      chains := NoHandles<T>(INITIAL_BUCKETS);
      NoChains<T>(INITIAL_BUCKETS);
    }

    /** The linking part of HASH_ADD_TO_BKT. */
    method LinkItem(x: Handle<T>) returns (b: nat)
      requires order != [] && x in order
      requires numBuckets == |chains| == Pow2(log2) && Homed(chains) && Chained(buckets, chains)
      requires Members(chains) == Elements(order) - {x}
      modifies this`chains, buckets, order`hhNext, order`hhPrev
      ensures ValidChains() && 0 < numBuckets && b == x.hashv % numBuckets < buckets.Length
      ensures b < |old(chains)| && chains == old(chains)[b := [x] + old(chains)[b]]
      ensures buckets[b].count == old(buckets[x.hashv % numBuckets].count) + 1
      ensures forall k | 0 <= k < buckets.Length :: buckets[k].expandMult == old(buckets[k].expandMult)
    {
      hide Homed, Members, Chained, Distinct;
      HomedNonEmpty(chains);
      ChainedLength(buckets, chains);
      BucketIndex(x.hashv, log2);
      b := ToBucket(x.hashv, numBuckets);
      NotMember(chains, b, x);
      Prepend(buckets, b, x, chains);
      MembersPrepend(chains, b, x);
      chains := chains[b := [x] + chains[b]];
    }

    /** HASH_ADD_TO_BKT: link x into its bucket and double the buckets when the chain is long. */
    method AddToBucket(x: Handle<T>)
      requires order != [] && x in order && numItems > 0
      requires numBuckets == |chains| == Pow2(log2) && Homed(chains) && Chained(buckets, chains)
      requires Members(chains) == Elements(order) - {x}
      modifies this`buckets, this`numBuckets, this`log2, this`idealMax, this`nonideal, this`ineffective,
               this`noexpand, this`chains
      modifies buckets, order`hhNext, order`hhPrev
      ensures ValidChains() && (buckets == old(buckets) || fresh(buckets))
      ensures old(Full(x.hashv)) ==> numBuckets == 2 * old(numBuckets) && Rebuilt(old(ineffective), old(noexpand))
      ensures !old(Full(x.hashv)) ==>
                && buckets == old(buckets) && numBuckets == old(numBuckets)
                && ineffective == old(ineffective) && noexpand == old(noexpand)
                && x.hashv % numBuckets < |old(chains)|
                && chains == old(chains)[x.hashv % numBuckets := [x] + old(chains)[x.hashv % numBuckets]]
                && (forall k | 0 <= k < buckets.Length :: buckets[k].expandMult == old(buckets[k].expandMult))
    {
      hide Homed, Members, Chained, Distinct, Rebuilt, ValidChains, Pow2;
      var b := LinkItem(x);
      if buckets[b].count >= (buckets[b].expandMult + 1) * CAPACITY_THRESH && !noexpand {
        ExpandBuckets();
      }
    }

    /** HASH_ADD of the first item, which brings the table. */
    method AddFirst(x: Handle<T>)
      requires Valid() && order == [] && x.hashv == hash(x.key)
      modifies this, x
      ensures Valid() && order == [x] && fresh(buckets)
      ensures numBuckets == 32 && ineffective == 0 && !noexpand
    {
      hide Homed, Members, Chained, Distinct, UniqueKeys, Ordered, Last, Pow2, Rebuilt, Full;
      ElementsAppend(order, x);
      MakeTable();
      AppendOrder(x);
      AddToBucket(x);
    }

    /** HASH_ADD */
    method Add(key: Word, elmt: T) returns (x: Handle<T>)
      requires Valid() && forall y | y in order :: y.key != key
      modifies this, buckets, order
      ensures Valid() && fresh(x) && x.key == key && x.elmt == elmt
      ensures order == old(order) + [x] && (buckets == old(buckets) || fresh(buckets))
      ensures old(order) == [] ==> numBuckets == 32 && ineffective == 0 && !noexpand
      ensures old(order) != [] && old(Full(hash(key))) ==>
                numBuckets == 2 * old(numBuckets) && Rebuilt(old(ineffective), old(noexpand))
      ensures old(order) != [] && !old(Full(hash(key))) ==>
                && buckets == old(buckets) && numBuckets == old(numBuckets)
                && ineffective == old(ineffective) && noexpand == old(noexpand)
    {
      hide Homed, Members, Chained, Distinct, UniqueKeys, Ordered, Last, Pow2, Rebuilt, Full;
      x := new Handle(key, hash(key), elmt);
      ElementsAppend(order, x);
      if head == null {
        AddFirst(x);
      } else {
        AppendOrder(x);
        AddToBucket(x);
      }
    }

    // ----- look-up -----

    /** HASH_FIND_IN_BKT */
    method FindInBucket(b: nat, hashv: Word, key: Word) returns (out: Handle?<T>)
      requires Chained(buckets, chains) && b < |chains|
      ensures out != null ==> out in chains[b] && out.key == key
      ensures out == null ==> forall y | y in chains[b] && y.hashv == hashv :: y.key != key
    {
      ghost var c := chains[b];
      ghost var j := 0;
      assert Forward(c) && Heads(buckets[b], c);
      out := buckets[b].head;
      while out != null
        invariant j <= |c| && out == if j < |c| then c[j] else null
        invariant forall i | 0 <= i < j :: c[i].hashv != hashv || c[i].key != key
        decreases |c| - j
      {
        if out.hashv == hashv && out.key == key {
          return;
        }
        out := out.hhNext;
        j := j + 1;
      }
    }

    /** HASH_FIND */
    method Find(key: Word) returns (out: Handle?<T>)
      requires Valid()
      ensures out != null ==> out in order && out.key == key
      ensures out == null ==> forall y | y in order :: y.key != key
    {
      out := null;
      if head != null {
        hide Homed, Members, Chained, Distinct, UniqueKeys, Ordered;
        HomedNonEmpty(chains);
        ChainedLength(buckets, chains);
        var hashv := hash(key);
        InItsChain(order, chains);
        BucketIndex(hashv, log2);
        out := FindInBucket(ToBucket(hashv, numBuckets), hashv, key);
      }
    }

    // ----- deletion -----

    /** HASH_DEL_IN_BKT */
    method DelInBucket(b: nat, del: Handle<T>, ghost j: nat)
      requires Homed(chains) && Chained(buckets, chains)
      requires b < |chains| && j < |chains[b]| && chains[b][j] == del
      modifies buckets, chains[b]`hhNext, chains[b]`hhPrev
      ensures Homed(chains[b := Without(chains[b], j)]) && Chained(buckets, chains[b := Without(chains[b], j)])
      ensures forall k | 0 <= k < buckets.Length :: buckets[k].expandMult == old(buckets[k].expandMult)
    {
      ghost var c := chains[b];
      HomedRemove(chains, b, j);
      ChainsApart(chains, b);
      hide Homed, Members;
      assert Forward(c) && Backward(c) && Heads(buckets[b], c);
      var head := if buckets[b].head == del then del.hhNext else buckets[b].head;
      buckets[b] := buckets[b].(head := head, count := buckets[b].count - 1);
      if del.hhPrev != null {
        del.hhPrev.hhNext := del.hhNext;
      }
      if del.hhNext != null {
        del.hhNext.hhPrev := del.hhPrev;
      }
      hide Distinct;
      ForwardRemove(c, j);
      BackwardRemove(c, j);
      forall k | 0 <= k < |chains| && k != b
        ensures Forward(chains[k]) && Backward(chains[k])
      {
        assert old(Forward(chains[k])) && old(Backward(chains[k]));
        assert forall y | y in chains[k] :: y !in c;
      }
      ChainedKept(buckets, chains[b := Without(c, j)], b);
    }

    /** The insertion-order part of HASH_DELETE_HH, for a table with other items left. */
    method UnlinkOrder(del: Handle<T>, ghost k: nat)
      requires ValidOrder() && k < |order| && order[k] == del && |order| > 1
      modifies this`head, this`tail, this`order, this`numItems, order`next, order`prev
      ensures ValidOrder() && order == Without(old(order), k)
    {
      hide UniqueKeys, Distinct, Homed, Members, Chained, Pow2, Elements;
      WithoutElements(order, k);
      WithoutKeys(order, k);
      DistinctAround(order, k);
      if del == tail {
        tail := del.prev;
      }
      if del.prev != null {
        del.prev.next := del.next;
      } else {
        head := del.next;
      }
      if del.next != null {
        del.next.prev := del.prev;
      }
      OrderedRemove(order, k);
      order := Without(order, k);
      numItems := numItems - 1;
    }

    /** The bucket part of HASH_DELETE_HH. */
    method DeleteFromBucket(del: Handle<T>)
      requires ValidChains() && del in order
      modifies this`chains, buckets, order`hhNext, order`hhPrev
      ensures numBuckets == |chains| == Pow2(log2)
      ensures Homed(chains) && Chained(buckets, chains) && Members(chains) == Elements(order) - {del}
      ensures forall k | 0 <= k < buckets.Length :: buckets[k].expandMult == old(buckets[k].expandMult)
    {
      hide Homed, Chained, Members;
      InItsChain(order, chains);
      ChainedLength(buckets, chains);
      BucketIndex(del.hashv, log2);
      var b := ToBucket(del.hashv, numBuckets);
      ghost var j: nat :| j < |chains[b]| && chains[b][j] == del;
      MembersRemove(chains, b, j);
      assert forall i | 0 <= i < |chains[b]| :: chains[b][i] in order;
      DelInBucket(b, del, j);
      chains := chains[b := Without(chains[b], j)];
    }

    method ForgetAll()
      modifies this`head, this`order, this`numItems
      ensures Valid() && order == []
    {
      head, order, numItems := null, [], 0;
    }

    /** HASH_DEL: the last item takes the table with it. */
    method Delete(del: Handle<T>) returns (ghost k: nat)
      requires Valid() && del in order
      modifies this, buckets, order
      ensures Valid() && buckets == old(buckets)
      ensures k < |old(order)| && old(order)[k] == del && order == Without(old(order), k)
      ensures numBuckets == old(numBuckets) && ineffective == old(ineffective) && noexpand == old(noexpand)
      ensures forall k | 0 <= k < buckets.Length :: buckets[k].expandMult == old(buckets[k].expandMult)
    {
      hide Homed, Chained, Members, UniqueKeys, Distinct, Ordered;
      k :| k < |order| && order[k] == del;
      OrderEnds(order, k);
      if del.prev == null && del.next == null {
        ForgetAll();
      } else {
        DeleteFromBucket(del);
        WithoutElements(order, k);
        UnlinkOrder(del, k);
      }
    }

    lemma ValidParts()
      requires Valid()
      ensures head == First(order) && Distinct(order) && UniqueKeys(order) && numItems == |order|
    {}

    /** One turn of HASH_ITER with HASH_DEL. */
    method DeleteFirst() returns (b: Handle<T>)
      requires Valid() && head != null
      modifies this, buckets, order
      ensures Valid() && buckets == old(buckets)
      ensures old(order) == [b] + order
    {
      hide ValidOrder, ValidChains, Distinct, UniqueKeys;
      ValidParts();
      b := head;
      WithoutFirst(order);
      ghost var k := Delete(b);
    }

    lemma NextOfFirst()
      requires Valid() && head != null
      ensures order != [] && head == order[0] && head.next == First(order[1..])
    {
      assert order[0].next == if 1 < |order| then order[1] else null;
    }

    /** HASH_ITER with HASH_DEL and free: every element once, in insertion order. */
    method DeleteAll() returns (freed: seq<Handle<T>>)
      requires Valid()
      modifies this, buckets, order
      ensures Valid() && order == [] && freed == old(order)
    {
      hide ValidOrder, ValidChains, Distinct, UniqueKeys, Valid;
      ghost var all := order;
      freed := [];
      ValidParts();
      assert all == freed + order;
      var el := head;
      while el != null
        invariant Valid() && buckets == old(buckets) && all == freed + order
        invariant el == head == First(order)
        decreases |order|
      {
        NextOfFirst();
        var tmp := el.next;
        ghost var rest := order;
        assert forall i | 0 <= i < |order| :: order[i] == all[|freed| + i];
        var b := DeleteFirst();
        MoveBracket(freed, b, order, rest);
        freed := freed + [b];
        el := tmp;
        ValidParts();
      }
    }
  }

  // ----- the table as a map -----

  /** The map a sequence of additions builds. */
  ghost function MapOf<T>(s: seq<Handle<T>>): map<Word, T> {
    if s == [] then map[] else MapOf(s[..|s| - 1])[s[|s| - 1].key := s[|s| - 1].elmt]
  }

  /** A look-up in the handles is a look-up in the map. */
  lemma {:induction false} MapOfFind<T>(s: seq<Handle<T>>, key: Word)
    requires UniqueKeys(s)
    ensures key in MapOf(s) <==> exists x :: x in s && x.key == key
    ensures forall x | x in s && x.key == key :: MapOf(s)[key] == x.elmt
  {
    if s == [] {
    } else {
      var t := s[..|s| - 1];
      MapOfFind(t, key);
      assert forall x | x in s :: x in t || x == s[|s| - 1];
      assert s[|s| - 1] in s;
      assert forall x | x in t :: x in s && x.key != s[|s| - 1].key;
    }
  }

  lemma MapOfAdd<T>(s: seq<Handle<T>>, x: Handle<T>)
    ensures MapOf(s + [x]) == MapOf(s)[x.key := x.elmt]
  {
    assert (s + [x])[..|s|] == s;
  }

  /** Deleting a handle removes its key from the map and nothing else. */
  lemma {:induction false} MapOfDelete<T>(s: seq<Handle<T>>, k: nat)
    requires UniqueKeys(s) && k < |s|
    ensures MapOf(Without(s, k)) == MapOf(s) - {s[k].key}
  {
    hide MapOf;
    var t, last := s[..|s| - 1], s[|s| - 1];
    MapOfAdd(t, last);
    assert s == t + [last];
    if k == |s| - 1 {
      assert Without(s, k) == t;
      MapOfFind(t, s[k].key);
    } else {
      MapOfDelete(t, k);
      assert Without(s, k) == Without(t, k) + [last];
      MapOfAdd(Without(t, k), last);
      assert s[k].key != last.key;
    }
  }

  // ----- counting -----

  /** The sum of the count fields of the first n buckets. */
  ghost function CountSum<T>(buckets: array<Bucket<T>>, n: nat): nat
    requires n <= buckets.Length
    reads buckets
  {
    if n == 0 then 0 else CountSum(buckets, n - 1) + buckets[n - 1].count
  }

  lemma {:induction false} ElementsSize<T>(s: seq<Handle<T>>)
    requires Distinct(s)
    ensures |Elements(s)| == |s|
  {
    if s == [] {
    } else {
      var t := s[..|s| - 1];
      ElementsSize(t);
      assert Elements(s) == Elements(t) + {s[|s| - 1]};
    }
  }

  lemma {:induction false} CountsUpTo<T>(buckets: array<Bucket<T>>, chains: seq<seq<Handle<T>>>, n: nat)
    requires Homed(chains) && Chained(buckets, chains) && n <= |chains|
    ensures n <= buckets.Length && CountSum(buckets, n) == |Members(chains[..n])|
    decreases n
  {
    hide Homed, Members, Forward, Backward;
    if n == 0 {
      NoMembers(chains);
    } else {
      CountsUpTo(buckets, chains, n - 1);
      MembersTake(chains, n - 1);
      ChainsApart(chains, n - 1);
      ElementsSize(chains[n - 1]);
      assert Heads(buckets[n - 1], chains[n - 1]);
    }
  }

  /** The count fields of the buckets sum to the number of items. */
  lemma CountsAreItems<T>(table: Table<T>)
    requires table.Valid() && table.head != null
    ensures table.buckets.Length == table.numBuckets
    ensures CountSum(table.buckets, table.numBuckets) == table.numItems
  {
    hide Homed, Chained, Members, Distinct;
    ChainedLength(table.buckets, table.chains);
    CountsUpTo(table.buckets, table.chains, |table.chains|);
    assert table.chains[..|table.chains|] == table.chains;
    ElementsSize(table.order);
  }
}
