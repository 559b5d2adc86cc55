/** Vocabulary shared by every module: options, bytes, machine widths, iteration
    orders of an unordered map, and sums over the entries of a map. */
module Prelude {

  datatype Option<+T> = None | Some(value: T)

  type byte = x: int | 0 <= x < 256

  const TWO_31: int := 0x8000_0000
  const TWO_32: int := 0x1_0000_0000
  const TWO_63: int := 0x8000_0000_0000_0000
  const TWO_64: int := 0x1_0000_0000_0000_0000

  ghost predicate Distinct<T>(s: seq<T>) {
    forall i, j :: 0 <= i < j < |s| ==> s[i] != s[j]
  }

  ghost function Elements<T>(s: seq<T>): set<T> {
    set x | x in s
  }

  /** `order` visits every key exactly once. The traversal order of an
      `unordered_map` is not specified, so every such order is possible. */
  ghost predicate IsOrder<T>(order: seq<T>, keys: set<T>) {
    Distinct(order) && Elements(order) == keys
  }

  lemma ElementsMore<T>(s: seq<T>, x: T)
    ensures Elements(s + [x]) == Elements(s) + {x}
  {
    assert forall y :: y in s + [x] <==> y in s || y == x;
  }

  lemma {:induction false} DistinctSize<T>(s: seq<T>)
    requires Distinct(s)
    ensures |Elements(s)| == |s|
  {
    if s != [] {
      var init, last := s[..|s| - 1], s[|s| - 1];
      DistinctSize(init);
      ElementsMore(init, last);
      assert s == init + [last];
      assert last !in Elements(init);
    }
  }

  lemma SubsetSize<T>(a: set<T>, b: set<T>)
    requires a <= b
    ensures |a| <= |b|
  {
    assert b == a + (b - a);
  }

  lemma PrefixMore<T>(s: seq<T>, i: nat)
    requires i < |s|
    ensures s[..i + 1] == s[..i] + [s[i]] && s[..i + 1][..i] == s[..i]
  {
  }

  lemma WholeSeq<T>(s: seq<T>)
    ensures s[..|s|] == s && s[..0] == [] && s[0..] == s
  {
  }

  /** Permutations: where the last element of one stands in the other, and what remains of both. */
  lemma SplitOff<T>(a: seq<T>, b: seq<T>) returns (k: nat)
    requires multiset(a) == multiset(b) && a != []
    ensures k < |b| && b[k] == a[|a| - 1]
    ensures multiset(a[..|a| - 1]) == multiset(b[..k] + b[k + 1..])
  {
    var init, last := a[..|a| - 1], a[|a| - 1];
    assert a == init + [last];
    assert last in multiset(b);
    k :| 0 <= k < |b| && b[k] == last;
    var rest := b[..k] + b[k + 1..];
    assert b == b[..k] + [last] + b[k + 1..];
    assert multiset(init) == multiset(a) - multiset{last};
    assert multiset(rest) == multiset(b) - multiset{last};
  }

  ghost function Sum<K>(m: map<K, int>): int {
    if m == map[] then 0
    else
      var k :| k in m;
      m[k] + Sum(m - {k})
  }

  lemma {:induction false} SumRemove<K>(m: map<K, int>, k: K)
    requires k in m
    ensures Sum(m) == m[k] + Sum(m - {k})
    decreases |m|
  {
    var j :| j in m && Sum(m) == m[j] + Sum(m - {j});
    if j != k {
      SumRemove(m - {j}, k);
      SumRemove(m - {k}, j);
      assert m - {j} - {k} == m - {k} - {j};
    }
  }

  lemma SumUpdate<K>(m: map<K, int>, k: K, v: int)
    ensures Sum(m[k := v]) == Sum(m) - (if k in m then m[k] else 0) + v
  {
    var n := m[k := v];
    SumRemove(n, k);
    assert n - {k} == m - {k};
    if k in m {
      SumRemove(m, k);
    } else {
      assert m - {k} == m;
    }
  }

  function SumSeq(xs: seq<int>): int {
    if xs == [] then 0 else SumSeq(xs[..|xs| - 1]) + xs[|xs| - 1]
  }

  lemma {:induction false} SumSeqUpdate(xs: seq<int>, i: nat, v: int)
    requires i < |xs|
    ensures SumSeq(xs[i := v]) == SumSeq(xs) - xs[i] + v
  {
    var n := |xs| - 1;
    if i < n {
      SumSeqUpdate(xs[..n], i, v);
      assert xs[i := v][..n] == xs[..n][i := v];
    } else {
      assert xs[i := v][..n] == xs[..n];
    }
  }

  lemma {:induction false} SumSeqPlus(xs: seq<int>, ys: seq<int>, zs: seq<int>)
    requires |xs| == |ys| == |zs| && forall i :: 0 <= i < |xs| ==> zs[i] == xs[i] + ys[i]
    ensures SumSeq(zs) == SumSeq(xs) + SumSeq(ys)
  {
    if xs != [] {
      var n := |xs| - 1;
      SumSeqPlus(xs[..n], ys[..n], zs[..n]);
    }
  }

  lemma {:induction false} SumSeqZero(xs: seq<int>)
    requires forall i :: 0 <= i < |xs| ==> xs[i] == 0
    ensures SumSeq(xs) == 0
  {
    if xs != [] {
      SumSeqZero(xs[..|xs| - 1]);
    }
  }

  /** Entries of value 0 do not count. */
  lemma {:induction false} SumWithoutZeros<K>(m: map<K, int>, keys: set<K>)
    requires forall k :: k in m && k !in keys ==> m[k] == 0
    ensures Sum(m) == Sum(map k | k in m && k in keys :: m[k])
    decreases |m|
  {
    if k :| k in m && k !in keys {
      SumRemove(m, k);
      SumWithoutZeros(m - {k}, keys);
      assert (map j | j in m - {k} && j in keys :: (m - {k})[j]) == (map j | j in m && j in keys :: m[j]);
    } else {
      assert (map k | k in m && k in keys :: m[k]) == m;
    }
  }

  /** The sum a loop over the map accumulates. */
  function SumAlong<K(==)>(m: map<K, int>, order: seq<K>): int {
    if order == [] then 0
    else
      var k := order[|order| - 1];
      SumAlong(m, order[..|order| - 1]) + if k in m then m[k] else 0
  }

  lemma {:induction false} SumAlongRest<K>(m: map<K, int>, k: K, order: seq<K>)
    requires k !in order
    ensures SumAlong(m - {k}, order) == SumAlong(m, order)
  {
    if order != [] {
      SumAlongRest(m, k, order[..|order| - 1]);
    }
  }

  /** The traversal order of the map does not matter. */
  lemma {:induction false} SumAlongIsSum<K>(m: map<K, int>, order: seq<K>)
    requires IsOrder(order, m.Keys)
    ensures SumAlong(m, order) == Sum(m)
  {
    if order == [] {
      assert m == map[];
    } else {
      var init, last := order[..|order| - 1], order[|order| - 1];
      assert order == init + [last];
      assert last in Elements(order);
      assert Elements(init) == (m - {last}).Keys;
      SumAlongIsSum(m - {last}, init);
      SumAlongRest(m, last, init);
      SumRemove(m, last);
    }
  }

  lemma {:induction false} SumBound<K>(m: map<K, int>)
    requires forall k :: k in m ==> m[k] >= 0
    ensures Sum(m) >= 0
    ensures forall k :: k in m ==> m[k] <= Sum(m)
    decreases |m|
  {
    forall k | k in m
      ensures m[k] <= Sum(m)
    {
      SumRemove(m, k);
      SumBound(m - {k});
    }
  }
}

/** The generated message classes. Their wire format is library code: all that is
    used is that parsing undoes serializing, that a message has a byte size, and
    that messages above INT_MAX bytes are refused. */
module Protobuf {
  import opened Prelude

  datatype Codec<!M> = Codec(serialize: M -> Option<seq<byte>>,
                             parse: seq<byte> -> Option<M>,
                             byteSize: M -> nat)

  ghost predicate Faithful<M(!new)>(pb: Codec<M>) {
    forall m: M ::
      && (pb.serialize(m).Some? <==> pb.byteSize(m) < TWO_31)
      && (pb.serialize(m).Some? ==>
            |pb.serialize(m).value| == pb.byteSize(m) && pb.parse(pb.serialize(m).value) == Some(m))
  }
}
