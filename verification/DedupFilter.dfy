/** Uid deduplication: a Bloom filter in front of an exact least-recently-used set. */
module DedupFilters {
  import opened Prelude
  import opened RecencyList
  import opened Lru

  const FNV_OFFSET: nat := 14695981039346656037
  const FNV_PRIME: nat := 1099511628211

  /** Bitwise exclusive or. */
  function Xor(a: nat, b: nat): nat {
    if a == 0 then b else (a + b) % 2 + 2 * Xor(a / 2, b / 2)
  }

  /** A signed 8-bit character widened to 64 bits. */
  function CharWord(c: char): nat {
    var byte := c as int % 256;
    if byte < 128 then byte else TWO_64 - 256 + byte
  }

  function FnvStep(h: nat, c: char): nat {
    Xor(h, CharWord(c)) * FNV_PRIME % TWO_64
  }

  function Fnv(uid: string): nat {
    if uid == "" then FNV_OFFSET else FnvStep(Fnv(uid[..|uid| - 1]), uid[|uid| - 1])
  }

  /** Binary digit k of n. */
  function Bit(n: nat, k: nat): nat {
    if k == 0 then n % 2 else Bit(n / 2, k - 1)
  }

  /** Digit by digit, the result is 1 exactly where the operands differ. */
  ghost predicate Differences(x: nat, a: nat, b: nat) {
    forall k: nat :: Bit(x, k) == 1 <==> Bit(a, k) != Bit(b, k)
  }

  lemma {:induction false} XorBit(a: nat, b: nat, k: nat)
    ensures Bit(Xor(a, b), k) == 1 <==> Bit(a, k) != Bit(b, k)
  {
    if a == 0 {
      ZeroBit(k);
      BitBound(b, k);
    } else {
      XorHalf(a, b);
      if k > 0 {
        XorBit(a / 2, b / 2, k - 1);
      }
      hide Xor;
    }
  }

  lemma XorHalf(a: nat, b: nat)
    requires a != 0
    ensures Xor(a, b) % 2 == 1 <==> a % 2 != b % 2
    ensures Xor(a, b) / 2 == Xor(a / 2, b / 2)
  {
    LastDigit((a + b) % 2, Xor(a / 2, b / 2));
    Parity(a, b);
    assert Xor(a, b) == (a + b) % 2 + 2 * Xor(a / 2, b / 2);
    hide *;
  }

  lemma LastDigit(d: nat, h: nat)
    requires d < 2
    ensures (d + 2 * h) % 2 == d && (d + 2 * h) / 2 == h
  {
  }

  lemma Parity(a: nat, b: nat)
    ensures (a + b) % 2 == 1 <==> a % 2 != b % 2
  {
  }

  lemma {:induction false} ZeroBit(k: nat)
    ensures Bit(0, k) == 0
  {
    if k > 0 {
      ZeroBit(k - 1);
    }
  }

  lemma {:induction false} BitBound(n: nat, k: nat)
    ensures Bit(n, k) <= 1
  {
    if k > 0 {
      BitBound(n / 2, k - 1);
    }
  }

  lemma {:induction false} SameBits(x: nat, y: nat)
    requires forall k: nat :: Bit(x, k) == Bit(y, k)
    ensures x == y
  {
    if x != 0 || y != 0 {
      assert Bit(x, 0) == Bit(y, 0);
      forall k: nat
        ensures Bit(x / 2, k) == Bit(y / 2, k)
      {
        assert Bit(x, k + 1) == Bit(y, k + 1);
      }
      SameBits(x / 2, y / 2);
    }
  }

  /** Exclusive or is the one number whose digits are the differences. */
  lemma XorExactly(x: nat, a: nat, b: nat)
    ensures x == Xor(a, b) <==> Differences(x, a, b)
  {
    forall k: nat
      ensures Bit(Xor(a, b), k) == 1 <==> Bit(a, k) != Bit(b, k)
    {
      XorBit(a, b, k);
    }
    if Differences(x, a, b) {
      forall k: nat
        ensures Bit(x, k) == Bit(Xor(a, b), k)
      {
        XorBit(a, b, k);
        BitBound(x, k);
        BitBound(Xor(a, b), k);
      }
      SameBits(x, Xor(a, b));
    }
  }

  /** One step of FNV-1a: the character, widened with its sign, is xored in before the multiplication. */
  lemma FnvSnoc(uid: string, c: char, word: nat, mixed: nat)
    requires word % 256 == c as int % 256
    requires if c as int % 256 < 128 then word < 128 else 18446744073709551488 <= word < 18446744073709551616
    requires Differences(mixed, Fnv(uid), word)
    ensures Fnv(uid + [c]) == mixed * 1099511628211 % 18446744073709551616
    ensures Fnv("") == 14695981039346656037
  {
    hide Xor, Differences, Bit;
    XorExactly(mixed, Fnv(uid), word);
    SignedChar(c, word);
    assert (uid + [c])[..|uid|] == uid;
    hide CharWord;
  }

  lemma SignedChar(c: char, word: nat)
    requires word % 256 == c as int % 256
    requires if c as int % 256 < 128 then word < 128 else 18446744073709551488 <= word < 18446744073709551616
    ensures word == CharWord(c)
  {
  }

  /** Double hashing modulo 2^64, then modulo the number of bits. */
  function BloomIndex(h1: nat, h2: nat, i: nat, bitCount: nat): (j: nat)
    requires bitCount > 0
    ensures j < bitCount
  {
    (h1 + i * h2) % TWO_64 % bitCount
  }

  class DedupFilter {
    const stdHash: string -> nat   // std::hash<std::string>
    const maxSize: nat
    const numHashes: nat
    const bits: array<bool>
    const list: List
    var lruMap: map<string, Node>
    ghost var history: seq<string>   // insertions since construction or clear

    ghost function Repr(): set<object>
      reads this, list
    {
      {this, bits, list} + set n | n in list.ring
    }

    function Index(uid: string, i: nat): (j: nat)
      requires bits.Length > 0
      ensures j < bits.Length
    {
      BloomIndex(stdHash(uid), Fnv(uid), i, bits.Length)
    }

    /** Some probe of uid lands on bit j. */
    ghost predicate Hits(uid: string, j: nat, probes: nat)
      requires bits.Length > 0
    {
      exists i :: 0 <= i < probes && Index(uid, i) == j
    }

    ghost predicate Marked(uids: seq<string>, j: nat)
      requires bits.Length > 0
    {
      exists k :: 0 <= k < |uids| && Hits(uids[k], j, numHashes)
    }

    /** Bit j is set exactly when a uid of the exact set hashes to it. */
    ghost predicate BloomExact()
      requires bits.Length > 0
      reads list, bits
    {
      forall j :: 0 <= j < bits.Length ==> (bits[j] <==> Marked(list.Uids(), j))
    }

    /** Every map iterator points at the node of its uid, and every node is mapped. */
    ghost predicate MapAgrees()
      reads this, list
    {
      && (forall u :: u in lruMap ==> lruMap[u] in list.ring && lruMap[u] != list.end && lruMap[u].uid == u)
      && (forall n :: n in list.ring && n != list.end ==> n.uid in lruMap && lruMap[n.uid] == n)
    }

    ghost predicate Parameters() {
      maxSize > 0 && numHashes > 0 && bits.Length > 0
    }

    ghost predicate Valid()
      reads this, list, list.ring, bits
    {
      && Parameters()
      && list.Valid()
      && MapAgrees()
      && BloomExact()
      && Lru() == Trim(Recency(history), maxSize)
    }

    /** The exact set, most recent first. */
    ghost function Lru(): seq<string>
      reads list
    {
      list.Uids()
    }

    constructor (stdHash: string -> nat, maxSize: nat, bitCount: nat, numHashes: nat)
      requires bitCount > 0 && numHashes > 0
      ensures Valid() && fresh(Repr())
      ensures this.stdHash == stdHash && this.numHashes == numHashes && bits.Length == bitCount
      ensures this.maxSize == if maxSize > 1 then maxSize else 1
      ensures Lru() == [] && history == []
    {
      this.stdHash := stdHash;
      this.maxSize := if maxSize > 1 then maxSize else 1;
      this.numHashes := numHashes;
      bits := new bool[bitCount](_ => false);
      list := new List();
      lruMap := map[];
      history := [];
    }

    method BloomHash(uid: string, i: nat) returns (j: nat)
      requires bits.Length > 0
      ensures j == Index(uid, i)
      ensures j == (stdHash(uid) + i * Fnv(uid)) % 18446744073709551616 % bits.Length
    {
      var h1 := stdHash(uid);
      var h2 := FNV_OFFSET;
      for k := 0 to |uid|
        invariant h2 == Fnv(uid[..k])
      {
        assert uid[..k + 1][..k] == uid[..k];
        h2 := FnvStep(h2, uid[k]);
      }
      assert uid[..|uid|] == uid;
      j := BloomIndex(h1, h2, i, bits.Length);
    }

    method BloomAdd(uid: string)
      requires bits.Length > 0
      modifies bits
      ensures forall j :: 0 <= j < bits.Length ==> (bits[j] <==> old(bits[j]) || Hits(uid, j, numHashes))
    {
      for i := 0 to numHashes
        invariant forall j :: 0 <= j < bits.Length ==> (bits[j] <==> old(bits[j]) || Hits(uid, j, i))
      {
        var h := BloomHash(uid, i);
        bits[h] := true;
        forall j | 0 <= j < bits.Length
          ensures Hits(uid, j, i + 1) <==> Hits(uid, j, i) || j == h
        {
          HitsSnoc(uid, j, i);
        }
      }
    }

    method BloomMaybeContains(uid: string) returns (maybe: bool)
      requires bits.Length > 0
      ensures maybe <==> forall i :: 0 <= i < numHashes ==> bits[Index(uid, i)]
    {
      for i := 0 to numHashes
        invariant forall k :: 0 <= k < i ==> bits[Index(uid, k)]
      {
        var h := BloomHash(uid, i);
        if !bits[h] {
          return false;
        }
      }
      return true;
    }

    method BloomRebuild()
      requires bits.Length > 0 && list.Valid()
      modifies bits
      ensures BloomExact()
    {
      forall j | 0 <= j < bits.Length {
        bits[j] := false;
      }
      var node := list.end.next;
      ghost var k := 0;
      assert |list.ring| > 1 ==> List.Linked(list.ring[0], list.ring[1]);
      while node != list.end
        invariant k < |list.ring| && node == list.ring[if k + 1 < |list.ring| then k + 1 else 0]
        invariant forall j :: 0 <= j < bits.Length ==> (bits[j] <==> Marked(list.Uids()[..k], j))
        decreases |list.ring| - k
      {
        ghost var uids := list.Uids();
        assert node == list.ring[k + 1];
        BloomAdd(node.uid);
        assert uids[..k + 1] == uids[..k] + [node.uid];
        forall j | 0 <= j < bits.Length
          ensures Marked(uids[..k + 1], j) <==> Marked(uids[..k], j) || Hits(node.uid, j, numHashes)
        {
          MarkedSnoc(uids[..k], node.uid, j);
        }
        k := k + 1;
        assert k + 1 < |list.ring| ==> List.Linked(list.ring[k], list.ring[k + 1]);
        node := node.next;
      }
      assert k == |list.Uids()|;
      assert list.Uids()[..k] == list.Uids();
    }

    lemma HitsSnoc(uid: string, j: nat, i: nat)
      requires bits.Length > 0
      ensures Hits(uid, j, i + 1) <==> Hits(uid, j, i) || Index(uid, i) == j
    {
      if Hits(uid, j, i + 1) && Index(uid, i) != j {
        var k :| 0 <= k < i + 1 && Index(uid, k) == j;
        assert k < i;
      }
    }

    lemma MarkedSnoc(uids: seq<string>, uid: string, j: nat)
      requires bits.Length > 0
      ensures Marked(uids + [uid], j) <==> Marked(uids, j) || Hits(uid, j, numHashes)
    {
      assert (uids + [uid])[|uids|] == uid;
      if Marked(uids, j) {
        var k :| 0 <= k < |uids| && Hits(uids[k], j, numHashes);
        assert (uids + [uid])[k] == uids[k];
      }
    }

    method Contains(uid: string) returns (found: bool)
      requires Valid()
      ensures found <==> uid in Lru()
      ensures found <==> InWindow(history, uid, maxSize)
    {
      WindowExact(history, uid, maxSize);
      MapIsLru(uid);
      var maybe := BloomMaybeContains(uid);
      if uid in Lru() {
        NoFalseNegative(uid);
      }
      if !maybe {
        return false;
      }
      return uid in lruMap;
    }

    /** A uid of the exact set has all its bits set. */
    lemma NoFalseNegative(uid: string)
      requires Valid() && uid in Lru()
      ensures forall i :: 0 <= i < numHashes ==> bits[Index(uid, i)]
    {
      var k :| 0 <= k < |Lru()| && Lru()[k] == uid;
      forall i | 0 <= i < numHashes
        ensures bits[Index(uid, i)]
      {
        assert Hits(Lru()[k], Index(uid, i), numHashes);
      }
    }

    lemma MapIsLru(uid: string)
      requires list.Valid() && MapAgrees()
      ensures uid in lruMap <==> uid in Lru()
    {
      if uid in lruMap {
        var k :| 0 <= k < |list.ring| && list.ring[k] == lruMap[uid];
        assert Lru()[k - 1] == uid;
      }
      if uid in Lru() {
        var k :| 0 <= k < |Lru()| && Lru()[k] == uid;
        assert list.ring[k + 1] in list.ring;
      }
    }

    lemma MarkedSame(a: seq<string>, b: seq<string>, j: nat)
      requires bits.Length > 0 && Elements(a) == Elements(b)
      ensures Marked(a, j) <==> Marked(b, j)
    {
      if Marked(a, j) {
        var k :| 0 <= k < |a| && Hits(a[k], j, numHashes);
        assert a[k] in Elements(b);
      }
      if Marked(b, j) {
        var k :| 0 <= k < |b| && Hits(b[k], j, numHashes);
        assert b[k] in Elements(a);
      }
    }

    lemma LruDistinct()
      requires list.Valid() && MapAgrees()
      ensures Distinct(Lru()) && Elements(Lru()) == lruMap.Keys && |lruMap| == |Lru()|
    {
      var l := Lru();
      forall i, j | 0 <= i < j < |l|
        ensures l[i] != l[j]
      {
        assert list.ring[i + 1] in list.ring && list.ring[j + 1] in list.ring;
      }
      forall u
        ensures u in Elements(l) <==> u in lruMap.Keys
      {
        MapIsLru(u);
      }
      DistinctSize(l);
      assert |lruMap| == |lruMap.Keys|;
    }

    lemma NodePosition(uid: string) returns (k: nat)
      requires list.Valid() && MapAgrees() && uid in lruMap
      ensures 0 < k < |list.ring| && list.ring[k] == lruMap[uid] && Lru()[k - 1] == uid
    {
      k :| 0 <= k < |list.ring| && list.ring[k] == lruMap[uid];
    }

    method EvictOldest()
      requires Parameters() && list.Valid() && MapAgrees() && BloomExact()
      modifies this`lruMap, list, list.ring, bits
      ensures list.Valid() && MapAgrees() && BloomExact()
      ensures Lru() == Trim(old(Lru()), maxSize)
      ensures Elements(list.ring) <= old(Elements(list.ring))
    {
      hide List.Valid, BloomExact, MapAgrees;
      var needRebuild := false;
      ghost var ring := list.ring;
      LruDistinct();
      list.Shape();
      while |lruMap| > maxSize
        invariant list.Valid() && MapAgrees() && |lruMap| == |Lru()|
        invariant maxSize <= |Lru()| || !needRebuild
        invariant 0 < |list.ring| <= |ring| && list.ring == ring[..|list.ring|]
        invariant !needRebuild ==> list.ring == ring && BloomExact()
      {
        PrefixOfPrefix(ring, |list.ring|);
        EvictOne();
        LruDistinct();
        needRebuild := true;
      }
      assert Lru() == Trim(UidsOf(ring), maxSize);
      if needRebuild {
        BloomRebuild();
      }
    }

    lemma PrefixOfPrefix(ring: seq<Node>, k: nat)
      requires 0 < k <= |ring|
      ensures ring[..k][..k - 1] == ring[..k - 1]
    {
    }

    method EvictOne()
      requires list.Valid() && MapAgrees() && |list.ring| > 1
      modifies this`lruMap, list, list.ring
      ensures list.Valid() && MapAgrees()
      ensures list.ring == old(list.ring[..|list.ring| - 1])
    {
      hide List.Valid;
      list.Shape();
      AllButLast(list.ring);
      var oldest := list.Back();
      lruMap := lruMap - {oldest.uid};
      list.PopBack();
    }

    lemma AllButLast(ring: seq<Node>)
      requires Distinct(ring) && ring != []
      ensures var last := ring[|ring| - 1];
              forall n :: n in ring[..|ring| - 1] <==> n in ring && n != last
    {
    }

    method Promote(uid: string)
      requires Parameters() && list.Valid() && MapAgrees() && BloomExact() && uid in lruMap
      modifies list, list.ring
      ensures list.Valid() && MapAgrees() && BloomExact()
      ensures Lru() == [uid] + Without(old(Lru()), uid) && |Lru()| == |old(Lru())|
      ensures Elements(list.ring) == old(Elements(list.ring))
    {
      hide List.Valid, Marked, Without, UidsOf, Moved;
      ghost var ring, was := list.ring, Lru();
      LruDistinct();
      ghost var k := NodePosition(uid);
      PromotedUids(ring, k);
      PromotedSame(was, uid);
      list.MoveToFront(lruMap[uid], k);
      SameNodes(list.ring, ring);
    }

    lemma SameNodes(a: seq<Node>, b: seq<Node>)
      requires Elements(a) == Elements(b)
      ensures forall n :: n in a <==> n in b
    {
      assert forall n :: n in a <==> n in Elements(a);
      assert forall n :: n in b <==> n in Elements(b);
    }

    lemma PromotedUids(ring: seq<Node>, k: nat)
      requires 0 < k < |ring| && Distinct(UidsOf(ring))
      ensures UidsOf(Moved(ring, k)) == [ring[k].uid] + Without(UidsOf(ring), ring[k].uid)
    {
      var was, uid := UidsOf(ring), ring[k].uid;
      WithoutAt(was, uid, k - 1);
      UidsMoved(ring, k);
      assert [uid] + was[..k - 1] + was[k..] == [uid] + (was[..k - 1] + was[k..]);
    }

    lemma PromotedSame(was: seq<string>, uid: string)
      requires bits.Length > 0 && uid in was
      ensures forall j :: Marked([uid] + Without(was, uid), j) <==> Marked(was, j)
    {
      var now := [uid] + Without(was, uid);
      WithoutElements(was, uid);
      ElementsAppend([uid], Without(was, uid));
      assert uid in Elements(was);
      forall j
        ensures Marked(now, j) <==> Marked(was, j)
      {
        MarkedSame(now, was, j);
      }
    }

    method PushNew(uid: string)
      requires Parameters() && list.Valid() && MapAgrees() && BloomExact() && uid !in lruMap
      modifies this`lruMap, list, list.ring, bits
      ensures list.Valid() && MapAgrees() && BloomExact()
      ensures Lru() == [uid] + old(Lru())
      ensures fresh(Elements(list.ring) - old(Elements(list.ring)))
    {
      ghost var ring, was := list.ring, Lru();
      var n := list.PushFront(uid);
      assert forall m :: m in list.ring <==> m == n || m in ring;
      lruMap := lruMap[uid := n];
      BloomAdd(uid);
      forall j | 0 <= j < bits.Length
        ensures Marked(Lru(), j) <==> Marked(was, j) || Hits(uid, j, numHashes)
      {
        ElementsAppend([uid], was);
        ElementsAppend(was, [uid]);
        MarkedSame(Lru(), was + [uid], j);
        MarkedSnoc(was, uid, j);
      }
    }

    /** True for a new uid; a uid inside the window is refused and becomes the most recent. */
    method Insert(uid: string) returns (inserted: bool)
      requires Valid()
      modifies Repr()
      ensures Valid() && fresh(Repr() - old(Repr()))
      ensures history == old(history) + [uid]
      ensures Lru() == Touch(old(Lru()), uid, maxSize)
      ensures inserted <==> uid !in old(Lru())
      ensures inserted <==> !InWindow(old(history), uid, maxSize)
    {
      hide List.Valid, BloomExact, Recency, Without;
      WindowExact(history, uid, maxSize);
      TouchExtendsHistory(history, uid, maxSize);
      MapIsLru(uid);
      ghost var nodes := Elements(list.ring);
      history := history + [uid];
      if uid in lruMap {
        Promote(uid);
        inserted := false;
      } else {
        WithoutAbsent(Lru(), uid);
        PushNew(uid);
        EvictOldest();
        inserted := true;
      }
      assert Repr() == {this, bits, list} + Elements(list.ring);
    }

    method Clear()
      requires Valid()
      modifies Repr()
      ensures Valid() && Lru() == [] && history == [] && fresh(Repr() - old(Repr()))
    {
      list.Clear();
      lruMap := map[];
      history := [];
      forall j | 0 <= j < bits.Length {
        bits[j] := false;
      }
    }

    method Size() returns (n: nat)
      requires Valid()
      ensures n == |Lru()| <= maxSize
    {
      LruDistinct();
      n := |lruMap|;
    }
  }
}
