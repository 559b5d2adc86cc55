/** The doubly linked list behind the LRU order. The dedup filter keeps an iterator to
    every node, so nodes are heap objects that stay put while the list is relinked. */
module RecencyList {
  import opened Prelude

  class Node {
    const uid: string
    var prev: Node
    var next: Node

    constructor (uid: string)
      ensures this.uid == uid && prev == this && next == this
    {
      this.uid := uid;
      prev, next := this, this;
    }
  }

  ghost function UidsOf(ring: seq<Node>): (s: seq<string>)
    ensures |ring| > 0 ==> |s| == |ring| - 1
  {
    if ring == [] then [] else seq(|ring| - 1, i requires 0 <= i < |ring| - 1 => ring[i + 1].uid)
  }

  ghost function Moved(ring: seq<Node>, k: nat): (r: seq<Node>)
    requires 0 < k < |ring|
    ensures Elements(r) == Elements(ring) && |r| == |ring|
  {
    assert ring == [ring[0]] + ring[1..k] + [ring[k]] + ring[k + 1..];
    [ring[0], ring[k]] + ring[1..k] + ring[k + 1..]
  }

  lemma UidsMoved(ring: seq<Node>, k: nat)
    requires 0 < k < |ring|
    ensures UidsOf(Moved(ring, k))
            == [ring[k].uid] + UidsOf(ring)[..k - 1] + UidsOf(ring)[k..]
  {
    var u, r := UidsOf(ring), Moved(ring, k);
    var now, want := UidsOf(r), [ring[k].uid] + u[..k - 1] + u[k..];
    forall i | 0 <= i < |now|
      ensures now[i] == want[i]
    {
      if 0 < i < k {
        assert r[i + 1] == ring[i] && want[i] == u[i - 1];
      } else if i >= k {
        assert r[i + 1] == ring[i + 1] && want[i] == u[i];
      }
    }
  }

  class List {
    const end: Node             // the past-the-end position; its uid is not an element
    ghost var ring: seq<Node>   // end, then the elements front to back

    static predicate Linked(a: Node, b: Node)
      reads a, b
    {
      a.next == b && b.prev == a
    }

    ghost predicate Valid()
      reads this, ring
    {
      && |ring| > 0 && ring[0] == end
      && Distinct(ring)
      && (forall i, j :: 0 <= i && j == i + 1 && j < |ring| ==> Linked(ring[i], ring[j]))
      && Linked(ring[|ring| - 1], ring[0])
    }

    /** The elements, front to back. */
    ghost function Uids(): seq<string>
      reads this
    {
      UidsOf(ring)
    }

    lemma Shape()
      requires Valid()
      ensures Distinct(ring) && |ring| > 0 && ring[0] == end
    {
    }

    constructor ()
      ensures Valid() && fresh(this) && fresh(end) && ring == [end]
    {
      var e := new Node("");
      end := e;
      ring := [e];
    }

    method Unlink(n: Node, ghost k: nat)
      requires Valid() && 0 < k < |ring| && ring[k] == n
      modifies this, ring
      ensures Valid() && ring == old(ring[..k] + ring[k + 1..])
    {
      assert Linked(ring[k - 1], ring[k]);
      assert k + 1 < |ring| ==> Linked(ring[k], ring[k + 1]);
      var p, q := n.prev, n.next;
      p.next := q;
      q.prev := p;
      ring := ring[..k] + ring[k + 1..];
    }

    method InsertFront(n: Node)
      requires Valid() && n !in ring
      modifies this, ring, n
      ensures Valid() && ring == [end, n] + old(ring[1..])
    {
      assert |ring| > 1 ==> Linked(ring[0], ring[1]);
      var first := end.next;
      assert first == if |ring| > 1 then ring[1] else end;
      n.prev := end;
      n.next := first;
      end.next := n;
      first.prev := n;
      ring := [end, n] + ring[1..];
    }

    /** `push_front` followed by `begin`. */
    method PushFront(uid: string) returns (n: Node)
      requires Valid()
      modifies this, ring
      ensures Valid() && fresh(n) && n.uid == uid && ring == [end, n] + old(ring[1..])
      ensures Uids() == [uid] + old(Uids())
    {
      n := new Node(uid);
      InsertFront(n);
    }

    /** `splice(begin, list, n)`: the node moves, no element is copied. */
    method MoveToFront(n: Node, ghost k: nat)
      requires Valid() && 0 < k < |ring| && ring[k] == n
      modifies this, ring
      ensures Valid() && ring == Moved(old(ring), k)
    {
      Unlink(n, k);
      InsertFront(n);
    }

    method Back() returns (n: Node)
      requires Valid() && |ring| > 1
      ensures n == ring[|ring| - 1]
    {
      n := end.prev;
    }

    method PopBack()
      requires Valid() && |ring| > 1
      modifies this, ring
      ensures Valid() && ring == old(ring[..|ring| - 1])
    {
      assert Linked(ring[|ring| - 1], ring[0]);
      Unlink(end.prev, |ring| - 1);
    }

    method Clear()
      requires Valid()
      modifies this, end
      ensures Valid() && ring == [end]
    {
      end.prev, end.next := end, end;
      ring := [end];
    }
  }
}
