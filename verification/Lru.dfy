/** The least-recently-used window as a function of the insertion history. */
module Lru {
  import opened Prelude

  function Without(l: seq<string>, u: string): seq<string> {
    if l == [] then [] else if l[0] == u then Without(l[1..], u) else [l[0]] + Without(l[1..], u)
  }

  function Trim(l: seq<string>, max: nat): seq<string> {
    if |l| <= max then l else l[..max]
  }

  /** What one insertion does to the list, most recent first. */
  function Touch(l: seq<string>, u: string, max: nat): seq<string> {
    Trim([u] + Without(l, u), max)
  }

  /** The distinct uids of an insertion history, most recently inserted first. */
  function Recency(history: seq<string>): seq<string> {
    if history == [] then []
    else
      var u := history[|history| - 1];
      [u] + Without(Recency(history[..|history| - 1]), u)
  }

  /** The insertions after the last insertion of u. */
  function Since(history: seq<string>, u: string): seq<string> {
    if history == [] || history[|history| - 1] == u then []
    else Since(history[..|history| - 1], u) + [history[|history| - 1]]
  }

  /** u was inserted before, and fewer than `max` distinct other uids were inserted since. */
  ghost predicate InWindow(history: seq<string>, u: string, max: nat) {
    u in history && |Elements(Since(history, u))| < max
  }

  lemma {:induction false} WithoutElements(l: seq<string>, u: string)
    ensures Elements(Without(l, u)) == Elements(l) - {u}
    ensures Distinct(l) ==> Distinct(Without(l, u))
  {
    if l != [] {
      WithoutElements(l[1..], u);
      assert Elements(l) == {l[0]} + Elements(l[1..]);
      var w := Without(l[1..], u);
      assert Elements([l[0]] + w) == {l[0]} + Elements(w);
      assert forall i :: 0 <= i < |w| ==> w[i] in Elements(w);
    }
  }

  lemma {:induction false} WithoutAbsent(l: seq<string>, u: string)
    requires u !in l
    ensures Without(l, u) == l
  {
    if l != [] {
      WithoutAbsent(l[1..], u);
    }
  }

  lemma {:induction false} WithoutSplit(a: seq<string>, b: seq<string>, u: string)
    ensures Without(a + b, u) == Without(a, u) + Without(b, u)
  {
    if a == [] {
      assert a + b == b;
    } else {
      var tail := a[1..];
      WithoutSplit(tail, b, u);
      assert a + b == [a[0]] + (tail + b);
      assert (a + b)[1..] == tail + b;
    }
  }

  lemma {:induction false} WithoutAt(l: seq<string>, u: string, k: nat)
    requires Distinct(l) && k < |l| && l[k] == u
    ensures Without(l, u) == l[..k] + l[k + 1..]
  {
    hide Without;
    var a, b := l[..k], l[k + 1..];
    assert u !in a && u !in b;
    WithoutAbsent(a, u);
    WithoutAbsent(b, u);
    WithoutHead(b, u);
    WithoutSplit(a, [u] + b, u);
    assert a + ([u] + b) == l;
  }

  lemma WithoutHead(b: seq<string>, u: string)
    ensures Without([u] + b, u) == Without(b, u)
  {
    assert ([u] + b)[1..] == b;
  }

  lemma WithoutSize(l: seq<string>, u: string)
    requires Distinct(l)
    ensures |Without(l, u)| >= |l| - 1
  {
    WithoutElements(l, u);
    DistinctSize(l);
    DistinctSize(Without(l, u));
  }

  /** Forgetting what lies beyond the window never changes a later window. */
  lemma TouchTrimmed(l: seq<string>, u: string, max: nat)
    requires Distinct(l) && max > 0
    ensures Touch(Trim(l, max), u, max) == Touch(l, u, max)
  {
    if |l| > max {
      var a, b := l[..max], l[max..];
      assert a + b == l;
      WithoutSplit(a, b, u);
      WithoutSize(a, u);
      var front := [u] + Without(a, u);
      assert [u] + Without(l, u) == front + Without(b, u);
      assert (front + Without(b, u))[..max] == front[..max];
    }
  }

  lemma ElementsAppend(a: seq<string>, b: seq<string>)
    ensures Elements(a + b) == Elements(a) + Elements(b)
  {
    assert forall x :: x in a + b <==> x in a || x in b;
  }

  lemma {:induction false} RecencyDistinct(history: seq<string>)
    ensures Distinct(Recency(history)) && Elements(Recency(history)) == Elements(history)
  {
    if history != [] {
      var h, u := history[..|history| - 1], history[|history| - 1];
      RecencyDistinct(h);
      WithoutElements(Recency(h), u);
      assert u !in Elements(Without(Recency(h), u));
      ElementsAppend([u], Without(Recency(h), u));
      assert history == h + [u];
      ElementsAppend(h, [u]);
    }
  }

  /** Where an element stands after another one is touched. */
  lemma RankAfterTouch(r: seq<string>, q: nat, x: string) returns (p: nat)
    requires q < |r| && r[q] != x
    ensures var w := [x] + Without(r, x);
            p < |w| && w[p] == r[q] && Elements(w[..p]) == {x} + Elements(r[..q])
  {
    var front, back := Without(r[..q], x), Without(r[q..], x);
    assert r[..q] + r[q..] == r;
    WithoutSplit(r[..q], r[q..], x);
    assert back[0] == r[q];
    p := 1 + |front|;
    assert ([x] + (front + back))[..p] == [x] + front;
    WithoutElements(r[..q], x);
    ElementsAppend([x], front);
  }

  /** The rank of u in the recency order counts the distinct uids inserted after it. */
  lemma {:induction false} RecencyRank(history: seq<string>, u: string) returns (p: nat)
    requires u in history
    ensures p < |Recency(history)| && Recency(history)[p] == u
    ensures Elements(Recency(history)[..p]) == Elements(Since(history, u))
  {
    var h, x := history[..|history| - 1], history[|history| - 1];
    if x == u {
      p := 0;
    } else {
      assert history == h + [x];
      var q := RecencyRank(h, u);
      p := RankAfterTouch(Recency(h), q, x);
      ElementsAppend(Since(h, u), [x]);
    }
  }

  /** The trimmed recency order holds exactly the uids inside the window. */
  lemma WindowExact(history: seq<string>, u: string, max: nat)
    ensures u in Trim(Recency(history), max) <==> InWindow(history, u, max)
  {
    var r := Recency(history);
    RecencyDistinct(history);
    assert u in r <==> u in Elements(history);
    if u in history {
      var p := RecencyRank(history, u);
      DistinctSize(r[..p]);
      assert p < max ==> Trim(r, max)[p] == u;
    }
  }

  /** Inserting keeps the list equal to the trimmed recency order of the longer history. */
  lemma TouchExtendsHistory(history: seq<string>, u: string, max: nat)
    requires max > 0
    ensures Touch(Trim(Recency(history), max), u, max) == Trim(Recency(history + [u]), max)
  {
    RecencyDistinct(history);
    TouchTrimmed(Recency(history), u, max);
    assert (history + [u])[..|history|] == history;
  }
}
