/** Routing over shards, on values: a batch split by shard does what one-by-one writes do, and
    merging consuming reads delivers an exact number of groups. */
module Routing {
  import opened Prelude
  import opened Protobuf
  import opened Trajectories
  import opened ShardModel
  import opened ShardInvariant
  import opened ShardSteps
  import opened ShardBounds
  import opened ShardHistory

  /** `shard_for`: std::hash modulo the number of shards. */
  function ShardFor(stdHash: string -> nat, shards: nat, id: string): (sid: nat)
    requires shards > 0
    ensures sid < shards && exists q: nat :: stdHash(id) == Times(q, shards) + sid
  {
    assert stdHash(id) == Times(stdHash(id) / shards, shards) + stdHash(id) % shards;
    stdHash(id) % shards
  }

  function Times(a: nat, b: nat): nat {
    a * b
  }

  // ---------- batch and serial writes ----------

  /** A write together with what the environment contributes to it. */
  datatype Item = Item(t: Trajectory, env: Env)

  function Writes(items: seq<Item>): (ts: seq<Trajectory>)
    ensures |ts| == |items|
  {
    seq(|items|, i requires 0 <= i < |items| => items[i].t)
  }

  function Envs(items: seq<Item>): (es: seq<Env>)
    ensures |es| == |items|
  {
    seq(|items|, i requires 0 <= i < |items| => items[i].env)
  }

  /** The items routed to one shard, in input order. */
  function Part(stdHash: string -> nat, shards: nat, items: seq<Item>, sid: nat): seq<Item>
    requires shards > 0
  {
    if items == [] then []
    else
      var init, last := Part(stdHash, shards, items[..|items| - 1], sid), items[|items| - 1];
      if ShardFor(stdHash, shards, last.t.instanceId) == sid then init + [last] else init
  }

  /** One write at a time, in input order, each on its own shard. */
  ghost function Serial(x: Fixed, stdHash: string -> nat, ss: seq<Shard>, items: seq<Item>): (r: (seq<Shard>, nat))
    requires |ss| > 0
    ensures |r.0| == |ss|
  {
    if items == [] then (ss, 0)
    else
      var (mid, count) := Serial(x, stdHash, ss, items[..|items| - 1]);
      var last := items[|items| - 1];
      var sid := ShardFor(stdHash, |ss|, last.t.instanceId);
      var (s', ok) := Write(x, mid[sid], last.t, last.env.now, last.env.c);
      (mid[sid := s'], count + if ok then 1 else 0)
  }

  /** What one shard makes of its part of the batch. */
  ghost function OnShard(x: Fixed, s: Shard, part: seq<Item>): (Shard, nat) {
    WriteAll(x, s, Writes(part), Envs(part))
  }

  lemma OnShardSnoc(x: Fixed, s: Shard, part: seq<Item>, item: Item)
    ensures var (mid, count) := OnShard(x, s, part);
            var (s', ok) := Write(x, mid, item.t, item.env.now, item.env.c);
            OnShard(x, s, part + [item]) == (s', count + if ok then 1 else 0)
  {
    hide Write, WriteAll;
    WriteAllSnoc(x, s, Writes(part), Envs(part), item.t, item.env);
    assert Writes(part + [item]) == Writes(part) + [item.t];
    assert Envs(part + [item]) == Envs(part) + [item.env];
  }

  /** Accepted writes summed over the first k shards. */
  ghost function Accepted(x: Fixed, stdHash: string -> nat, ss: seq<Shard>, items: seq<Item>, k: nat): nat
    requires |ss| > 0 && k <= |ss|
  {
    if k == 0 then 0
    else Accepted(x, stdHash, ss, items, k - 1) + OnShard(x, ss[k - 1], Part(stdHash, |ss|, items, k - 1)).1
  }

  lemma PartSnoc(stdHash: string -> nat, shards: nat, items: seq<Item>, item: Item, sid: nat)
    requires shards > 0
    ensures Part(stdHash, shards, items + [item], sid)
            == if ShardFor(stdHash, shards, item.t.instanceId) == sid then Part(stdHash, shards, items, sid) + [item]
               else Part(stdHash, shards, items, sid)
  {
    assert (items + [item])[..|items|] == items;
  }

  lemma OnShardOneMore(x: Fixed, stdHash: string -> nat, ss: seq<Shard>, items: seq<Item>, item: Item, i: nat)
    requires i < |ss|
    ensures var (mid, count) := OnShard(x, ss[i], Part(stdHash, |ss|, items, i));
            var (s', ok) := Write(x, mid, item.t, item.env.now, item.env.c);
            OnShard(x, ss[i], Part(stdHash, |ss|, items + [item], i))
            == if ShardFor(stdHash, |ss|, item.t.instanceId) == i then (s', count + if ok then 1 else 0)
               else (mid, count)
  {
    hide OnShard, Write, Part;
    PartSnoc(stdHash, |ss|, items, item, i);
    OnShardSnoc(x, ss[i], Part(stdHash, |ss|, items, i), item);
  }

  lemma {:induction false} AcceptedSnoc(x: Fixed, stdHash: string -> nat, ss: seq<Shard>, items: seq<Item>, item: Item, k: nat)
    requires |ss| > 0 && k <= |ss|
    ensures var sid := ShardFor(stdHash, |ss|, item.t.instanceId);
            var mid := OnShard(x, ss[sid], Part(stdHash, |ss|, items, sid)).0;
            var ok := Write(x, mid, item.t, item.env.now, item.env.c).1;
            Accepted(x, stdHash, ss, items + [item], k)
            == Accepted(x, stdHash, ss, items, k) + if sid < k && ok then 1 else 0
  {
    hide OnShard, Write, Part, ShardFor;
    if k > 0 {
      AcceptedSnoc(x, stdHash, ss, items, item, k - 1);
      OnShardOneMore(x, stdHash, ss, items, item, k - 1);
    }
  }

  /** Splitting a batch by shard leaves every shard in the state, and accepts the number of
      writes, that writing one by one in input order does. */
  lemma {:induction false} BatchIsSerial(x: Fixed, stdHash: string -> nat, ss: seq<Shard>, items: seq<Item>)
    requires |ss| > 0
    ensures var (after, count) := Serial(x, stdHash, ss, items);
            && (forall i :: 0 <= i < |ss| ==> after[i] == OnShard(x, ss[i], Part(stdHash, |ss|, items, i)).0)
            && count == Accepted(x, stdHash, ss, items, |ss|)
  {
    hide OnShard, Write, Part;
    if items == [] {
      NothingAccepted(x, stdHash, ss, |ss|);
    } else {
      var init, last := items[..|items| - 1], items[|items| - 1];
      assert items == init + [last];
      BatchIsSerial(x, stdHash, ss, init);
      AcceptedSnoc(x, stdHash, ss, init, last, |ss|);
      forall i | 0 <= i < |ss|
        ensures Serial(x, stdHash, ss, items).0[i] == OnShard(x, ss[i], Part(stdHash, |ss|, items, i)).0
      {
        OnShardOneMore(x, stdHash, ss, init, last, i);
      }
    }
  }

  lemma {:induction false} NothingAccepted(x: Fixed, stdHash: string -> nat, ss: seq<Shard>, k: nat)
    requires |ss| > 0 && k <= |ss|
    ensures Accepted(x, stdHash, ss, [], k) == 0
    ensures forall i :: 0 <= i < k ==> OnShard(x, ss[i], Part(stdHash, |ss|, [], i)) == (ss[i], 0)
  {
    if k > 0 {
      NothingAccepted(x, stdHash, ss, k - 1);
    }
  }

  /** Writes to different shards commute: any two interleavings with the same order on every
      shard end in the same states with the same count. */
  lemma AnyInterleaving(x: Fixed, stdHash: string -> nat, ss: seq<Shard>, a: seq<Item>, b: seq<Item>)
    requires |ss| > 0
    requires forall i :: 0 <= i < |ss| ==> Part(stdHash, |ss|, a, i) == Part(stdHash, |ss|, b, i)
    ensures Serial(x, stdHash, ss, a) == Serial(x, stdHash, ss, b)
  {
    hide Part, OnShard;
    BatchIsSerial(x, stdHash, ss, a);
    BatchIsSerial(x, stdHash, ss, b);
    SameAccepted(x, stdHash, ss, a, b, |ss|);
    assert Serial(x, stdHash, ss, a).0 == Serial(x, stdHash, ss, b).0;
  }

  lemma {:induction false} SameAccepted(x: Fixed, stdHash: string -> nat, ss: seq<Shard>, a: seq<Item>, b: seq<Item>, k: nat)
    requires |ss| > 0 && k <= |ss|
    requires forall i :: 0 <= i < |ss| ==> Part(stdHash, |ss|, a, i) == Part(stdHash, |ss|, b, i)
    ensures Accepted(x, stdHash, ss, a, k) == Accepted(x, stdHash, ss, b, k)
  {
    if k > 0 {
      SameAccepted(x, stdHash, ss, a, b, k - 1);
    }
  }

  // ---------- what the manager hands to each shard ----------

  /** The trajectories of a batch routed to one shard, in input order. */
  function Share(stdHash: string -> nat, shards: nat, ts: seq<Trajectory>, sid: nat): seq<Trajectory>
    requires shards > 0
  {
    if ts == [] then []
    else
      var init, last := Share(stdHash, shards, ts[..|ts| - 1], sid), ts[|ts| - 1];
      if ShardFor(stdHash, shards, last.instanceId) == sid then init + [last] else init
  }

  lemma ShareSnoc(stdHash: string -> nat, shards: nat, ts: seq<Trajectory>, t: Trajectory, sid: nat)
    requires shards > 0
    ensures Share(stdHash, shards, ts + [t], sid)
            == if ShardFor(stdHash, shards, t.instanceId) == sid then Share(stdHash, shards, ts, sid) + [t]
               else Share(stdHash, shards, ts, sid)
  {
    assert (ts + [t])[..|ts|] == ts;
  }

  lemma {:induction false} ShareRoutes(stdHash: string -> nat, shards: nat, ts: seq<Trajectory>, sid: nat)
    requires shards > 0
    ensures forall t :: t in Share(stdHash, shards, ts, sid) ==> ShardFor(stdHash, shards, t.instanceId) == sid
  {
    if ts != [] {
      ShareRoutes(stdHash, shards, ts[..|ts| - 1], sid);
    }
  }

  ghost predicate EnoughEnvs(stdHash: string -> nat, ts: seq<Trajectory>, envs: seq<seq<Env>>) {
    |envs| > 0 && forall i :: 0 <= i < |envs| ==> |envs[i]| >= |Share(stdHash, |envs|, ts, i)|
  }

  /** The batch in input order, each write with the environment its shard saw for it. */
  ghost function Weave(stdHash: string -> nat, ts: seq<Trajectory>, envs: seq<seq<Env>>): seq<Item>
    requires EnoughEnvs(stdHash, ts, envs)
  {
    if ts == [] then []
    else
      var init, last := ts[..|ts| - 1], ts[|ts| - 1];
      var sid := ShardFor(stdHash, |envs|, last.instanceId);
      Weave(stdHash, init, envs) + [Item(last, envs[sid][|Share(stdHash, |envs|, init, sid)|])]
  }

  ghost predicate WeavesInto(stdHash: string -> nat, ts: seq<Trajectory>, envs: seq<seq<Env>>, items: seq<Item>, sid: nat)
    requires EnoughEnvs(stdHash, ts, envs) && sid < |envs|
  {
    var share, part := Share(stdHash, |envs|, ts, sid), Part(stdHash, |envs|, items, sid);
    Writes(items) == ts && Writes(part) == share && Envs(part) == envs[sid][..|share|]
  }

  lemma {:induction false} WeaveParts(stdHash: string -> nat, ts: seq<Trajectory>, envs: seq<seq<Env>>, sid: nat)
    requires EnoughEnvs(stdHash, ts, envs) && sid < |envs|
    ensures WeavesInto(stdHash, ts, envs, Weave(stdHash, ts, envs), sid)
  {
    if ts != [] {
      hide WeavesInto, ShardFor;
      var init, last := ts[..|ts| - 1], ts[|ts| - 1];
      WeaveParts(stdHash, init, envs, sid);
      WeaveOneMore(stdHash, init, last, envs, Weave(stdHash, init, envs), sid);
      assert ts == init + [last];
    }
  }

  lemma WeaveOneMore(stdHash: string -> nat, ts: seq<Trajectory>, t: Trajectory, envs: seq<seq<Env>>, items: seq<Item>, sid: nat)
    requires EnoughEnvs(stdHash, ts + [t], envs) && EnoughEnvs(stdHash, ts, envs) && sid < |envs|
    requires WeavesInto(stdHash, ts, envs, items, sid)
    ensures var to := ShardFor(stdHash, |envs|, t.instanceId);
            var share := Share(stdHash, |envs|, ts, to);
            && |share| < |envs[to]|
            && WeavesInto(stdHash, ts + [t], envs, items + [Item(t, envs[to][|share|])], sid)
  {
    hide ShardFor, Share, Part;
    var to := ShardFor(stdHash, |envs|, t.instanceId);
    ShareSnoc(stdHash, |envs|, ts, t, to);
    ShareSnoc(stdHash, |envs|, ts, t, sid);
    var share := Share(stdHash, |envs|, ts, to);
    assert |Share(stdHash, |envs|, ts + [t], to)| <= |envs[to]|;
    var item := Item(t, envs[to][|share|]);
    PartSnoc(stdHash, |envs|, items, item, sid);
    AppendItem(items, item);
    AppendItem(Part(stdHash, |envs|, items, sid), item);
    assert envs[to][..|share| + 1] == envs[to][..|share|] + [envs[to][|share|]];
  }

  lemma AppendItem(items: seq<Item>, item: Item)
    ensures Writes(items + [item]) == Writes(items) + [item.t]
    ensures Envs(items + [item]) == Envs(items) + [item.env]
  {
  }

  lemma {:induction false} WeaveEnvs(stdHash: string -> nat, ts: seq<Trajectory>, envs: seq<seq<Env>>)
    requires EnoughEnvs(stdHash, ts, envs)
    ensures forall item :: item in Weave(stdHash, ts, envs) ==> exists i :: 0 <= i < |envs| && item.env in envs[i]
  {
    if ts != [] {
      WeaveEnvs(stdHash, ts[..|ts| - 1], envs);
    }
  }

  function Total(counts: seq<nat>): nat {
    if counts == [] then 0 else Total(counts[..|counts| - 1]) + counts[|counts| - 1]
  }

  lemma TotalSnoc(counts: seq<nat>, n: nat)
    ensures Total(counts + [n]) == Total(counts) + n
  {
    assert (counts + [n])[..|counts|] == counts;
  }

  lemma {:induction false} TotalUpdate(counts: seq<nat>, i: nat, n: nat)
    requires i < |counts|
    ensures Total(counts[i := n]) == Total(counts) - counts[i] + n
    ensures counts[i] <= Total(counts)
  {
    var last := |counts| - 1;
    if i < last {
      TotalUpdate(counts[..last], i, n);
      assert counts[i := n][..last] == counts[..last][i := n];
    } else {
      assert counts[i := n][..last] == counts[..last];
    }
  }

  lemma {:induction false} AcceptedIsTotal(x: Fixed, stdHash: string -> nat, ss: seq<Shard>, items: seq<Item>,
                                           counts: seq<nat>, k: nat)
    requires |counts| == |ss| > 0 && k <= |ss|
    requires forall i :: 0 <= i < |ss| ==> counts[i] == OnShard(x, ss[i], Part(stdHash, |ss|, items, i)).1
    ensures Accepted(x, stdHash, ss, items, k) == Total(counts[..k])
  {
    hide OnShard, Part;
    if k > 0 {
      AcceptedIsTotal(x, stdHash, ss, items, counts, k - 1);
      assert counts[..k] == counts[..k - 1] + [counts[k - 1]];
      TotalSnoc(counts[..k - 1], counts[k - 1]);
    }
  }

  /** Every shard has taken its share of the batch, as one run of writes. */
  ghost predicate SharesDone(x: Fixed, stdHash: string -> nat, ss: seq<Shard>, ts: seq<Trajectory>,
                             envs: seq<seq<Env>>, after: seq<Shard>, counts: seq<nat>) {
    && |envs| == |after| == |counts| == |ss| > 0
    && forall i :: 0 <= i < |ss| ==> BatchDone(x, ss[i], Share(stdHash, |ss|, ts, i), envs[i], after[i], counts[i])
  }

  /** Every write of the batch met a full traversal and unused file names. */
  ghost predicate ItemsServed(x: Fixed, stdHash: string -> nat, ss: seq<Shard>, items: seq<Item>)
    requires |ss| > 0
  {
    forall i :: 0 <= i < |ss| ==>
      var part := Part(stdHash, |ss|, items, i);
      AllServed(x, ss[i], Writes(part), Envs(part))
  }

  /** The shares taken shard by shard amount to the whole batch written one by one in input order. */
  lemma SharesAreSerial(x: Fixed, stdHash: string -> nat, ss: seq<Shard>, ts: seq<Trajectory>,
                        envs: seq<seq<Env>>, after: seq<Shard>, counts: seq<nat>)
    requires SharesDone(x, stdHash, ss, ts, envs, after, counts)
    ensures EnoughEnvs(stdHash, ts, envs)
    ensures var items := Weave(stdHash, ts, envs);
            && Writes(items) == ts && ItemsServed(x, stdHash, ss, items)
            && Serial(x, stdHash, ss, items) == (after, Total(counts))
  {
    hide Part, Share, WriteAll, AllServed, Serial, Weave;
    var items := Weave(stdHash, ts, envs);
    hide ShardFor;
    WeaveParts(stdHash, ts, envs, 0);
    forall i | 0 <= i < |ss|
      ensures var part := Part(stdHash, |ss|, items, i);
              OnShard(x, ss[i], part) == (after[i], counts[i]) && AllServed(x, ss[i], Writes(part), Envs(part))
    {
      WeaveParts(stdHash, ts, envs, i);
      assert envs[i][..|envs[i]|] == envs[i];
    }
    BatchIsSerial(x, stdHash, ss, items);
    AcceptedIsTotal(x, stdHash, ss, items, counts, |ss|);
    assert counts[..|ss|] == counts;
    assert Serial(x, stdHash, ss, items).0 == after;
  }

  /** The batch keyed by shard; shards without a share have no key. */
  ghost predicate IsPartition(stdHash: string -> nat, shards: nat, ts: seq<Trajectory>, byShard: map<nat, seq<Trajectory>>)
    requires shards > 0
  {
    && (forall sid :: sid in byShard ==> sid < shards && byShard[sid] == Share(stdHash, shards, ts, sid) != [])
    && (forall sid :: 0 <= sid < shards && sid !in byShard ==> Share(stdHash, shards, ts, sid) == [])
  }

  lemma PartitionSnoc(stdHash: string -> nat, shards: nat, ts: seq<Trajectory>, t: Trajectory, byShard: map<nat, seq<Trajectory>>)
    requires shards > 0 && IsPartition(stdHash, shards, ts, byShard)
    ensures var sid := ShardFor(stdHash, shards, t.instanceId);
            IsPartition(stdHash, shards, ts + [t],
                        byShard[sid := (if sid in byShard then byShard[sid] else []) + [t]])
  {
    hide ShardFor, Share;
    forall i | 0 <= i < shards
      ensures Share(stdHash, shards, ts + [t], i)
              == if ShardFor(stdHash, shards, t.instanceId) == i then Share(stdHash, shards, ts, i) + [t]
                 else Share(stdHash, shards, ts, i)
    {
      ShareSnoc(stdHash, shards, ts, t, i);
    }
  }

  /** The shards in `done` have taken their share; the others are as before. */
  ghost predicate Submitted(x: Fixed, stdHash: string -> nat, ss: seq<Shard>, ts: seq<Trajectory>, done: seq<nat>,
                            envs: seq<seq<Env>>, after: seq<Shard>, counts: seq<nat>) {
    && |envs| == |after| == |counts| == |ss| > 0
    && forall i :: 0 <= i < |ss| ==>
         if i in done then BatchDone(x, ss[i], Share(stdHash, |ss|, ts, i), envs[i], after[i], counts[i])
         else envs[i] == [] && after[i] == ss[i] && counts[i] == 0
  }

  lemma NoneSubmitted(x: Fixed, stdHash: string -> nat, ss: seq<Shard>, ts: seq<Trajectory>)
    requires |ss| > 0
    ensures Submitted(x, stdHash, ss, ts, [], seq(|ss|, _ => []), ss, seq(|ss|, _ => 0))
    ensures Total(seq(|ss|, _ => 0)) == 0
  {
    ZeroTotal(|ss|);
  }

  lemma {:induction false} ZeroTotal(n: nat)
    ensures Total(seq(n, _ => 0)) == 0
  {
    if n > 0 {
      ZeroTotal(n - 1);
      assert seq(n, _ => 0)[..n - 1] == seq(n - 1, _ => 0);
    }
  }

  lemma SubmittedMore(x: Fixed, stdHash: string -> nat, ss: seq<Shard>, ts: seq<Trajectory>, done: seq<nat>,
                      envs: seq<seq<Env>>, after: seq<Shard>, counts: seq<nat>, sid: nat, es: seq<Env>, s': Shard, n: nat)
    requires Submitted(x, stdHash, ss, ts, done, envs, after, counts) && sid < |ss| && sid !in done
    requires BatchDone(x, ss[sid], Share(stdHash, |ss|, ts, sid), es, s', n)
    ensures Submitted(x, stdHash, ss, ts, done + [sid], envs[sid := es], after[sid := s'], counts[sid := n])
    ensures Total(counts[sid := n]) == Total(counts) + n
  {
    hide BatchDone, Share, Total;
    TotalUpdate(counts, sid, n);
    assert forall i :: i in done + [sid] <==> i in done || i == sid;
  }

  lemma AllSubmitted(x: Fixed, stdHash: string -> nat, ss: seq<Shard>, ts: seq<Trajectory>, byShard: map<nat, seq<Trajectory>>,
                     done: seq<nat>, envs: seq<seq<Env>>, after: seq<Shard>, counts: seq<nat>)
    requires Submitted(x, stdHash, ss, ts, done, envs, after, counts)
    requires IsPartition(stdHash, |ss|, ts, byShard) && IsOrder(done, byShard.Keys)
    ensures SharesDone(x, stdHash, ss, ts, envs, after, counts)
  {
    hide Share;
    forall i | 0 <= i < |ss| && i !in done
      ensures BatchDone(x, ss[i], Share(stdHash, |ss|, ts, i), envs[i], after[i], counts[i])
    {
      assert i !in Elements(done);
      NothingDone(x, ss[i]);
    }
    hide BatchDone;
  }

  lemma NothingDone(x: Fixed, s: Shard)
    ensures BatchDone(x, s, [], [], s, 0)
  {
  }

  /** Every shard drops no id and gains only ids of its own share. */
  lemma RoutedBatch(x: Fixed, stdHash: string -> nat, ss: seq<Shard>, ts: seq<Trajectory>,
                    envs: seq<seq<Env>>, after: seq<Shard>, counts: seq<nat>)
    requires Routed(stdHash, ss) && SharesDone(x, stdHash, ss, ts, envs, after, counts)
    ensures Routed(stdHash, after)
  {
    hide Share, ShardFor, WriteAll, AllServed;
    forall i, id | 0 <= i < |ss| && id in after[i].groups
      ensures ShardFor(stdHash, |ss|, id) == i
    {
      ShareRoutes(stdHash, |ss|, ts, i);
      assert BatchDone(x, ss[i], Share(stdHash, |ss|, ts, i), envs[i], after[i], counts[i]);
    }
  }

  // ---------- which shard holds an id ----------

  /** Every id is held only by the shard it routes to. */
  ghost predicate Routed(stdHash: string -> nat, ss: seq<Shard>) {
    |ss| > 0 && forall i, id :: 0 <= i < |ss| && id in ss[i].groups ==> ShardFor(stdHash, |ss|, id) == i
  }

  /** What the manager lets happen on shard i: writes and deletes only of ids that route there. */
  ghost predicate RoutedOp(stdHash: string -> nat, shards: nat, i: nat, op: Op)
    requires shards > 0
  {
    match op
    case DoWrite(t, _, _) => ShardFor(stdHash, shards, t.instanceId) == i
    case DoDelete(id) => ShardFor(stdHash, shards, id) == i
    case _ => true
  }

  /** Every step of a shard keeps its ids, drops some, or adds the id just written. */
  lemma StepIds(x: Fixed, s: Shard, op: Op, id: string)
    requires id in Step(x, s, op).0.groups
    ensures id in s.groups || (op.DoWrite? && op.t.instanceId == id)
  {
    hide Write, TrySpill, SpillGroups, RemoveAll, Pick, ShardModel.Delivered;
    match op
    case DoWrite(t, now, c) => KeysAfterWrite(x, s, t, now, c);
    case DoRead(max, order) => RemoveAllGroups(s, Pick(s.groups, order, max, 0));
    case DoSpill(c) => TrySpillKeys(x, s, c);
    case DoSpillOf(ids, names) =>
      if |ids| == |names| {
        SpillGroupsKeys(x.pb, s, ids, names);
      }
    case _ =>
  }

  /** A step on any shard keeps every id on its own shard. */
  lemma RoutedStep(x: Fixed, stdHash: string -> nat, ss: seq<Shard>, i: nat, op: Op)
    requires Routed(stdHash, ss) && i < |ss| && RoutedOp(stdHash, |ss|, i, op)
    ensures Routed(stdHash, ss[i := Step(x, ss[i], op).0])
  {
    hide Step;
    var ss' := ss[i := Step(x, ss[i], op).0];
    forall j, id | 0 <= j < |ss| && id in ss'[j].groups
      ensures ShardFor(stdHash, |ss|, id) == j
    {
      if j == i {
        StepIds(x, ss[i], op, id);
      }
    }
  }

  /** One shard may drop ids and gain ids that route to it. */
  lemma RoutedUpdate(stdHash: string -> nat, ss: seq<Shard>, sid: nat, s': Shard)
    requires Routed(stdHash, ss) && sid < |ss|
    requires forall id :: id in s'.groups ==> id in ss[sid].groups || ShardFor(stdHash, |ss|, id) == sid
    ensures Routed(stdHash, ss[sid := s'])
  {
    var ss' := ss[sid := s'];
    forall j, id | 0 <= j < |ss| && id in ss'[j].groups
      ensures ShardFor(stdHash, |ss|, id) == j
    {
    }
  }

  /** One routed write, as the last of a serial run. */
  lemma SerialOne(x: Fixed, stdHash: string -> nat, ss: seq<Shard>, t: Trajectory, env: Env)
    requires |ss| > 0
    ensures var sid := ShardFor(stdHash, |ss|, t.instanceId);
            var (s', ok) := Write(x, ss[sid], t, env.now, env.c);
            Serial(x, stdHash, ss, [Item(t, env)]) == (ss[sid := s'], if ok then 1 else 0)
  {
    hide Write, ShardFor;
    var items := [Item(t, env)];
    assert items[..0] == [];
    assert Serial(x, stdHash, ss, items[..0]) == (ss, 0);
  }

  ghost function LiveIds(ss: seq<Shard>, k: nat): set<string>
    requires k <= |ss|
  {
    if k == 0 then {} else LiveIds(ss, k - 1) + ss[k - 1].groups.Keys
  }

  /** pending + incomplete, summed as `get_status` does. */
  function GroupCount(ss: seq<Shard>, k: nat): nat
    requires k <= |ss|
  {
    if k == 0 then 0 else GroupCount(ss, k - 1) + |ss[k - 1].groups|
  }

  lemma {:induction false} LiveIdsBelow(stdHash: string -> nat, ss: seq<Shard>, k: nat, id: string)
    requires Routed(stdHash, ss) && k <= |ss| && id in LiveIds(ss, k)
    ensures ShardFor(stdHash, |ss|, id) < k
  {
    if id !in ss[k - 1].groups {
      LiveIdsBelow(stdHash, ss, k - 1, id);
    }
  }

  lemma NotYetLive(stdHash: string -> nat, ss: seq<Shard>, k: nat)
    requires Routed(stdHash, ss) && k < |ss|
    ensures |LiveIds(ss, k) + ss[k].groups.Keys| == |LiveIds(ss, k)| + |ss[k].groups|
  {
    forall id | id in LiveIds(ss, k)
      ensures id !in ss[k].groups.Keys
    {
      LiveIdsBelow(stdHash, ss, k, id);
    }
    JoinedSize(LiveIds(ss, k), ss[k].groups);
  }

  /** The aggregated group count is the number of distinct live ids over all shards. */
  lemma {:induction false} GroupCountIsLiveIds(stdHash: string -> nat, ss: seq<Shard>, k: nat)
    requires Routed(stdHash, ss) && k <= |ss|
    ensures GroupCount(ss, k) == |LiveIds(ss, k)|
  {
    hide Routed, GroupCount, LiveIds;
    CountedSoFar(ss, k);
    if k > 0 {
      GroupCountIsLiveIds(stdHash, ss, k - 1);
      NotYetLive(stdHash, ss, k - 1);
    }
  }

  lemma CountedSoFar(ss: seq<Shard>, k: nat)
    requires k <= |ss|
    ensures k == 0 ==> GroupCount(ss, k) == |LiveIds(ss, k)|
    ensures k > 0 ==> GroupCount(ss, k) == GroupCount(ss, k - 1) + |ss[k - 1].groups|
    ensures k > 0 ==> LiveIds(ss, k) == LiveIds(ss, k - 1) + ss[k - 1].groups.Keys
  {
  }

  lemma JoinedSize(ids: set<string>, groups: Groups)
    requires ids !! groups.Keys
    ensures |ids + groups.Keys| == |ids| + |groups|
  {
    assert |groups.Keys| == |groups|;
  }

  // ---------- numbers, shard by shard ----------

  function TotalsOf(ss: seq<Shard>): (xs: seq<int>)
    ensures |xs| == |ss|
  {
    seq(|ss|, i requires 0 <= i < |ss| => ss[i].total)
  }

  function ConsumedOf(ss: seq<Shard>): (xs: seq<int>)
    ensures |xs| == |ss|
  {
    seq(|ss|, i requires 0 <= i < |ss| => ss[i].consumed)
  }

  ghost function MemoryOf(x: Fixed, ss: seq<Shard>): (xs: seq<int>)
    ensures |xs| == |ss|
  {
    seq(|ss|, i requires 0 <= i < |ss| => MemoryUsage(x, ss[i]))
  }

  ghost function DiskOf(ss: seq<Shard>): (xs: seq<int>)
    ensures |xs| == |ss|
  {
    seq(|ss|, i requires 0 <= i < |ss| => OnDiskBytes(ss[i].groups))
  }

  // ---------- merged reads ----------

  ghost function Ready(ss: seq<Shard>, k: nat): nat
    requires k <= |ss|
  {
    if k == 0 then 0 else Ready(ss, k - 1) + |ReadyIds(ss[k - 1].groups)|
  }

  /** Groups taken out of the first k shards by a read with a per-shard limit. */
  ghost function TakenOut(ss: seq<Shard>, max: int, k: nat): nat
    requires k <= |ss|
  {
    if k == 0 then 0 else TakenOut(ss, max, k - 1) + Limit(max, |ReadyIds(ss[k - 1].groups)|)
  }

  /** The per-shard results one after the other. */
  function Merged(results: seq<seq<Group>>, k: nat): seq<Group>
    requires k <= |results|
  {
    if k == 0 then [] else Merged(results, k - 1) + results[k - 1]
  }

  function Truncated(merged: seq<Group>, max: int): seq<Group> {
    if 0 < max < |merged| then merged[..max] else merged
  }

  lemma {:induction false} MergedSize(x: Fixed, ss: seq<Shard>, max: int, orders: seq<seq<string>>,
                                      results: seq<seq<Group>>, k: nat)
    requires |orders| == |results| == |ss| && k <= |ss|
    requires forall i :: 0 <= i < |ss| ==>
      Inv(x.pb, ss[i]) && IsOrder(orders[i], ss[i].groups.Keys) && results[i] == Read(x, ss[i], max, orders[i]).1
    ensures |Merged(results, k)| == TakenOut(ss, max, k)
  {
    hide Inv, Read, IsOrder, ReadyIds;
    if k > 0 {
      MergedSize(x, ss, max, orders, results, k - 1);
      ReadCount(x, ss[k - 1], max, orders[k - 1]);
    }
  }

  lemma {:induction false} TakenOutBounds(ss: seq<Shard>, max: int, k: nat)
    requires k <= |ss|
    ensures TakenOut(ss, max, k) <= Ready(ss, k)
    ensures max <= 0 ==> TakenOut(ss, max, k) == Ready(ss, k)
    ensures max > 0 ==> TakenOut(ss, max, k) <= k * max && (TakenOut(ss, max, k) >= max || TakenOut(ss, max, k) == Ready(ss, k))
  {
    if k > 0 {
      TakenOutBounds(ss, max, k - 1);
      assert k * max == (k - 1) * max + max;
    }
  }

  /** A merged read delivers exactly min(max, ready over all shards); what the shards gave up
      beyond that is lost, and is at most (shards - 1) * max groups. */
  lemma MergedReadIsExact(x: Fixed, ss: seq<Shard>, max: int, orders: seq<seq<string>>, results: seq<seq<Group>>)
    requires |ss| > 0 && |orders| == |results| == |ss|
    requires forall i :: 0 <= i < |ss| ==>
      Inv(x.pb, ss[i]) && IsOrder(orders[i], ss[i].groups.Keys) && results[i] == Read(x, ss[i], max, orders[i]).1
    ensures var delivered := Truncated(Merged(results, |ss|), max);
            var lost := TakenOut(ss, max, |ss|) - |delivered|;
            && |delivered| == (if 0 < max < Ready(ss, |ss|) then max else Ready(ss, |ss|))
            && 0 <= lost && (max <= 0 ==> lost == 0) && (max > 0 ==> lost <= (|ss| - 1) * max)
  {
    MergedSize(x, ss, max, orders, results, |ss|);
    hide Inv, Read, IsOrder, Merged, TakenOut, Ready;
    TakenOutBounds(ss, max, |ss|);
    OneLess(|ss|, max);
  }

  /** Among the first k shards only one, at most, has complete groups. */
  ghost predicate OneReadyShard(ss: seq<Shard>, k: nat)
    requires k <= |ss|
  {
    exists i :: 0 <= i < |ss| && NoneReadyBut(ss, k, i)
  }

  ghost predicate NoneReadyBut(ss: seq<Shard>, k: nat, i: nat)
    requires k <= |ss|
  {
    forall j :: 0 <= j < k && j != i ==> ReadyIds(ss[j].groups) == {}
  }

  lemma {:induction false} NothingReady(ss: seq<Shard>, k: nat, i: nat)
    requires k <= |ss| && Ready(ss, k) == 0
    ensures NoneReadyBut(ss, k, i)
  {
    hide ReadyIds;
    if k > 0 {
      NothingReady(ss, k - 1, i);
    }
  }

  lemma {:induction false} WithinLimit(ss: seq<Shard>, max: int, k: nat)
    requires |ss| > 0 && k <= |ss| && max > 0 && TakenOut(ss, max, k) <= max
    ensures Ready(ss, k) <= max || OneReadyShard(ss, k)
  {
    hide ReadyIds;
    if k > 0 {
      TakenOutBounds(ss, max, k - 1);
      if ReadyIds(ss[k - 1].groups) == {} {
        WithinLimit(ss, max, k - 1);
        if OneReadyShard(ss, k - 1) {
          var i :| 0 <= i < |ss| && NoneReadyBut(ss, k - 1, i);
          assert NoneReadyBut(ss, k, i);
        }
      } else if Ready(ss, k - 1) == 0 {
        NothingReady(ss, k - 1, k - 1);
        assert NoneReadyBut(ss, k, k - 1);
      }
    }
  }

  lemma {:induction false} OneShardWithinLimit(ss: seq<Shard>, max: int, k: nat, i: nat)
    requires k <= |ss| && i < |ss| && max > 0 && NoneReadyBut(ss, k, i)
    ensures TakenOut(ss, max, k) <= if i < k then max else 0
  {
    hide ReadyIds;
    if k > 0 {
      OneShardWithinLimit(ss, max, k - 1, i);
    }
  }

  /** A merged read loses nothing exactly when it is unlimited, or no more groups are ready than it
      asks for, or at most one shard has any. */
  lemma NothingLostExactly(ss: seq<Shard>, max: int)
    requires |ss| > 0
    ensures TakenOut(ss, max, |ss|) == Limit(max, Ready(ss, |ss|))
            <==> max <= 0 || Ready(ss, |ss|) <= max || OneReadyShard(ss, |ss|)
  {
    TakenOutBounds(ss, max, |ss|);
    hide TakenOut, Ready, NoneReadyBut, ReadyIds;
    if max > 0 {
      if TakenOut(ss, max, |ss|) <= max {
        WithinLimit(ss, max, |ss|);
      }
      if OneReadyShard(ss, |ss|) {
        var i :| 0 <= i < |ss| && NoneReadyBut(ss, |ss|, i);
        OneShardWithinLimit(ss, max, |ss|, i);
      }
    }
  }

  lemma SingleSum(id: string, v: int)
    ensures Sum(map[id := v]) == v
  {
    SumRemove(map[id := v], id);
    assert map[id := v] - {id} == map[];
  }

  function Alone(t: Trajectory): Group {
    Group(t.instanceId, [t], 1, true)
  }

  /** A shard that holds nothing but the complete group of one write. */
  function HoldingOne(cfg: Config, t: Trajectory, now: nat): Shard {
    Fresh(cfg).(groups := map[t.instanceId := Entry(Some(Alone(t)), 0, now, 0, 0)], total := 1)
  }

  /** With group size 1, one write to a fresh shard makes one complete group. */
  lemma FirstWrite(x: Fixed, cfg: Config, t: Trajectory, env: Env)
    requires cfg.groupSize == 1 && !cfg.uidDedup && x.pb.byteSize(Alone(t)) <= cfg.spillMark
    ensures Write(x, Fresh(cfg), t, env.now, env.c).0 == HoldingOne(cfg, t, env.now)
  {
    var g := Alone(t);
    var s := Store(Fresh(cfg), t, env.now);
    assert [] + [t] == [t];
    assert s.groups == map[t.instanceId := Entry(Some(g), 0, env.now, 0, 0)];
    SingleSum(t.instanceId, x.pb.byteSize(g));
    assert (map id | id in s.groups :: s.groups[id].MemoryBytes(x.pb)) == map[t.instanceId := x.pb.byteSize(g)];
    hide Sum;
    assert Selected(x, s, env.c.order) == [];
    assert s.(files := s.files) == s;
  }

  lemma ReadOnlyGroup(x: Fixed, s: Shard, g: Group, now: nat)
    requires g.complete && s.groups == map[g.instanceId := Entry(Some(g), 0, now, 0, 0)]
    ensures IsOrder([g.instanceId], s.groups.Keys)
    ensures Read(x, s, 1, [g.instanceId]).0.groups == map[] && Read(x, s, 1, [g.instanceId]).1 == [g]
  {
    var id := g.instanceId;
    assert [id][1..] == [] && [id][..0] == [];
    assert Pick(s.groups, [id], 1, 0) == [id];
    assert FromMemory(s.groups, [id]) == FromMemory(s.groups, []) + [g] == [g];
    assert OffsetsOf(s.groups, [id]) == [];
    assert RemoveAll(s, [id]) == Remove(RemoveAll(s, []), id);
    assert s.groups - {id} == map[];
  }

  function TwoWay(id: string): nat {
    if id == "a" then 0 else 1
  }

  lemma TwoWrites(x: Fixed, cfg: Config, ta: Trajectory, tb: Trajectory, env: Env)
    requires cfg.groupSize == 1 && !cfg.uidDedup && ta.instanceId == "a" && tb.instanceId == "b"
    requires x.pb.byteSize(Alone(ta)) <= cfg.spillMark && x.pb.byteSize(Alone(tb)) <= cfg.spillMark
    ensures Serial(x, TwoWay, [Fresh(cfg), Fresh(cfg)], [Item(ta, env), Item(tb, env)]).0
            == [HoldingOne(cfg, ta, env.now), HoldingOne(cfg, tb, env.now)]
  {
    hide Write, HoldingOne, Fresh;
    var items := [Item(ta, env), Item(tb, env)];
    FirstWrite(x, cfg, ta, env);
    FirstWrite(x, cfg, tb, env);
    assert items[..1] == [Item(ta, env)];
    SerialOne(x, TwoWay, [Fresh(cfg), Fresh(cfg)], ta, env);
  }

  /** A read of one group empties both shards and delivers the first group; the second is gone. */
  ghost predicate LosesSecond(x: Fixed, ss: seq<Shard>, ga: Group, gb: Group) {
    && |ss| == 2 && IsOrder([ga.instanceId], ss[0].groups.Keys) && IsOrder([gb.instanceId], ss[1].groups.Keys)
    && var (a, fromA) := Read(x, ss[0], 1, [ga.instanceId]);
       var (b, fromB) := Read(x, ss[1], 1, [gb.instanceId]);
       && a.groups == b.groups == map[]
       && fromA == [ga] && fromB == [gb] && Truncated(Merged([fromA, fromB], 2), 1) == [ga]
  }

  /** Two shards, group size 1, one write routed to each: a read of one group loses the other. */
  lemma LossExample(x: Fixed, env: Env)
    ensures var ta, tb := Trajectory("u", "a", []), Trajectory("v", "b", []);
            var mark := x.pb.byteSize(Alone(ta)) + x.pb.byteSize(Alone(tb));
            var cfg := Config(1, 60, false, mark, mark);
            var ss := Serial(x, TwoWay, [Fresh(cfg), Fresh(cfg)], [Item(ta, env), Item(tb, env)]).0;
            LosesSecond(x, ss, Alone(ta), Alone(tb))
  {
    hide Write, Read, Serial, TwoWay, Merged, Truncated, IsOrder, LosesSecond;
    var ta, tb := Trajectory("u", "a", []), Trajectory("v", "b", []);
    var mark := x.pb.byteSize(Alone(ta)) + x.pb.byteSize(Alone(tb));
    var cfg := Config(1, 60, false, mark, mark);
    TwoWrites(x, cfg, ta, tb, env);
    LosesOne(x, HoldingOne(cfg, ta, env.now), HoldingOne(cfg, tb, env.now), Alone(ta), Alone(tb), env.now);
  }

  lemma LosesOne(x: Fixed, a: Shard, b: Shard, ga: Group, gb: Group, now: nat)
    requires ga.complete && a.groups == map[ga.instanceId := Entry(Some(ga), 0, now, 0, 0)]
    requires gb.complete && b.groups == map[gb.instanceId := Entry(Some(gb), 0, now, 0, 0)]
    ensures LosesSecond(x, [a, b], ga, gb)
  {
    hide Read, Merged, Truncated, IsOrder;
    ReadOnlyGroup(x, a, ga, now);
    ReadOnlyGroup(x, b, gb, now);
    TwoMerged([ga], [gb]);
  }

  lemma TwoMerged(a: seq<Group>, b: seq<Group>)
    requires |a| == 1 && |b| == 1
    ensures Truncated(Merged([a, b], 2), 1) == a
  {
    assert Merged([a, b], 1) == Merged([a, b], 0) + a == a;
    assert Merged([a, b], 2) == a + b;
  }

  /** The first k shards have been read; the others are as before. */
  ghost predicate ReadSoFar(x: Fixed, ss: seq<Shard>, max: int, k: nat, orders: seq<seq<string>>,
                            results: seq<seq<Group>>, after: seq<Shard>) {
    && |orders| == |results| == k <= |ss| == |after|
    && forall i :: 0 <= i < |ss| ==>
         if i < k then
           Inv(x.pb, ss[i]) && IsOrder(orders[i], ss[i].groups.Keys) && (after[i], results[i]) == Read(x, ss[i], max, orders[i])
         else after[i] == ss[i]
  }

  lemma NothingRead(x: Fixed, ss: seq<Shard>, max: int)
    ensures ReadSoFar(x, ss, max, 0, [], [], ss)
  {
  }

  lemma ReadOneShard(x: Fixed, ss: seq<Shard>, max: int, orders: seq<seq<string>>,
                     results: seq<seq<Group>>, after: seq<Shard>, order: seq<string>)
    requires ReadSoFar(x, ss, max, |orders|, orders, results, after) && |orders| < |ss|
    requires Inv(x.pb, after[|orders|]) && IsOrder(order, after[|orders|].groups.Keys)
    ensures var k := |orders|;
            var (s', gs) := Read(x, after[k], max, order);
            ReadSoFar(x, ss, max, k + 1, orders + [order], results + [gs], after[k := s'])
  {
    hide Inv, IsOrder, Read;
  }

  /** Consuming reads add no id to any shard. */
  lemma RoutedReads(x: Fixed, stdHash: string -> nat, ss: seq<Shard>, max: int, orders: seq<seq<string>>,
                    results: seq<seq<Group>>, after: seq<Shard>)
    requires Routed(stdHash, ss) && ReadSoFar(x, ss, max, |ss|, orders, results, after)
    ensures Routed(stdHash, after)
  {
    hide ShardFor;
    forall i, id | 0 <= i < |after| && id in after[i].groups
      ensures ShardFor(stdHash, |after|, id) == i
    {
      StepIds(x, ss[i], DoRead(max, orders[i]), id);
    }
  }

  /** All shards read, the results merged and cut: the delivery is exact. */
  lemma MergedIsExact(x: Fixed, ss: seq<Shard>, max: int, orders: seq<seq<string>>,
                      results: seq<seq<Group>>, after: seq<Shard>)
    requires |ss| > 0 && ReadSoFar(x, ss, max, |ss|, orders, results, after)
    ensures |Truncated(Merged(results, |ss|), max)| == Limit(max, Ready(ss, |ss|))
  {
    hide Inv, IsOrder, Read, Ready;
    forall i | 0 <= i < |ss|
      ensures Inv(x.pb, ss[i]) && IsOrder(orders[i], ss[i].groups.Keys) && results[i] == Read(x, ss[i], max, orders[i]).1
    {
      assert (after[i], results[i]) == Read(x, ss[i], max, orders[i]);
    }
    MergedReadIsExact(x, ss, max, orders, results);
  }

  lemma OneLess(n: nat, max: int)
    requires n > 0
    ensures n * max == (n - 1) * max + max
    ensures max > 0 ==> (n - 1) * max >= 0
  {
  }
}
