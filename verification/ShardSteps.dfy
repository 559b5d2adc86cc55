/** Whole operations: spills, writes and reads keep the invariant and refine the plain queue. */
module ShardSteps {
  import opened Prelude
  import opened Protobuf
  import opened Trajectories
  import opened DiskStorages
  import opened ShardModel
  import opened PlainQueue
  import opened ShardInvariant

  // ---------- spilling a batch ----------

  function SpillEach(pb: Codec<Group>, s: Shard, ids: seq<string>, names: seq<nat>): Shard
    requires |ids| == |names|
  {
    if ids == [] then s
    else
      var n := |ids| - 1;
      SpillOne(pb, SpillEach(pb, s, ids[..n], names[..n]), ids[n], names[n])
  }

  lemma {:induction false} CommitKeepsFiles(pb: Codec<Group>, s: Shard, files: Files, ids: seq<string>, names: seq<nat>)
    requires |ids| == |names|
    ensures CommitAll(pb, s.(files := files), ids, names) == CommitAll(pb, s, ids, names).(files := files)
  {
    if ids != [] {
      CommitKeepsFiles(pb, s, files, ids[..|ids| - 1], names[..|ids| - 1]);
    }
  }

  lemma {:induction false} CommitOthers(pb: Codec<Group>, s: Shard, ids: seq<string>, names: seq<nat>, id: string)
    requires |ids| == |names| && id !in ids
    ensures id in CommitAll(pb, s, ids, names).groups <==> id in s.groups
    ensures id in s.groups ==> CommitAll(pb, s, ids, names).groups[id] == s.groups[id]
  {
    if ids != [] {
      CommitOthers(pb, s, ids[..|ids| - 1], names[..|ids| - 1], id);
    }
  }

  /** Writing all files and then switching all entries is the same as one group at a time. */
  lemma {:induction false} TwoPhase(pb: Codec<Group>, s: Shard, ids: seq<string>, names: seq<nat>)
    requires |ids| == |names| && Distinct(ids)
    ensures SpillGroups(pb, s, ids, names) == SpillEach(pb, s, ids, names)
  {
    if ids == [] {
      assert s.(files := s.files) == s;
    } else {
      var n := |ids| - 1;
      var init, last := ids[..n], ids[n];
      TwoPhase(pb, s, init, names[..n]);
      TwoPhaseLast(pb, s, init, names[..n], last, names[n]);
      assert ids == init + [last] && names == names[..n] + [names[n]];
    }
  }

  lemma TwoPhaseLast(pb: Codec<Group>, s: Shard, ids: seq<string>, names: seq<nat>, id: string, name: nat)
    requires |ids| == |names| && id !in ids
    ensures SpillGroups(pb, s, ids + [id], names + [name]) == SpillOne(pb, SpillGroups(pb, s, ids, names), id, name)
  {
    hide WithFiles, Image, CommitOne;
    var files := WithFiles(pb, s.files, names, GroupsAt(s.groups, ids));
    var files' := files[name := Image(pb, GroupAt(s.groups, id))];
    assert GroupsAt(s.groups, ids + [id]) == GroupsAt(s.groups, ids) + [GroupAt(s.groups, id)];
    WithFilesSnoc(pb, s.files, names, GroupsAt(s.groups, ids), name, GroupAt(s.groups, id));
    assert (ids + [id])[..|ids|] == ids && (names + [name])[..|ids|] == names;
    CommitKeepsFiles(pb, s, files, ids, names);
    CommitKeepsFiles(pb, s, files', ids, names);
    CommitOthers(pb, s, ids, names, id);
  }

  function Bytes(pb: Codec<Group>, groups: Groups, ids: seq<string>): nat {
    if ids == [] then 0
    else Bytes(pb, groups, ids[..|ids| - 1]) + pb.byteSize(GroupAt(groups, ids[|ids| - 1]))
  }

  ghost predicate FreshNames(files: Files, names: seq<nat>) {
    Distinct(names) && forall i :: 0 <= i < |names| ==> FreshName(files, names[i])
  }

  ghost predicate AllSpillable(groups: Groups, ids: seq<string>) {
    Distinct(ids) && forall i :: 0 <= i < |ids| ==> Spillable(groups, ids[i])
  }

  /** Every file of the spill will be loadable. */
  ghost predicate AllLoadable(pb: Codec<Group>, groups: Groups, ids: seq<string>) {
    forall i :: 0 <= i < |ids| ==> Loadable(pb, GroupAt(groups, ids[i]))
  }

  lemma {:induction false} SpillEachOthers(pb: Codec<Group>, s: Shard, ids: seq<string>, names: seq<nat>, id: string)
    requires |ids| == |names| && id !in ids
    ensures var s' := SpillEach(pb, s, ids, names);
            && (id in s'.groups <==> id in s.groups)
            && (id in s.groups ==> s'.groups[id] == s.groups[id])
  {
    if ids != [] {
      SpillEachOthers(pb, s, ids[..|ids| - 1], names[..|ids| - 1], id);
    }
  }

  lemma {:induction false} SpillEachNames(pb: Codec<Group>, s: Shard, ids: seq<string>, names: seq<nat>, name: nat)
    requires |ids| == |names| && name !in names && name !in s.files
    ensures name !in SpillEach(pb, s, ids, names).files
  {
    if ids != [] {
      SpillEachNames(pb, s, ids[..|ids| - 1], names[..|ids| - 1], name);
    }
  }

  lemma SealMore(q: Queue, ids: seq<string>, id: string)
    ensures Seal(Seal(q, Elements(ids)), {id}) == Seal(q, Elements(ids + [id]))
  {
    forall j
      ensures j in Elements(ids + [id]) <==> j in Elements(ids) || j == id
    {
      assert (ids + [id])[|ids|] == id;
      assert j in ids + [id] <==> j in ids || j == id;
    }
    assert Seal(Seal(q, Elements(ids)), {id}).held == Seal(q, Elements(ids + [id])).held;
  }

  lemma SpillInit(pb: Codec<Group>, s: Shard, ids: seq<string>, names: seq<nat>)
    requires |ids| == |names| && ids != [] && AllSpillable(s.groups, ids) && FreshNames(s.files, names)
    requires AllLoadable(pb, s.groups, ids)
    ensures var n := |ids| - 1;
            && AllSpillable(s.groups, ids[..n]) && FreshNames(s.files, names[..n])
            && AllLoadable(pb, s.groups, ids[..n]) && Loadable(pb, GroupAt(s.groups, ids[n]))
            && ids[n] !in ids[..n] && names[n] !in names[..n]
            && Spillable(s.groups, ids[n]) && FreshName(s.files, names[n])
  {
  }

  lemma {:induction false} SpillEachStep(pb: Codec<Group>, s: Shard, ids: seq<string>, names: seq<nat>)
    requires Faithful(pb) && Inv(pb, s) && |ids| == |names|
    requires AllSpillable(s.groups, ids) && AllLoadable(pb, s.groups, ids) && FreshNames(s.files, names)
    ensures var s' := SpillEach(pb, s, ids, names); Inv(pb, s') && View(pb, s') == Seal(View(pb, s), Elements(ids))
  {
    hide Inv, View, SpillOne, AllSpillable, AllLoadable, FreshNames, Seal, Faithful, Spillable, Elements;
    if ids == [] {
      SealNone(View(pb, s));
    } else {
      var n := |ids| - 1;
      var init, last := ids[..n], ids[n];
      SpillInit(pb, s, ids, names);
      SpillEachStep(pb, s, init, names[..n]);
      var mid := SpillEach(pb, s, init, names[..n]);
      SpillEachOthers(pb, s, init, names[..n], last);
      SpillEachNames(pb, s, init, names[..n], names[n]);
      SpillableKept(s, mid, last);
      SpillOneStep(pb, mid, last, names[n]);
      SealMore(View(pb, s), init, last);
      assert ids == init + [last];
    }
  }

  predicate AllPositive(names: seq<nat>) {
    forall i :: 0 <= i < |names| ==> names[i] > 0
  }

  /** What a spill does to the byte accounts does not depend on the files. */
  lemma {:induction false} SpillEachBytes(pb: Codec<Group>, s: Shard, ids: seq<string>, names: seq<nat>)
    requires |ids| == |names| && AllSpillable(s.groups, ids) && AllPositive(names)
    ensures var s', bytes := SpillEach(pb, s, ids, names), Bytes(pb, s.groups, ids);
            && s'.diskUsage == s.diskUsage + bytes
            && OnDiskBytes(s'.groups) == OnDiskBytes(s.groups) + bytes
            && InMemoryBytes(pb, s'.groups) == InMemoryBytes(pb, s.groups) - bytes
  {
    hide SpillOne, InMemoryBytes, OnDiskBytes;
    if ids != [] {
      var n := |ids| - 1;
      var init, last := ids[..n], ids[n];
      SpillEachBytes(pb, s, init, names[..n]);
      var mid := SpillEach(pb, s, init, names[..n]);
      assert last !in init && Spillable(s.groups, last) && last in s.groups;
      hide AllSpillable, Spillable;
      SpillEachOthers(pb, s, init, names[..n], last);
      SpillableKept(s, mid, last);
      SpillOneBytes(pb, mid, last, names[n]);
    }
  }

  lemma {:induction false} SpillEachGone(pb: Codec<Group>, s: Shard, ids: seq<string>, names: seq<nat>, id: string)
    requires |ids| == |names|
    ensures Spillable(SpillEach(pb, s, ids, names).groups, id) <==> Spillable(s.groups, id) && id !in ids
  {
    if ids != [] {
      var n := |ids| - 1;
      SpillEachGone(pb, s, ids[..n], names[..n], id);
      assert ids == ids[..n] + [ids[n]];
    }
  }

  lemma SpillableKept(s: Shard, mid: Shard, id: string)
    requires Spillable(s.groups, id) && id in mid.groups && mid.groups[id] == s.groups[id]
    ensures Spillable(mid.groups, id) && mid.groups[id].group.value == GroupAt(mid.groups, id) == GroupAt(s.groups, id)
  {
  }

  lemma SealNone(q: Queue)
    ensures Seal(q, Elements([])) == q
  {
    assert Seal(q, Elements([])).held == q.held;
  }

  // ---------- selection ----------

  lemma {:induction false} SelectSpillable(pb: Codec<Group>, groups: Groups, order: seq<string>, target: int, acc: nat)
    requires Distinct(order)
    ensures var ids := Select(pb, groups, order, target, acc);
            AllSpillable(groups, ids) && forall id :: id in ids ==> id in order
  {
    if order != [] {
      var rest := order[1..];
      var acc' := acc + if Spillable(groups, order[0]) then pb.byteSize(groups[order[0]].group.value) else 0;
      SelectSpillable(pb, groups, rest, target, acc');
      var ids := Select(pb, groups, rest, target, acc');
      assert order[0] !in rest;
      assert forall i :: 0 <= i < |ids| ==> ids[i] in rest;
    }
  }

  /** The environment's choices: a traversal without repetition, and unused file names. */
  ghost predicate GoodChoice(files: Files, c: Choice) {
    Distinct(c.order) && FreshNames(files, c.names)
  }

  /** A spill of any complete in-memory groups only seals them. */
  lemma SpillGroupsStep(pb: Codec<Group>, s: Shard, ids: seq<string>, names: seq<nat>)
    requires Faithful(pb) && Inv(pb, s) && |ids| == |names|
    requires AllSpillable(s.groups, ids) && AllLoadable(pb, s.groups, ids) && FreshNames(s.files, names)
    ensures var s' := SpillGroups(pb, s, ids, names); Inv(pb, s') && View(pb, s') == Seal(View(pb, s), Elements(ids))
  {
    hide Inv, View, SpillGroups;
    TwoPhase(pb, s, ids, names);
    SpillEachStep(pb, s, ids, names);
  }

  lemma {:induction false} CommitFrame(pb: Codec<Group>, s: Shard, ids: seq<string>, names: seq<nat>)
    requires |ids| == |names|
    ensures var s' := CommitAll(pb, s, ids, names);
            s'.cfg == s.cfg && s'.lru == s.lru && s'.total == s.total && s'.consumed == s.consumed
  {
    if ids != [] {
      CommitFrame(pb, s, ids[..|ids| - 1], names[..|ids| - 1]);
    }
  }

  lemma SpillGroupsFrame(pb: Codec<Group>, s: Shard, ids: seq<string>, names: seq<nat>)
    requires |ids| == |names|
    ensures var s' := SpillGroups(pb, s, ids, names);
            s'.cfg == s.cfg && s'.lru == s.lru && s'.total == s.total && s'.consumed == s.consumed
  {
    hide CommitAll;
    CommitFrame(pb, s.(files := WithFiles(pb, s.files, names, GroupsAt(s.groups, ids))), ids, names);
  }

  /** A spill, whatever it selects, touches neither configuration nor uids nor the two counters. */
  lemma TrySpillFrame(x: Fixed, s: Shard, c: Choice)
    ensures var s' := TrySpill(x, s, c);
            s'.cfg == s.cfg && s'.lru == s.lru && s'.total == s.total && s'.consumed == s.consumed
  {
    var ids := Selected(x, s, c.order);
    SelectLength(x.pb, s.groups, c.order, SpillTarget(MemoryUsage(x, s), s.cfg.seventyMark), 0);
    hide Selected, SpillGroups;
    SpillGroupsFrame(x.pb, s, ids, c.names[..|ids|]);
  }

  lemma TrySpillStep(x: Fixed, s: Shard, c: Choice)
    requires Faithful(x.pb) && Inv(x.pb, s) && GoodChoice(s.files, c)
    requires AllLoadable(x.pb, s.groups, Selected(x, s, c.order))
    ensures var ids, s' := Selected(x, s, c.order), TrySpill(x, s, c);
            && AllSpillable(s.groups, ids)
            && Inv(x.pb, s')
            && View(x.pb, s') == Seal(View(x.pb, s), Elements(ids))
  {
    SelectedPlaces(x, s, c);
    hide Inv, View, MemoryUsage, Select, SpillTarget, SpillGroups, AllSpillable, AllLoadable;
    var ids := Selected(x, s, c.order);
    FreshPrefix(s.files, c.names, |ids|);
    SpillGroupsStep(x.pb, s, ids, c.names[..|ids|]);
  }

  lemma FreshPrefix(files: Files, names: seq<nat>, n: nat)
    requires FreshNames(files, names) && n <= |names|
    ensures FreshNames(files, names[..n])
  {
  }

  /** The selected groups are complete ones in memory, each once, and no more than there are names. */
  lemma SelectedPlaces(x: Fixed, s: Shard, c: Choice)
    requires Distinct(c.order)
    ensures var ids := Selected(x, s, c.order); AllSpillable(s.groups, ids) && |ids| <= |c.names|
  {
    var target := SpillTarget(MemoryUsage(x, s), s.cfg.seventyMark);
    SelectSpillable(x.pb, s.groups, c.order, target, 0);
    SelectLength(x.pb, s.groups, c.order, target, 0);
  }

  /** The accounts after a spill check, whether or not the files can be loaded again. */
  lemma TrySpillBytes(x: Fixed, s: Shard, c: Choice)
    requires Distinct(c.order) && AllPositive(c.names)
    ensures var ids, s' := Selected(x, s, c.order), TrySpill(x, s, c);
            var bytes := Bytes(x.pb, s.groups, ids);
            && s'.diskUsage == s.diskUsage + bytes
            && OnDiskBytes(s'.groups) == OnDiskBytes(s.groups) + bytes
            && MemoryUsage(x, s') == MemoryUsage(x, s) - bytes && s'.cfg == s.cfg
            && forall id :: Spillable(s'.groups, id) <==> Spillable(s.groups, id) && id !in ids
  {
    SelectedPlaces(x, s, c);
    var ids := Selected(x, s, c.order);
    var names := c.names[..|ids|];
    TwoPhase(x.pb, s, ids, names);
    hide InMemoryBytes, OnDiskBytes, Selected, SpillGroups, Spillable;
    SpillEachBytes(x.pb, s, ids, names);
    SpillEachFrame(x.pb, s, ids, names);
    forall id
      ensures Spillable(TrySpill(x, s, c).groups, id) <==> Spillable(s.groups, id) && id !in ids
    {
      SpillEachGone(x.pb, s, ids, names, id);
    }
  }

  lemma {:induction false} SpillEachFrame(pb: Codec<Group>, s: Shard, ids: seq<string>, names: seq<nat>)
    requires |ids| == |names|
    ensures var s' := SpillEach(pb, s, ids, names);
            s'.cfg == s.cfg && s'.lru == s.lru && s'.total == s.total && s'.consumed == s.consumed
  {
    if ids != [] {
      SpillEachFrame(pb, s, ids[..|ids| - 1], names[..|ids| - 1]);
    }
  }

  // ---------- write ----------

  /** The environment behaves, and every group the write happens to spill can be loaded again. */
  ghost predicate WriteAllowed(x: Fixed, s: Shard, t: Trajectory, now: nat, c: Choice) {
    && GoodChoice(s.files, c)
    && AllLoadable(x.pb, Store(Mark(x, s, t.uid), t, now).groups, SpilledBy(x, s, t, now, c))
  }

  /** The ids a write happens to spill. */
  ghost function SpilledBy(x: Fixed, s: Shard, t: Trajectory, now: nat, c: Choice): seq<string> {
    if Stores(s, t) then Selected(x, Store(Mark(x, s, t.uid), t, now), c.order) else []
  }

  lemma MarkStep(x: Fixed, s: Shard, uid: string)
    requires Inv(x.pb, s)
    ensures Inv(x.pb, Mark(x, s, uid)) && View(x.pb, Mark(x, s, uid)) == Remember(x.dedupMax, View(x.pb, s), uid)
  {
    var s' := Mark(x, s, uid);
    assert s'.groups == s.groups && s'.files == s.files;
  }

  lemma AcceptsIsStores(x: Fixed, s: Shard, t: Trajectory)
    ensures Accepts(View(x.pb, s), t) <==> Stores(s, t)
  {
  }

  /** A write is the plain queue's write followed by sealing some complete groups. */
  lemma WriteStep(x: Fixed, s: Shard, t: Trajectory, now: nat, c: Choice)
    requires Faithful(x.pb) && Inv(x.pb, s) && WriteAllowed(x, s, t, now, c)
    ensures var (s', ok) := Write(x, s, t, now, c);
            var (q, ok') := Put(x.dedupMax, View(x.pb, s), t, now);
            var ids := SpilledBy(x, s, t, now, c);
            && Inv(x.pb, s') && ok == ok'
            && View(x.pb, s') == Seal(q, Elements(ids))
            && forall id :: id in ids ==> id in q.held && q.held[id].group.complete && !q.held[id].sealed
  {
    var m := Mark(x, s, t.uid);
    MarkStep(x, s, t.uid);
    AcceptsIsStores(x, s, t);
    if Stores(s, t) {
      assert Stores(m.(lru := s.lru), t);
      StoreAfterMark(x, s, t, now);
      TrySpillStep(x, Store(m, t, now), c);
      var q := Put(x.dedupMax, View(x.pb, s), t, now).0;
      forall id | id in SpilledBy(x, s, t, now, c)
        ensures id in q.held && q.held[id].group.complete && !q.held[id].sealed
      {
        assert Spillable(Store(m, t, now).groups, id);
      }
    } else {
      SealNone(Put(x.dedupMax, View(x.pb, s), t, now).0);
    }
  }

  lemma StoreAfterMark(x: Fixed, s: Shard, t: Trajectory, now: nat)
    requires Inv(x.pb, s) && Stores(s, t)
    ensures var s' := Store(Mark(x, s, t.uid), t, now);
            && Inv(x.pb, s') && View(x.pb, s') == Put(x.dedupMax, View(x.pb, s), t, now).0
            && s'.files == s.files
  {
    StoreStep(x.pb, x.dedupMax, s, t, now);
    MarkStep(x, s, t.uid);
    var a, b := Store(s, t, now), Store(Mark(x, s, t.uid), t, now);
    assert b == a.(lru := b.lru);
    hide EntriesOk, FilesOwned, HeldAt;
  }

  lemma {:induction false} CommitKeys(pb: Codec<Group>, s: Shard, ids: seq<string>, names: seq<nat>)
    requires |ids| == |names|
    ensures CommitAll(pb, s, ids, names).groups.Keys == s.groups.Keys
  {
    if ids != [] {
      CommitKeys(pb, s, ids[..|ids| - 1], names[..|ids| - 1]);
    }
  }

  lemma SpillGroupsKeys(pb: Codec<Group>, s: Shard, ids: seq<string>, names: seq<nat>)
    requires |ids| == |names|
    ensures SpillGroups(pb, s, ids, names).groups.Keys == s.groups.Keys
  {
    hide CommitAll;
    CommitKeys(pb, s.(files := WithFiles(pb, s.files, names, GroupsAt(s.groups, ids))), ids, names);
  }

  lemma TrySpillKeys(x: Fixed, s: Shard, c: Choice)
    ensures TrySpill(x, s, c).groups.Keys == s.groups.Keys
  {
    var ids := Selected(x, s, c.order);
    SelectLength(x.pb, s.groups, c.order, SpillTarget(MemoryUsage(x, s), s.cfg.seventyMark), 0);
    hide Selected, SpillGroups;
    SpillGroupsKeys(x.pb, s, ids, c.names[..|ids|]);
  }

  lemma KeysAfterWrite(x: Fixed, s: Shard, t: Trajectory, now: nat, c: Choice)
    ensures Write(x, s, t, now, c).0.groups.Keys <= s.groups.Keys + {t.instanceId}
    ensures |Write(x, s, t, now, c).0.groups| <= |s.groups| + 1
  {
    TrySpillKeys(x, Store(Mark(x, s, t.uid), t, now), c);
    hide TrySpill;
    OneMoreKey(Write(x, s, t, now, c).0.groups, s.groups, t.instanceId);
  }

  lemma OneMoreKey(after: Groups, before: Groups, id: string)
    requires after.Keys <= before.Keys + {id}
    ensures |after| <= |before| + 1
  {
    var more := before.Keys + {id};
    assert more == after.Keys + (more - after.Keys);
    assert |after.Keys| == |after| && |before.Keys| == |before|;
  }

  // ---------- batches of writes ----------

  /** What the environment contributes to one write. */
  datatype Env = Env(now: nat, c: Choice)

  /** One write after the other; counts the accepted ones. */
  ghost function WriteAll(x: Fixed, s: Shard, ts: seq<Trajectory>, envs: seq<Env>): (Shard, nat)
    requires |ts| == |envs|
  {
    if ts == [] then (s, 0)
    else
      var n := |ts| - 1;
      var (mid, count) := WriteAll(x, s, ts[..n], envs[..n]);
      var (s', ok) := Write(x, mid, ts[n], envs[n].now, envs[n].c);
      (s', count + if ok then 1 else 0)
  }

  lemma WriteAllSnoc(x: Fixed, s: Shard, ts: seq<Trajectory>, envs: seq<Env>, t: Trajectory, env: Env)
    requires |ts| == |envs|
    ensures var (mid, count) := WriteAll(x, s, ts, envs);
            var (s', ok) := Write(x, mid, t, env.now, env.c);
            WriteAll(x, s, ts + [t], envs + [env]) == (s', count + if ok then 1 else 0)
  {
    assert (ts + [t])[..|ts|] == ts && (envs + [env])[..|ts|] == envs;
  }

  /** The traversal visits every group once and the file names are unused. */
  ghost predicate Served(s: Shard, t: Trajectory, env: Env) {
    && GoodChoice(s.files, env.c)
    && (Stores(s, t) ==> IsOrder(env.c.order, s.groups.Keys + {t.instanceId}))
  }

  ghost predicate AllServed(x: Fixed, s: Shard, ts: seq<Trajectory>, envs: seq<Env>)
    requires |ts| == |envs|
  {
    ts == [] ||
    (var n := |ts| - 1;
     && AllServed(x, s, ts[..n], envs[..n])
     && Served(WriteAll(x, s, ts[..n], envs[..n]).0, ts[n], envs[n]))
  }

  /** A batch of writes led from s to s', accepting `written` of them. */
  ghost predicate BatchDone(x: Fixed, s: Shard, ts: seq<Trajectory>, envs: seq<Env>, s': Shard, written: nat) {
    && |envs| == |ts| && AllServed(x, s, ts, envs)
    && WriteAll(x, s, ts, envs) == (s', written)
    && s'.groups.Keys <= s.groups.Keys + set t | t in ts :: t.instanceId
  }

  lemma BatchDoneSnoc(x: Fixed, s: Shard, ts: seq<Trajectory>, envs: seq<Env>, mid: Shard, written: nat,
                      t: Trajectory, env: Env, s': Shard, ok: bool)
    requires BatchDone(x, s, ts, envs, mid, written) && Served(mid, t, env)
    requires Write(x, mid, t, env.now, env.c) == (s', ok) && s'.groups.Keys <= mid.groups.Keys + {t.instanceId}
    ensures BatchDone(x, s, ts + [t], envs + [env], s', written + if ok then 1 else 0)
  {
    hide Write, Served;
    WriteAllSnoc(x, s, ts, envs, t, env);
    assert (ts + [t])[..|ts|] == ts && (envs + [env])[..|ts|] == envs;
    assert t in ts + [t] && forall u :: u in ts ==> u in ts + [t];
  }

  // ---------- which writes are safe ----------

  /** A spill is not due, or every group it could take can be loaded again. */
  ghost predicate SpillSafe(x: Fixed, s: Shard) {
    MemoryUsage(x, s) > s.cfg.spillMark ==>
      forall id :: Spillable(s.groups, id) ==> Loadable(x.pb, GroupAt(s.groups, id))
  }

  ghost predicate WriteSafe(x: Fixed, s: Shard, t: Trajectory) {
    Stores(s, t) ==> SpillSafe(x, Store(Mark(x, s, t.uid), t, 0))
  }

  /** However the environment behaves, every write of the batch is safe when its turn comes. */
  ghost predicate BatchSafe(x: Fixed, s: Shard, ts: seq<Trajectory>)
    decreases |ts|
  {
    ts == [] ||
    (WriteSafe(x, s, ts[0])
     && forall now: nat, c: Choice :: GoodChoice(s.files, c) ==> BatchSafe(x, Write(x, s, ts[0], now, c).0, ts[1..]))
  }

  lemma AnyOrder(keys: set<string>) returns (order: seq<string>)
    ensures IsOrder(order, keys)
  {
    if keys == {} {
      order := [];
    } else {
      var k :| k in keys;
      order := AnyOrder(keys - {k});
      assert k !in Elements(order);
      ElementsMore(order, k);
      order := order + [k];
    }
  }

  lemma SafeSelection(x: Fixed, s: Shard, order: seq<string>)
    requires SpillSafe(x, s) && Distinct(order)
    ensures AllLoadable(x.pb, s.groups, Selected(x, s, order))
  {
    SelectSpillable(x.pb, s.groups, order, SpillTarget(MemoryUsage(x, s), s.cfg.seventyMark), 0);
    hide MemoryUsage, Select, SpillTarget;
  }

  lemma OrderFrom(keys: set<string>, id: string) returns (order: seq<string>)
    requires id in keys
    ensures IsOrder(order, keys) && order != [] && order[0] == id
  {
    var rest := AnyOrder(keys - {id});
    assert id !in Elements(rest);
    order := [id] + rest;
    assert forall k :: k in order <==> k == id || k in rest;
    assert forall k :: k in rest <==> k in Elements(rest);
  }

  /** The spill check is safe if and only if, along every traversal, all it selects can be loaded
      again: a complete group that comes first is always selected. */
  lemma SpillSafeExactly(x: Fixed, s: Shard)
    ensures SpillSafe(x, s) <==>
      forall order :: IsOrder(order, s.groups.Keys) ==> AllLoadable(x.pb, s.groups, Selected(x, s, order))
  {
    if SpillSafe(x, s) {
      forall order | IsOrder(order, s.groups.Keys)
        ensures AllLoadable(x.pb, s.groups, Selected(x, s, order))
      {
        SafeSelection(x, s, order);
      }
    } else {
      var id :| Spillable(s.groups, id) && !Loadable(x.pb, GroupAt(s.groups, id));
      var order := OrderFrom(s.groups.Keys, id);
      assert Selected(x, s, order)[0] == id;
    }
  }

  lemma SameMemory(x: Fixed, a: Shard, b: Shard)
    requires a.cfg == b.cfg && a.lru == b.lru && a.groups.Keys == b.groups.Keys
    requires forall id :: id in a.groups ==> a.groups[id].group == b.groups[id].group
    ensures MemoryUsage(x, a) == MemoryUsage(x, b)
  {
    assert (map id | id in a.groups :: a.groups[id].MemoryBytes(x.pb))
        == (map id | id in b.groups :: b.groups[id].MemoryBytes(x.pb));
  }

  /** The creation time is of no importance to a spill. */
  lemma SafeAtAnyTime(x: Fixed, s: Shard, t: Trajectory, now: nat)
    requires SpillSafe(x, Store(s, t, 0))
    ensures SpillSafe(x, Store(s, t, now))
  {
    var a, b := Store(s, t, 0), Store(s, t, now);
    assert forall id :: id in a.groups <==> id in b.groups;
    assert forall id :: id in a.groups ==> a.groups[id].group == b.groups[id].group;
    hide Store, MemoryUsage;
    SameMemory(x, a, b);
    forall id | Spillable(b.groups, id)
      ensures Spillable(a.groups, id) && GroupAt(a.groups, id) == GroupAt(b.groups, id)
    {
    }
  }

  lemma SafeWriteAllowed(x: Fixed, s: Shard, t: Trajectory, now: nat, c: Choice)
    requires WriteSafe(x, s, t) && GoodChoice(s.files, c)
    ensures WriteAllowed(x, s, t, now, c)
  {
    if Stores(s, t) {
      SafeAtAnyTime(x, Mark(x, s, t.uid), t, now);
      SafeSelection(x, Store(Mark(x, s, t.uid), t, now), c.order);
    }
  }

  /** A codec that never exceeds 100 MiB makes every batch safe. */
  lemma {:induction false} SmallGroupsAreSafe(x: Fixed, s: Shard, ts: seq<Trajectory>)
    requires forall g: Group :: Loadable(x.pb, g)
    ensures BatchSafe(x, s, ts)
    decreases |ts|
  {
    if ts != [] {
      forall now: nat, c: Choice | GoodChoice(s.files, c)
        ensures BatchSafe(x, Write(x, s, ts[0], now, c).0, ts[1..])
      {
        SmallGroupsAreSafe(x, Write(x, s, ts[0], now, c).0, ts[1..]);
      }
    }
  }

  // ---------- where a spilled group ends up ----------

  lemma {:induction false} SpillEachAt(pb: Codec<Group>, s: Shard, ids: seq<string>, names: seq<nat>, i: nat)
    requires |ids| == |names| && Distinct(ids) && Distinct(names) && i < |ids| && ids[i] in s.groups
    ensures var s' := SpillEach(pb, s, ids, names);
            && ids[i] in s'.groups && s'.groups[ids[i]].group.None? && s'.groups[ids[i]].diskOffset == names[i]
            && names[i] in s'.files && s'.files[names[i]] == Image(pb, GroupAt(s.groups, ids[i]))
  {
    hide Image;
    var n := |ids| - 1;
    SpillEachOthers(pb, s, ids[..n], names[..n], ids[n]);
    if i < n {
      SpillEachAt(pb, s, ids[..n], names[..n], i);
    }
  }

  /** A spill keeps the invariant if and only if all its groups can be loaded again. */
  lemma SpillGroupsExactly(pb: Codec<Group>, s: Shard, ids: seq<string>, names: seq<nat>)
    requires Faithful(pb) && Inv(pb, s) && |ids| == |names|
    requires AllSpillable(s.groups, ids) && FreshNames(s.files, names)
    requires forall i :: 0 <= i < |ids| ==> pb.serialize(GroupAt(s.groups, ids[i])).Some?
    ensures Inv(pb, SpillGroups(pb, s, ids, names)) <==> AllLoadable(pb, s.groups, ids)
  {
    hide Image, SpillEach;
    if AllLoadable(pb, s.groups, ids) {
      SpillGroupsStep(pb, s, ids, names);
    } else {
      var i :| 0 <= i < |ids| && !Loadable(pb, GroupAt(s.groups, ids[i]));
      TwoPhase(pb, s, ids, names);
      assert Spillable(s.groups, ids[i]);
      SpillEachAt(pb, s, ids, names, i);
      var s' := SpillGroups(pb, s, ids, names);
      BadSpill(pb, s'.files, s'.groups[ids[i]], ids[i], GroupAt(s.groups, ids[i]), names[i]);
    }
  }

  /** A write keeps the invariant if and only if every group it spills can be loaded again; how
      large the groups are that stay in memory does not matter. */
  lemma WriteExactly(x: Fixed, s: Shard, t: Trajectory, now: nat, c: Choice)
    requires Faithful(x.pb) && Inv(x.pb, s) && GoodChoice(s.files, c)
    requires var stored := Store(Mark(x, s, t.uid), t, now).groups;
             forall id :: id in SpilledBy(x, s, t, now, c) ==> x.pb.serialize(GroupAt(stored, id)).Some?
    ensures Inv(x.pb, Write(x, s, t, now, c).0) <==> WriteAllowed(x, s, t, now, c)
  {
    if WriteAllowed(x, s, t, now, c) {
      WriteStep(x, s, t, now, c);
    } else {
      var stored, ids := Store(Mark(x, s, t.uid), t, now), SpilledBy(x, s, t, now, c);
      StoreAfterMark(x, s, t, now);
      hide Inv, Store, Mark;
      SelectSpillable(x.pb, stored.groups, c.order, SpillTarget(MemoryUsage(x, stored), stored.cfg.seventyMark), 0);
      SelectLength(x.pb, stored.groups, c.order, SpillTarget(MemoryUsage(x, stored), stored.cfg.seventyMark), 0);
      SpillGroupsExactly(x.pb, stored, ids, c.names[..|ids|]);
    }
  }

  // ---------- read ----------

  lemma {:induction false} PickComplete(groups: Groups, order: seq<string>, max: int, taken: nat)
    requires Distinct(order)
    ensures var ids := Pick(groups, order, max, taken);
            Distinct(ids) && forall id :: id in ids ==> id in order && id in groups && groups[id].IsComplete()
  {
    if order != [] {
      var rest := order[1..];
      PickComplete(groups, rest, max, taken);
      PickComplete(groups, rest, max, taken + 1);
      var ids := Pick(groups, rest, max, taken + 1);
      assert order[0] !in rest;
      assert forall i :: 0 <= i < |ids| ==> ids[i] in rest;
    }
  }

  function Where(groups: Groups, ids: seq<string>, onDisk: bool): seq<string> {
    if ids == [] then []
    else
      var n := |ids| - 1;
      Where(groups, ids[..n], onDisk)
      + if ids[n] in groups && groups[ids[n]].IsOnDisk() == onDisk then [ids[n]] else []
  }

  /** The order of delivery: in-memory groups first, each part in traversal order. */
  function DeliveryOrder(groups: Groups, ids: seq<string>): seq<string> {
    Where(groups, ids, false) + Where(groups, ids, true)
  }

  lemma WhereSnoc(groups: Groups, ids: seq<string>, id: string, onDisk: bool)
    ensures Where(groups, ids + [id], onDisk)
            == if id in groups && groups[id].IsOnDisk() == onDisk then Where(groups, ids, onDisk) + [id]
               else Where(groups, ids, onDisk)
    ensures OffsetsOf(groups, ids + [id])
            == if id in groups && groups[id].IsOnDisk() then OffsetsOf(groups, ids) + [groups[id].diskOffset]
               else OffsetsOf(groups, ids)
  {
    assert (ids + [id])[..|ids|] == ids;
  }

  lemma MultisetInsert(a: seq<string>, b: seq<string>, id: string)
    ensures multiset(a + [id] + b) == multiset(a + b) + multiset{id}
    ensures multiset(a + (b + [id])) == multiset(a + b) + multiset{id}
    ensures multiset(a + [id]) == multiset(a) + multiset{id}
  {
    assert multiset(a + [id] + b) == multiset(a) + multiset{id} + multiset(b);
    assert a + (b + [id]) == a + b + [id];
  }

  lemma {:induction false} WherePartition(groups: Groups, ids: seq<string>)
    requires forall id :: id in ids ==> id in groups
    ensures multiset(DeliveryOrder(groups, ids)) == multiset(ids)
  {
    if ids == [] {
    } else {
      hide Where;
      var init, last := ids[..|ids| - 1], ids[|ids| - 1];
      assert ids == init + [last];
      WherePartition(groups, init);
      WhereSnoc(groups, init, last, false);
      WhereSnoc(groups, init, last, true);
      MultisetInsert(Where(groups, init, false), Where(groups, init, true), last);
      MultisetInsert(init, [], last);
    }
  }

  lemma {:induction false} WhereIn(groups: Groups, ids: seq<string>, onDisk: bool)
    ensures forall id :: id in Where(groups, ids, onDisk) ==> id in ids && id in groups
  {
    if ids != [] {
      var n := |ids| - 1;
      WhereIn(groups, ids[..n], onDisk);
      assert ids == ids[..n] + [ids[n]];
    }
  }

  lemma {:induction false} ReadFromMemory(pb: Codec<Group>, s: Shard, ids: seq<string>)
    requires Inv(pb, s) && forall id :: id in ids ==> id in s.groups
    ensures FromMemory(s.groups, ids) == GroupsOf(View(pb, s), Where(s.groups, ids, false))
  {
    if ids != [] {
      var n := |ids| - 1;
      ReadFromMemory(pb, s, ids[..n]);
      assert ids[n] in ids && EntryOk(pb, s.files, s.groups[ids[n]], ids[n]);
    }
  }

  lemma EntryLoads(pb: Codec<Group>, s: Shard, id: string)
    requires Inv(pb, s) && id in s.groups
    ensures s.groups[id].IsOnDisk() ==>
      Load(pb, s.files, s.groups[id].diskOffset) == Ok(View(pb, s).held[id].group)
    ensures s.groups[id].IsOnDisk() <==> s.groups[id].group.None?
  {
    assert EntryOk(pb, s.files, s.groups[id], id);
  }

  lemma GroupsOfAppend(q: Queue, a: seq<string>, b: seq<string>)
    ensures GroupsOf(q, a + b) == GroupsOf(q, a) + GroupsOf(q, b)
  {
  }

  lemma {:induction false} ReadFromDisk(pb: Codec<Group>, s: Shard, ids: seq<string>)
    requires Inv(pb, s) && forall id :: id in ids ==> id in s.groups
    ensures LoadAll(pb, s.files, OffsetsOf(s.groups, ids)) == Ok(GroupsOf(View(pb, s), Where(s.groups, ids, true)))
  {
    if ids == [] {
    } else {
      var init, last := ids[..|ids| - 1], ids[|ids| - 1];
      assert ids == init + [last];
      ReadFromDisk(pb, s, init);
      ReadOneMore(pb, s, init, last);
    }
  }

  lemma ReadOneMore(pb: Codec<Group>, s: Shard, ids: seq<string>, id: string)
    requires Inv(pb, s) && id in s.groups
    requires LoadAll(pb, s.files, OffsetsOf(s.groups, ids)) == Ok(GroupsOf(View(pb, s), Where(s.groups, ids, true)))
    ensures LoadAll(pb, s.files, OffsetsOf(s.groups, ids + [id]))
            == Ok(GroupsOf(View(pb, s), Where(s.groups, ids + [id], true)))
  {
    hide Inv, View, Load, LoadAll, Where, OffsetsOf;
    EntryLoads(pb, s, id);
    ViewFields(pb, s);
    WhereSnoc(s.groups, ids, id, true);
    if s.groups[id].IsOnDisk() {
      LoadAllSnoc(pb, s.files, OffsetsOf(s.groups, ids), s.groups[id].diskOffset);
      GroupsOfAppend(View(pb, s), Where(s.groups, ids, true), [id]);
      assert GroupsOf(View(pb, s), [id]) == [View(pb, s).held[id].group];
    }
  }

  lemma DropMore(q: Queue, ids: seq<string>, id: string)
    ensures Drop(Drop(q, Elements(ids)), {id}) == Drop(q, Elements(ids + [id]))
  {
    forall j
      ensures j in Elements(ids + [id]) <==> j in Elements(ids) || j == id
    {
      assert (ids + [id])[|ids|] == id;
      assert j in ids + [id] <==> j in ids || j == id;
    }
    assert q.held - Elements(ids) - {id} == q.held - Elements(ids + [id]);
  }

  lemma {:induction false} RemoveAllStep(pb: Codec<Group>, s: Shard, ids: seq<string>)
    requires Inv(pb, s)
    ensures Inv(pb, RemoveAll(s, ids)) && View(pb, RemoveAll(s, ids)) == Drop(View(pb, s), Elements(ids))
  {
    hide Inv, View, Remove, Drop, Elements;
    if ids == [] {
      DropNone(View(pb, s));
    } else {
      var n := |ids| - 1;
      RemoveAllStep(pb, s, ids[..n]);
      RemoveStep(pb, RemoveAll(s, ids[..n]), ids[n]);
      DropMore(View(pb, s), ids[..n], ids[n]);
      assert ids == ids[..n] + [ids[n]];
    }
  }

  lemma DropNone(q: Queue)
    ensures Drop(q, Elements([])) == q
  {
    assert q.held - Elements([]) == q.held;
  }

  /** A read takes its groups out of the plain queue: the same groups wherever they were stored. */
  lemma ReadStep(x: Fixed, s: Shard, max: int, order: seq<string>)
    requires Inv(x.pb, s) && Distinct(order)
    ensures var (s', gs) := Read(x, s, max, order);
            var ids := Pick(s.groups, order, max, 0);
            var delivered := DeliveryOrder(s.groups, ids);
            && (forall id :: id in delivered ==> id in View(x.pb, s).held && View(x.pb, s).held[id].group.complete)
            && multiset(delivered) == multiset(ids) && Distinct(ids)
            && Inv(x.pb, s')
            && (View(x.pb, s'), gs) == Take(View(x.pb, s), delivered)
  {
    var ids := Pick(s.groups, order, max, 0);
    var delivered := DeliveryOrder(s.groups, ids);
    PickComplete(s.groups, order, max, 0);
    WherePartition(s.groups, ids);
    SameElements(delivered, ids);
    ViewAgrees(x.pb, s);
    ReadAssembled(x, s, max, order);
  }

  lemma SameElements(a: seq<string>, b: seq<string>)
    requires multiset(a) == multiset(b)
    ensures forall id :: id in a <==> id in b
    ensures Elements(a) == Elements(b) && (set id | id in a) == Elements(b)
  {
    assert forall id :: id in a <==> id in multiset(a);
    assert forall id :: id in b <==> id in multiset(b);
  }

  lemma ReadAssembled(x: Fixed, s: Shard, max: int, order: seq<string>)
    requires Inv(x.pb, s)
    requires var ids := Pick(s.groups, order, max, 0);
             var delivered := DeliveryOrder(s.groups, ids);
             && (forall id :: id in ids ==> id in s.groups)
             && (forall id :: id in delivered ==> id in s.groups)
             && (set id | id in delivered) == Elements(ids)
    ensures var (s', gs) := Read(x, s, max, order);
            Inv(x.pb, s') && (View(x.pb, s'), gs) == Take(View(x.pb, s), DeliveryOrder(s.groups, Pick(s.groups, order, max, 0)))
  {
    hide Inv, View, Pick, LoadAll, FromMemory, OffsetsOf, Where, RemoveAll, SizeOf;
    var ids := Pick(s.groups, order, max, 0);
    ReadFromMemory(x.pb, s, ids);
    ReadFromDisk(x.pb, s, ids);
    RemoveAllStep(x.pb, s, ids);
    RemoveAllFrame(s, ids);
    WhereIn(s.groups, ids, false);
    WhereIn(s.groups, ids, true);
    ViewFields(x.pb, s);
    GroupsOfAppend(View(x.pb, s), Where(s.groups, ids, false), Where(s.groups, ids, true));
    ConsumedOnly(x.pb, RemoveAll(s, ids), s.consumed + SizeOf(Delivered(x.pb, s, ids)));
  }

  lemma ConsumedOnly(pb: Codec<Group>, s: Shard, consumed: int)
    requires Inv(pb, s)
    ensures Inv(pb, s.(consumed := consumed)) && View(pb, s.(consumed := consumed)) == View(pb, s).(consumed := consumed)
  {
  }

  lemma ViewFields(pb: Codec<Group>, s: Shard)
    ensures var q := View(pb, s);
            q.cfg == s.cfg && q.total == s.total && q.consumed == s.consumed && q.lru == s.lru && q.held.Keys == s.groups.Keys
  {
  }

  lemma {:induction false} RemoveAllFrame(s: Shard, ids: seq<string>)
    ensures var s' := RemoveAll(s, ids);
            s'.cfg == s.cfg && s'.lru == s.lru && s'.total == s.total && s'.consumed == s.consumed
  {
    if ids != [] {
      RemoveAllFrame(s, ids[..|ids| - 1]);
    }
  }
}
