/** The shard object: the group map and its counters on top of the dedup filter and the disk
    store. Each method is proved to do exactly what ShardModel says. */
module BufferShards {
  import opened Prelude
  import opened Protobuf
  import opened Trajectories
  import opened DiskStorages
  import opened DedupFilters
  import opened Lru
  import opened ShardModel
  import opened PlainQueue
  import opened ShardInvariant
  import opened ShardSteps
  import opened ShardBounds

  datatype Status = Status(totalTrajectories: int, totalConsumed: int, pendingGroups: nat, incompleteGroups: nat,
                           memoryUsageBytes: int, diskUsageBytes: int)

  datatype MetaInfo = MetaInfo(totalSamples: int, numGroups: nat, finishedGroupIds: seq<string>)

  /** Traversal of an unordered map: any order, each key once. */
  method IterationOrder<K(==)>(keys: set<K>) returns (order: seq<K>)
    ensures IsOrder(order, keys)
  {
    order := [];
    var rest := keys;
    while rest != {}
      invariant Distinct(order) && Elements(order) == keys - rest && rest <= keys
      decreases rest
    {
      var k :| k in rest;
      assert k !in Elements(order);
      ElementsMore(order, k);
      order := order + [k];
      rest := rest - {k};
    }
  }

  class BufferShard {
    var config: Config
    const dedup: DedupFilter
    const disk: DiskStorage
    var groups: Groups
    var totalTrajectories: int
    var totalConsumed: int
    var diskUsageBytes: int

    ghost function State(): Shard
      reads this, dedup.list, disk
    {
      Shard(config, groups, totalTrajectories, totalConsumed, diskUsageBytes, dedup.Lru(), disk.files)
    }

    ghost function Params(): Fixed {
      Fixed(disk.pb, dedup.maxSize, dedup.bits.Length / 8)
    }

    ghost predicate Parts()
      reads this, dedup, dedup.list, dedup.list.ring, dedup.bits, disk
    {
      dedup.Valid() && disk.Valid() && disk.initialized && Faithful(disk.pb)
    }

    ghost predicate Valid()
      reads this, dedup, dedup.list, dedup.list.ring, dedup.bits, disk
    {
      Parts() && Inv(disk.pb, State())
    }

    lemma ValidFacts()
      requires Valid()
      ensures Faithful(disk.pb) && Inv(disk.pb, State())
    {
    }

    /** Everything a shard owns; the clock and the file counter are shared by all shards. */
    ghost function Repr(): set<object>
      reads this, dedup, dedup.list
    {
      {this, disk} + dedup.Repr()
    }

    lemma ReprAllocated()
      ensures allocated(Repr())
    {
    }

    /** Nothing a shard owns has changed, so neither has the shard. */
    twostate lemma Untouched()
      requires old(Valid()) && unchanged(old(Repr()))
      ensures Valid() && State() == old(State()) && Repr() == old(Repr())
      ensures forall o :: o in Repr() ==> old(allocated(o))
      ensures disk.lastClock == old(disk.lastClock) && disk.lastCounter == old(disk.lastCounter)
    {
      hide DedupFilter.Valid, DiskStorage.Valid, Inv;
      assert Parts();
    }

    constructor (config: Config, pb: Codec<Group>, clock: SteadyClock, counter: FileCounter,
                 stdHash: string -> nat, dedupMax: nat, bitCount: nat, numHashes: nat)
      requires Faithful(pb) && bitCount > 0 && numHashes > 0
      ensures Valid() && State() == Fresh(config) && fresh(Repr())
      ensures disk.clock == clock && disk.counter == counter && disk.pb == pb
      ensures disk.lastClock == disk.lastCounter == 0
      ensures Params() == Fixed(pb, if dedupMax > 1 then dedupMax else 1, bitCount / 8)
    {
      this.config := config;
      dedup := new DedupFilter(stdHash, dedupMax, bitCount, numHashes);
      var d := new DiskStorage(pb, clock, counter);
      d.Init();
      disk := d;
      groups := map[];
      totalTrajectories, totalConsumed, diskUsageBytes := 0, 0, 0;
      new;
      FreshIsValid(pb, config);
    }

    // ---------- memory and spill ----------

    method GroupBytes() returns (usage: nat)
      ensures usage == InMemoryBytes(disk.pb, groups)
    {
      usage := 0;
      ghost var bytes := map id | id in groups :: groups[id].MemoryBytes(disk.pb);
      var order := IterationOrder(groups.Keys);
      assert groups.Keys == bytes.Keys;
      for i := 0 to |order|
        invariant usage == SumAlong(bytes, order[..i])
      {
        var id := order[i];
        assert id in Elements(order);
        assert order[..i + 1][..i] == order[..i];
        if groups[id].group.Some? {
          usage := usage + disk.pb.byteSize(groups[id].group.value);
        }
      }
      assert order[..|order|] == order;
      SumAlongIsSum(bytes, order);
    }

    method EstimateMemoryUsage() returns (usage: nat)
      requires Valid()
      ensures usage == MemoryUsage(Params(), State())
      ensures usage == Sum(map id | id in groups && groups[id].group.Some? :: disk.pb.byteSize(groups[id].group.value))
                       + if config.uidDedup then dedup.bits.Length / 8 + 64 * |dedup.Lru()| else 0
    {
      UsageExactly(Params(), State());
      hide Inv, DedupFilter.Valid, InMemoryBytes, Sum;
      usage := GroupBytes();
      if config.uidDedup {
        var size := dedup.Size();
        usage := usage + dedup.bits.Length / 8 + size * 64;
      }
    }

    /** The selection loop of the spill: keys in traversal order until the target is met. */
    method SelectGroups(order: seq<string>, target: nat) returns (keys: seq<string>, copies: seq<Group>, spilled: nat)
      ensures keys == Select(disk.pb, groups, order, target, 0)
      ensures copies == GroupsAt(groups, keys) && spilled == Bytes(disk.pb, groups, keys)
    {
      keys, copies, spilled := [], [], 0;
      NothingSelected(disk.pb, groups);
      SelectOntoIs(disk.pb, groups, order, 0, target, [], 0);
      assert order[0..] == order;
      hide Select, GroupsAt, Bytes;
      for i := 0 to |order|
        invariant SelectOnto(disk.pb, groups, order, i, target, keys, spilled) == Select(disk.pb, groups, order, target, 0)
        invariant copies == GroupsAt(groups, keys) && spilled == Bytes(disk.pb, groups, keys)
      {
        var id := order[i];
        if id in groups && groups[id].group.Some? && groups[id].IsComplete() {
          var g := groups[id].group.value;
          SelectionSnoc(disk.pb, groups, keys, id);
          keys, copies, spilled := keys + [id], copies + [g], spilled + disk.pb.byteSize(g);
          if spilled >= target {
            return;
          }
        }
      }
    }

    /** Every spilled entry forgets its group and remembers its file, size and count. */
    method CommitSpill(keys: seq<string>, offsets: seq<nat>)
      requires |keys| == |offsets|
      modifies this`groups, this`diskUsageBytes
      ensures State() == CommitAll(disk.pb, old(State()), keys, offsets)
    {
      assert keys[..0] == [] && offsets[..0] == [];
      for i := 0 to |keys|
        invariant State() == CommitAll(disk.pb, old(State()), keys[..i], offsets[..i])
      {
        assert keys[..i + 1][..i] == keys[..i] && offsets[..i + 1][..i] == offsets[..i];
        var id := keys[i];
        if id in groups {
          var e := groups[id];
          var size := if e.group.Some? then disk.pb.byteSize(e.group.value) else 0;
          var count := e.TrajectoriesSize();
          groups := groups[id := Entry(None, offsets[i], e.createdTime, count, size)];
          diskUsageBytes := diskUsageBytes + size;
        }
      }
      assert keys[..|keys|] == keys && offsets[..|keys|] == offsets;
    }

    /** Spill complete groups until memory is down to the 70% mark. */
    method TrySpillGroups() returns (spilled: nat, ghost c: Choice)
      requires Valid() && disk.Ready(|groups|) && SpillSafe(Params(), State())
      modifies this`groups, this`diskUsageBytes, disk`files, disk`lastClock, disk`lastCounter, disk.clock, disk.counter
      ensures Valid() && disk.Ready(0) && disk.clock.now >= old(disk.clock.now)
      ensures old(disk.counter.next) <= disk.counter.next <= old(disk.counter.next + |groups|)
      ensures IsOrder(c.order, old(groups.Keys)) && GoodChoice(old(disk.files), c)
      ensures State() == TrySpill(Params(), old(State()), c)
      ensures spilled == Bytes(disk.pb, old(groups), Selected(Params(), old(State()), c.order))
    {
      hide Inv, DedupFilter.Valid, Faithful, MemoryUsage, Selected, TrySpill, SpillGroups, Bytes, Padded, GoodChoice, Distinct;
      ghost var s := State();
      var order := IterationOrder(groups.Keys);
      OrderSize(order, groups.Keys);
      ghost var names;
      spilled, names := SpillInOrder(order);
      c := Padded(order, names, disk.lastClock + disk.lastCounter);
      SafeSelection(Params(), s, order);
      SpillDone(Params(), s, order, names, disk.lastClock + disk.lastCounter);
    }

    /** `names` are the file names handed out, one for each selected group. */
    method SpillInOrder(order: seq<string>) returns (spilled: nat, ghost names: seq<nat>)
      requires Valid() && Distinct(order) && disk.Ready(|order|) && SpillSafe(Params(), State())
      modifies this`groups, this`diskUsageBytes, disk`files, disk`lastClock, disk`lastCounter, disk.clock, disk.counter
      ensures disk.Valid() && disk.initialized && disk.Ready(0) && disk.clock.now >= old(disk.clock.now)
      ensures old(disk.counter.next) <= disk.counter.next <= old(disk.counter.next) + |order|
      ensures old(disk.lastClock + disk.lastCounter) <= disk.lastClock + disk.lastCounter
      ensures disk.NewNames(names, old(disk.files))
      ensures var ids := Selected(Params(), old(State()), order);
              && |names| == |ids|
              && State() == SpillGroups(disk.pb, old(State()), ids, names)
              && spilled == Bytes(disk.pb, old(groups), ids)
    {
      SelectedPlan(Params(), State(), order);
      SafeSelection(Params(), State(), order);
      hide Inv, DedupFilter.Valid, DiskStorage.Valid, Faithful, MemoryUsage, Selected, SpillGroups, AllSpillable, AllLoadable,
        Select, SpillTarget, Bytes, GroupsAt;
      spilled, names := 0, [];
      var currentMem := EstimateMemoryUsage();
      if currentMem > config.spillMark {
        var target := (currentMem - config.seventyMark) % TWO_64;
        var keys, copies, bytes := SelectGroups(order, target);
        spilled := bytes;
        if keys != [] {
          names := SpillSelected(keys, copies);
        }
      }
    }

    method SpillSelected(keys: seq<string>, copies: seq<Group>) returns (ghost names: seq<nat>)
      requires disk.Valid() && disk.initialized && Faithful(disk.pb) && Inv(disk.pb, State())
      requires disk.Ready(|keys|) && AllSpillable(groups, keys) && copies == GroupsAt(groups, keys)
      requires AllLoadable(disk.pb, groups, keys)
      modifies this`groups, this`diskUsageBytes, disk`files, disk`lastClock, disk`lastCounter, disk.clock, disk.counter
      ensures disk.Valid() && disk.initialized && disk.Ready(0) && disk.clock.now >= old(disk.clock.now)
      ensures old(disk.counter.next) <= disk.counter.next <= old(disk.counter.next) + |keys|
      ensures old(disk.lastClock + disk.lastCounter) <= disk.lastClock + disk.lastCounter
      ensures |names| == |keys| && disk.NewNames(names, old(disk.files))
      ensures State() == SpillGroups(disk.pb, old(State()), keys, names)
    {
      SelectedFit(disk.pb, State(), keys);
      hide Inv, DiskStorage.Valid, AllSpillable, AllLoadable, CommitAll, WithFiles, GroupsAt, Faithful, Distinct;
      var offsets := disk.SpillBatch(copies);
      names := offsets.value;
      CommitSpill(keys, offsets.value);
    }

    // ---------- write ----------

    /** The first write of an id creates its group; every write appends. */
    method StoreTrajectory(t: Trajectory) returns (ghost now: nat)
      requires disk.clock.Valid()
      modifies this`groups, this`totalTrajectories, disk.clock
      ensures disk.clock.Valid() && old(disk.clock.now) <= now <= disk.clock.now
      ensures State() == Store(old(State()), t, now)
    {
      var id := t.instanceId;
      var entry := if id in groups then groups[id] else EMPTY_ENTRY;
      now := disk.clock.now;
      if entry.group.None? {
        var reading := disk.clock.Read();
        now := reading;
        entry := entry.(group := Some(Group(id, [], config.groupSize, false)), createdTime := reading);
      }
      var g := entry.group.value;
      g := g.(trajectories := g.trajectories + [t]);
      totalTrajectories := totalTrajectories + 1;
      if |g.trajectories| >= g.groupSize {
        g := g.(complete := true);
      }
      groups := groups[id := entry.(group := Some(g))];
    }

    /** Step 1 of a write: the uid check, when it is on. */
    method CheckUid(uid: string) returns (duplicate: bool)
      requires Valid()
      modifies dedup.Repr()
      ensures Valid() && fresh(dedup.Repr() - old(dedup.Repr()))
      ensures State() == Mark(Params(), old(State()), uid) && duplicate == old(Duplicate(State(), uid))
    {
      hide Inv, DedupFilter.Valid, DiskStorage.Valid, Faithful, Touch, View;
      MarkStep(Params(), State(), uid);
      duplicate := false;
      if config.uidDedup {
        var inserted := dedup.Insert(uid);
        duplicate := !inserted;
      }
    }

    /** Steps 2 to 5: store the trajectory, then check memory. */
    method StoreAndSpill(t: Trajectory) returns (ghost now: nat, ghost c: Choice)
      requires Valid() && disk.Ready(|groups| + 1)
      requires !Sealed(State(), t.instanceId) && SpillSafe(Params(), Store(State(), t, 0))
      modifies this`groups, this`totalTrajectories, this`diskUsageBytes
      modifies disk`files, disk`lastClock, disk`lastCounter, disk.clock, disk.counter
      ensures Valid() && disk.Ready(0) && old(disk.clock.now) <= now <= disk.clock.now
      ensures old(disk.counter.next) <= disk.counter.next <= old(disk.counter.next + |groups| + 1)
      ensures IsOrder(c.order, old(groups.Keys) + {t.instanceId}) && GoodChoice(old(disk.files), c)
      ensures State() == TrySpill(Params(), Store(old(State()), t, now), c)
    {
      hide Inv, DedupFilter.Valid, DiskStorage.Valid, Faithful, TrySpill, GoodChoice, SpillSafe, Store, IsOrder;
      ghost var s := State();
      now := StoreTrajectory(t);
      StoreKeeps(Params(), s, t, now);
      SafeAtAnyTime(Params(), s, t, now);
      var spilled;
      spilled, c := TrySpillGroups();
    }

    /** False only for a duplicate uid. `now` and `c` are what the environment contributed. */
    method Write(t: Trajectory) returns (ok: bool, ghost now: nat, ghost c: Choice)
      requires Valid() && disk.Ready(|groups| + 1)
      requires WriteSafe(Params(), State(), t)
      modifies Repr(), disk.clock, disk.counter
      ensures Valid() && fresh(Repr() - old(Repr())) && old(disk.clock.now) <= now <= disk.clock.now
      ensures disk.Ready(0) && old(disk.counter.next) <= disk.counter.next <= old(disk.counter.next + |groups| + 1)
      ensures GoodChoice(old(disk.files), c)
      ensures old(Stores(State(), t)) ==> IsOrder(c.order, old(groups.Keys) + {t.instanceId})
      ensures (State(), ok) == ShardModel.Write(Params(), old(State()), t, now, c)
    {
      hide Valid, TrySpill, GoodChoice, SpillSafe, IsOrder, Store, Touch;
      now, c := disk.clock.now, Choices([], []);
      EmptyChoice(disk.files);
      var duplicate := CheckUid(t.uid);
      if duplicate {
        return false, now, c;
      }
      if t.instanceId in groups && groups[t.instanceId].IsOnDisk() {
        return true, now, c;
      }
      now, c := StoreAndSpill(t);
      ok := true;
    }

    /** One write of a batch. */
    method WriteNext(ts: seq<Trajectory>, i: nat) returns (ok: bool, ghost env: Env)
      requires i < |ts| && Valid() && BatchSafe(Params(), State(), ts[i..])
      requires disk.Ready(|State().groups| + 1)
      modifies Repr(), disk.clock, disk.counter
      ensures Valid() && fresh(Repr() - old(Repr())) && disk.Ready(0) && old(disk.clock.now) <= env.now <= disk.clock.now
      ensures old(disk.counter.next) <= disk.counter.next <= old(disk.counter.next + |State().groups| + 1)
      ensures |State().groups| <= old(|State().groups|) + 1
      ensures State().groups.Keys <= old(State().groups.Keys) + {ts[i].instanceId}
      ensures Served(old(State()), ts[i], env)
      ensures BatchSafe(Params(), State(), ts[i + 1..])
      ensures (State(), ok) == ShardModel.Write(Params(), old(State()), ts[i], env.now, env.c)
    {
      hide Valid, Inv, GoodChoice, BatchSafe, ShardModel.Write, Faithful, WriteSafe, WriteAllowed;
      ghost var mid := State();
      assert ts[i..][0] == ts[i] && ts[i..][1..] == ts[i + 1..];
      ValidFacts();
      FirstSafe(Params(), mid, ts[i..]);
      ghost var now, c;
      ok, now, c := Write(ts[i]);
      RestSafe(Params(), mid, ts[i..], now, c);
      KeysAfterWrite(Params(), mid, ts[i], now, c);
      env := Env(now, c);
    }

    /** A batch under way: the first i writes are done, the others are still safe, and there is room
        for their files. `first` and `from` are counter and clock at the start. */
    ghost predicate Going(s: Shard, ts: seq<Trajectory>, i: nat, envs: seq<Env>, written: nat, first: nat, from: nat)
      requires i <= |ts|
      reads this, dedup, dedup.list, dedup.list.ring, dedup.bits, disk, disk.clock, disk.counter
    {
      var size := |s.groups| + |ts|;
      && Valid() && disk.Ready(0) && from <= disk.clock.now && |State().groups| <= |s.groups| + i
      && first <= disk.counter.next <= first + Room(i, size) && first + Room(|ts|, size) <= TWO_63
      && BatchSafe(Params(), State(), ts[i..])
      && BatchDone(Params(), s, ts[..i], envs, State(), written)
      && AllBetween(envs, from, disk.clock.now)
    }

    method WriteAt(ts: seq<Trajectory>, i: nat, ghost s: Shard, ghost envs: seq<Env>, ghost written: nat,
                   ghost first: nat, ghost from: nat) returns (ok: bool, ghost env: Env)
      requires i < |ts| && Going(s, ts, i, envs, written, first, from)
      modifies Repr(), disk.clock, disk.counter
      ensures fresh(Repr() - old(Repr()))
      ensures Going(s, ts, i + 1, envs + [env], written + if ok then 1 else 0, first, from)
    {
      hide Valid, State, Params, Repr, BatchDone, BatchSafe, ShardModel.Write, Room, Served, AllBetween;
      RoomForOne(i, |ts|, |s.groups| + |ts|);
      PrefixMore(ts, i);
      ghost var mid, before := State(), disk.clock.now;
      ok, env := WriteNext(ts, i);
      OneMoreBetween(envs, env, from, before, disk.clock.now);
      BatchDoneSnoc(Params(), s, ts[..i], envs, mid, written, ts[i], env, State(), ok);
    }

    /** Writes the batch one by one and counts the accepted ones. */
    method BatchWrite(ts: seq<Trajectory>) returns (written: nat, ghost envs: seq<Env>)
      requires Valid() && BatchSafe(Params(), State(), ts)
      requires disk.Ready(Room(|ts|, |groups| + |ts|))
      modifies Repr(), disk.clock, disk.counter
      ensures Valid() && fresh(Repr() - old(Repr())) && disk.Ready(0) && disk.clock.now >= old(disk.clock.now)
      ensures disk.counter.next >= old(disk.counter.next)
      ensures disk.counter.next <= old(disk.counter.next + Room(|ts|, |groups| + |ts|))
      ensures BatchDone(Params(), old(State()), ts, envs, State(), written)
      ensures AllBetween(envs, old(disk.clock.now), disk.clock.now)
    {
      hide Valid, BatchDone, BatchSafe, Room, AllBetween;
      ghost var s, first, from := State(), disk.counter.next, disk.clock.now;
      written, envs := 0, [];
      WholeSeq(ts);
      NothingWrittenYet(Params(), s, |s.groups| + |ts|);
      NoneBetween(from, from);
      for i := 0 to |ts|
        invariant fresh(Repr() - old(Repr())) && Going(s, ts, i, envs, written, first, from)
      {
        hide Going;
        var ok;
        ghost var env;
        ok, env := WriteAt(ts, i, s, envs, written, first, from);
        envs := envs + [env];
        if ok {
          written := written + 1;
        }
      }
    }

    /** Whether this write is safe whatever is spilled: afterwards every complete group in memory can be
        loaded again, and the counter has room. */
    method HasRoomFor(t: Trajectory) returns (room: bool)
      requires Valid() && disk.Ready(0)
      ensures room ==> WriteSafe(Params(), State(), t) && disk.Ready(|groups| + 1)
    {
      hide Valid, WriteSafe;
      var g := if t.instanceId in groups && groups[t.instanceId].group.Some? then groups[t.instanceId].group.value
               else Group(t.instanceId, [], config.groupSize, false);
      room := Loadable(disk.pb, Append(g, t)) && disk.counter.next + |groups| + 1 <= TWO_63;
      var order := IterationOrder(groups.Keys);
      for i := 0 to |order|
        invariant room ==> Loadable(disk.pb, Append(g, t)) && disk.Ready(|groups| + 1)
        invariant room ==> forall k :: 0 <= k < i ==> LoadableAt(disk.pb, groups, order[k])
      {
        room := room && LoadableAt(disk.pb, groups, order[i]);
      }
      if room {
        RoomIsSafe(Params(), State(), t, order);
      }
    }

    // ---------- read ----------

    /** The scan of a read: picks complete groups in traversal order, moves in-memory groups out
        and notes the files of the others. */
    method ScanReady(order: seq<string>, max: int) returns (result: seq<Group>, offsets: seq<nat>, ids: seq<string>)
      requires Distinct(order) && Elements(order) <= groups.Keys && Placed(groups)
      modifies this`groups, this`totalConsumed, this`diskUsageBytes
      ensures ids == Pick(old(groups), order, max, 0)
      ensures result == FromMemory(old(groups), ids) && offsets == OffsetsOf(old(groups), ids)
      ensures totalConsumed == old(totalConsumed) + SizeOf(result)
      ensures diskUsageBytes == old(diskUsageBytes) - DiskSum(old(groups), ids)
      ensures groups.Keys == old(groups.Keys) && forall id :: id in groups && id !in ids ==> groups[id] == old(groups)[id]
    {
      ghost var before := groups;
      result, offsets, ids := [], [], [];
      NothingPicked(before, order, max);
      hide FromMemory, OffsetsOf, SizeOf, DiskSum, Pick, Distinct;
      for i := 0 to |order|
        invariant PickOnto(before, order, i, max, ids) == Pick(before, order, max, 0)
        invariant result == FromMemory(before, ids) && offsets == OffsetsOf(before, ids)
        invariant |result| + |offsets| == |ids|
        invariant totalConsumed == old(totalConsumed) + SizeOf(result)
        invariant diskUsageBytes == old(diskUsageBytes) - DiskSum(before, ids)
        invariant groups.Keys == before.Keys && forall id :: id in groups && id !in ids ==> groups[id] == before[id]
        invariant forall id :: id in ids ==> id in order[..i]
      {
        var id := order[i];
        assert id in Elements(order);
        NotYetVisited(order, i);
        assert order[..i + 1] == order[..i] + [id];
        if groups[id].IsComplete() {
          if max > 0 && |result| + |offsets| >= max {
            break;
          }
          PickedSnoc(before, ids, id);
          ids := ids + [id];
          if groups[id].IsOnDisk() {
            offsets := offsets + [groups[id].diskOffset];
            diskUsageBytes := diskUsageBytes - groups[id].cachedBytes;
          } else {
            var g := groups[id].group.value;
            SizeSnoc(result, g);
            totalConsumed := totalConsumed + |g.trajectories|;
            result := result + [g];
            groups := groups[id := groups[id].(group := None)];
          }
        }
      }
    }

    method AddLoaded(result: seq<Group>, loaded: seq<Group>) returns (all: seq<Group>)
      modifies this`totalConsumed
      ensures all == result + loaded && totalConsumed == old(totalConsumed) + SizeOf(loaded)
    {
      all := result;
      for k := 0 to |loaded|
        invariant all == result + loaded[..k] && totalConsumed == old(totalConsumed) + SizeOf(loaded[..k])
      {
        assert loaded[..k + 1] == loaded[..k] + [loaded[k]];
        SizeSnoc(loaded[..k], loaded[k]);
        totalConsumed := totalConsumed + |loaded[k].trajectories|;
        all := all + [loaded[k]];
      }
      assert loaded[..|loaded|] == loaded;
    }

    method RemoveFiles(offsets: seq<nat>)
      requires disk.Valid() && disk.initialized
      modifies disk`files
      ensures disk.Valid() && disk.files == old(disk.files) - Elements(offsets)
    {
      WholeSeq(offsets);
      for k := 0 to |offsets|
        invariant disk.Valid() && disk.files == old(disk.files) - Elements(offsets[..k])
      {
        PrefixMore(offsets, k);
        MinusMore(old(disk.files), offsets[..k], offsets[k]);
        var _ := disk.Remove(offsets[k]);
      }
    }

    method EraseGroups(ids: seq<string>)
      modifies this`groups
      ensures groups == old(groups) - Elements(ids)
    {
      for k := 0 to |ids|
        invariant groups == old(groups) - Elements(ids[..k])
      {
        assert ids[..k + 1] == ids[..k] + [ids[k]];
        assert Elements(ids[..k + 1]) == Elements(ids[..k]) + {ids[k]};
        groups := groups - {ids[k]};
      }
      assert ids[..|ids|] == ids;
    }

    method TakeReady(order: seq<string>, max: int) returns (result: seq<Group>)
      requires disk.Valid() && disk.initialized
      requires Distinct(order) && Elements(order) <= groups.Keys && Placed(groups)
      requires LoadAll(disk.pb, disk.files, OffsetsOf(groups, Pick(groups, order, max, 0))).Ok?
      modifies this`groups, this`totalConsumed, this`diskUsageBytes, disk`files
      ensures disk.Valid()
      ensures (State(), result) == Taken(disk.pb, old(State()), Pick(old(groups), order, max, 0))
    {
      hide DiskStorage.Valid, Pick, FromMemory, OffsetsOf, LoadAll, DiskSum, SizeOf, Distinct, Placed;
      ghost var before := groups;
      var fromMemory, offsets, ids := ScanReady(order, max);
      var loaded := disk.LoadBatch(offsets);
      result := AddLoaded(fromMemory, loaded.value);
      RemoveFiles(offsets);
      EraseGroups(ids);
      WithoutIds(groups, before, ids);
    }

    /** Consumes and returns complete groups, loading the spilled ones back. */
    method ReadReadyGroups(max: int) returns (result: seq<Group>, ghost order: seq<string>)
      requires Valid()
      modifies this`groups, this`totalConsumed, this`diskUsageBytes, disk`files
      ensures Valid()
      ensures IsOrder(order, old(groups.Keys))
      ensures (State(), result) == ShardModel.Read(Params(), old(State()), max, order)
    {
      hide Inv, DedupFilter.Valid, DiskStorage.Valid, Faithful, Pick, ShardModel.Read, Distinct, Placed, Taken, LoadAll;
      var keys := IterationOrder(groups.Keys);
      order := keys;
      ReadPlan(Params(), State(), max, order);
      result := TakeReady(keys, max);
    }

    method HasReadyGroups() returns (ready: bool)
      ensures ready <==> ReadyIds(groups) != {}
    {
      var order := IterationOrder(groups.Keys);
      for i := 0 to |order|
        invariant forall k :: 0 <= k < i ==> order[k] in groups && !groups[order[k]].IsComplete()
      {
        assert order[i] in Elements(order);
        if groups[order[i]].IsComplete() {
          assert order[i] in ReadyIds(groups);
          return true;
        }
      }
      forall id | id in groups
        ensures !groups[id].IsComplete()
      {
        assert id in Elements(order);
        var k :| 0 <= k < |order| && order[k] == id;
      }
      return false;
    }

    // ---------- management ----------

    method DeleteInstance(id: string)
      requires Valid()
      modifies this`groups, this`diskUsageBytes, disk`files
      ensures Valid() && State() == Remove(old(State()), id)
    {
      hide Inv, DedupFilter.Valid, DiskStorage.Valid, Faithful, View, Drop;
      RemoveStep(disk.pb, State(), id);
      if id in groups {
        var e := groups[id];
        if e.IsOnDisk() {
          diskUsageBytes := diskUsageBytes - e.cachedBytes;
          var _ := disk.Remove(e.diskOffset);
        }
        groups := groups - {id};
      }
    }

    /** The files named by the entries on disk. */
    method CollectOffsets() returns (offsets: seq<nat>)
      ensures Elements(offsets) == set id | id in groups && groups[id].IsOnDisk() :: groups[id].diskOffset
    {
      offsets := [];
      var order := IterationOrder(groups.Keys);
      for i := 0 to |order|
        invariant forall o :: o in offsets <==> exists k :: 0 <= k < i && Owns(groups, order[k], o)
      {
        ghost var before := offsets;
        assert order[i] in Elements(order);
        if groups[order[i]].IsOnDisk() {
          offsets := offsets + [groups[order[i]].diskOffset];
        }
        forall o
          ensures o in offsets <==> exists k :: 0 <= k < i + 1 && Owns(groups, order[k], o)
        {
          if Owns(groups, order[i], o) {
            assert o in offsets;
          }
        }
      }
      forall id | id in groups && groups[id].IsOnDisk()
        ensures groups[id].diskOffset in offsets
      {
        assert id in Elements(order);
        var k :| 0 <= k < |order| && order[k] == id;
        assert Owns(groups, order[k], groups[id].diskOffset);
      }
    }

    method Reset()
      requires Valid()
      modifies Repr()
      ensures Valid() && fresh(Repr() - old(Repr()))
      ensures disk.lastClock == old(disk.lastClock) && disk.lastCounter == old(disk.lastCounter)
      ensures State() == ShardModel.Reset(old(State())) == Fresh(old(config))
    {
      hide Inv, DedupFilter.Valid, DiskStorage.Valid, Faithful, ShardModel.Reset, Fresh;
      ResetStep(disk.pb, State());
      var offsets := CollectOffsets();
      ForgetAll();
      RemoveFiles(offsets);
      ForgottenIsReset(old(State()), offsets);
    }

    method ForgetAll()
      requires Parts()
      modifies Repr()
      ensures Parts() && fresh(Repr() - old(Repr()))
      ensures disk.lastClock == old(disk.lastClock) && disk.lastCounter == old(disk.lastCounter)
      ensures State() == Fresh(config).(files := old(disk.files)) && config == old(config)
    {
      hide DedupFilter.Valid, DiskStorage.Valid, Faithful;
      groups := map[];
      dedup.Clear();
      totalTrajectories, totalConsumed, diskUsageBytes := 0, 0, 0;
    }

    /** Marks the groups whose time is up as complete. */
    method CheckGroupTimeouts() returns (ghost now: nat)
      requires Valid() && disk.clock.Valid()
      modifies this`groups, disk.clock
      ensures Valid() && disk.clock.Valid() && old(disk.clock.now) <= now <= disk.clock.now
      ensures State() == CheckTimeouts(old(State()), now)
    {
      hide Inv, DedupFilter.Valid, DiskStorage.Valid, Faithful, View, Timeouts;
      ghost var s := State();
      var reading := disk.clock.Read();
      now := reading;
      TimeoutsStep(disk.pb, s, now);
      MarkTimeouts(reading);
    }

    method MarkTimeouts(now: nat)
      modifies this`groups
      ensures groups == CheckTimeouts(old(State()), now).groups
    {
      ghost var before := groups;
      var order := IterationOrder(groups.Keys);
      for i := 0 to |order|
        invariant groups.Keys == before.Keys
        invariant forall k :: 0 <= k < i ==> order[k] in before && groups[order[k]] == Expire(config, before[order[k]], now)
        invariant forall k :: i <= k < |order| ==> order[k] in before && groups[order[k]] == before[order[k]]
      {
        var e := groups[order[i]];
        if !e.IsComplete() && now - e.createdTime >= config.timeoutSeconds * NANOS_PER_SECOND {
          groups := groups[order[i] := e.(group := Some(e.group.value.(complete := true)))];
        }
      }
      forall id | id in before
        ensures groups[id] == Expire(config, before[id], now)
      {
        assert id in Elements(order);
        var k :| 0 <= k < |order| && order[k] == id;
      }
    }

    method UpdateConfig(config: Config)
      requires Valid()
      modifies this`config
      ensures Valid() && State() == Reconfigure(old(State()), config)
    {
      this.config := config;
    }

    // ---------- status ----------

    method GetStatus() returns (status: Status)
      requires Valid()
      ensures status.totalTrajectories == totalTrajectories && status.totalConsumed == totalConsumed
      ensures status.pendingGroups == |ReadyIds(groups)|
      ensures status.pendingGroups + status.incompleteGroups == |groups|
      ensures status.memoryUsageBytes == MemoryUsage(Params(), State())
      ensures status.diskUsageBytes == OnDiskBytes(groups)
    {
      hide Inv, DedupFilter.Valid, MemoryUsage, ReadyIds;
      var pending, incomplete := CountGroups();
      var memory := EstimateMemoryUsage();
      DiskUsage(disk.pb, State());
      status := Status(totalTrajectories, totalConsumed, pending, incomplete, memory, diskUsageBytes);
    }

    method CountGroups() returns (pending: nat, incomplete: nat)
      ensures pending == |ReadyIds(groups)| && pending + incomplete == |groups|
    {
      var order := IterationOrder(groups.Keys);
      OrderSize(order, groups.Keys);
      NoneComplete(groups);
      hide Complete;
      pending, incomplete := 0, 0;
      assert order[..0] == [];
      for i := 0 to |order|
        invariant pending == |Complete(groups, order[..i])| && pending + incomplete == i
      {
        assert order[i] in Elements(order);
        assert order[..i + 1] == order[..i] + [order[i]];
        CompleteSnoc(groups, order[..i], order[i]);
        if groups[order[i]].IsComplete() {
          pending := pending + 1;
        } else {
          incomplete := incomplete + 1;
        }
      }
      assert order[..|order|] == order;
      CompleteCount(groups, order);
    }

    method GetMetaInfo() returns (meta: MetaInfo)
      ensures meta.totalSamples == Buffered(groups)
      ensures meta.numGroups == |groups|
      ensures Distinct(meta.finishedGroupIds) && Elements(meta.finishedGroupIds) == ReadyIds(groups)
    {
      var order := IterationOrder(groups.Keys);
      NoneComplete(groups);
      FinishedIsReady(groups, order);
      SamplesAlong(groups, order);
      hide Complete, ReadyIds, Distinct, Elements, Samples;
      var samples, finished := 0, [];
      WholeSeq(order);
      for i := 0 to |order|
        invariant samples == Samples(groups, order[..i]) && finished == Complete(groups, order[..i])
      {
        var id := order[i];
        PrefixMore(order, i);
        CompleteSnoc(groups, order[..i], id);
        SamplesSnoc(groups, order[..i], id);
        var e := groups[id];
        var size := e.TrajectoriesSize();
        if e.IsOnDisk() {
          size := e.cachedSize;
        }
        samples := samples + size;
        if e.IsComplete() {
          finished := finished + [id];
        }
      }
      meta := MetaInfo(samples, |groups|, finished);
    }
  }

  lemma ForgottenIsReset(s: Shard, offsets: seq<nat>)
    requires Elements(offsets) == set id | id in s.groups && s.groups[id].IsOnDisk() :: s.groups[id].diskOffset
    ensures Fresh(s.cfg).(files := s.files - Elements(offsets)) == ShardModel.Reset(s)
  {
  }

  function Samples(groups: Groups, order: seq<string>): int {
    if order == [] then 0
    else
      var id := order[|order| - 1];
      Samples(groups, order[..|order| - 1]) + if id in groups then groups[id].Count() else 0
  }

  lemma SamplesAlong(groups: Groups, order: seq<string>)
    requires IsOrder(order, groups.Keys)
    ensures Samples(groups, order) == Buffered(groups) && Samples(groups, []) == 0
    ensures forall i :: 0 <= i < |order| ==> order[i] in groups
  {
    var counts := map id | id in groups :: groups[id].Count();
    assert counts.Keys == groups.Keys;
    SumAlongIsSum(counts, order);
    SamplesAreSum(groups, order);
    forall i | 0 <= i < |order|
      ensures order[i] in groups
    {
      assert order[i] in Elements(order);
    }
  }

  lemma SamplesSnoc(groups: Groups, order: seq<string>, id: string)
    requires id in groups
    ensures Samples(groups, order + [id]) == Samples(groups, order) + groups[id].Count()
  {
    assert (order + [id])[..|order|] == order;
  }

  lemma {:induction false} SamplesAreSum(groups: Groups, order: seq<string>)
    ensures Samples(groups, order) == SumAlong(map id | id in groups :: groups[id].Count(), order)
  {
    if order != [] {
      SamplesAreSum(groups, order[..|order| - 1]);
    }
  }

  lemma NoneComplete(groups: Groups)
    ensures Complete(groups, []) == []
  {
  }

  lemma DiskUsage(pb: Codec<Group>, s: Shard)
    requires Inv(pb, s)
    ensures s.diskUsage == OnDiskBytes(s.groups)
  {
  }

  lemma FinishedIsReady(groups: Groups, order: seq<string>)
    requires IsOrder(order, groups.Keys)
    ensures Distinct(Complete(groups, order)) && Elements(Complete(groups, order)) == ReadyIds(groups)
  {
    CompleteElements(groups, order);
    assert forall id :: id in groups <==> id in Elements(order);
  }

  lemma {:induction false} CompleteSnoc(groups: Groups, order: seq<string>, id: string)
    requires id in groups
    ensures Complete(groups, order + [id])
            == if groups[id].IsComplete() then Complete(groups, order) + [id] else Complete(groups, order)
  {
    if order == [] {
      assert [id][1..] == [];
    } else {
      CompleteSnoc(groups, order[1..], id);
      assert (order + [id])[1..] == order[1..] + [id];
    }
  }

  /** A read in one step: what is delivered and what the shard is left with. */
  ghost function Taken(pb: Codec<Group>, s: Shard, ids: seq<string>): (Shard, seq<Group>) {
    var offsets := OffsetsOf(s.groups, ids);
    var loaded := match LoadAll(pb, s.files, offsets) case Ok(gs) => gs case Failed(_) => [];
    (s.(groups := s.groups - Elements(ids),
        files := s.files - Elements(offsets),
        diskUsage := s.diskUsage - DiskSum(s.groups, ids),
        consumed := s.consumed + SizeOf(FromMemory(s.groups, ids)) + SizeOf(loaded)),
     FromMemory(s.groups, ids) + loaded)
  }

  /** Every entry is in memory or on disk, never both and never neither. */
  ghost predicate Placed(groups: Groups) {
    forall id :: id in groups ==> groups[id].group.Some? != groups[id].IsOnDisk()
  }

  /** Cached bytes of the picked groups that are on disk. */
  function DiskSum(groups: Groups, ids: seq<string>): int {
    if ids == [] then 0
    else
      var n := |ids| - 1;
      DiskSum(groups, ids[..n]) + if ids[n] in groups then groups[ids[n]].DiskBytes() else 0
  }

  /** Picking as the loop does it: ids gathered so far, from position i on. */
  function PickOnto(groups: Groups, order: seq<string>, i: nat, max: int, ids: seq<string>): seq<string>
    requires i <= |order|
    decreases |order| - i
  {
    if i == |order| then ids
    else if order[i] !in groups || !groups[order[i]].IsComplete() then PickOnto(groups, order, i + 1, max, ids)
    else if max > 0 && |ids| >= max then ids
    else PickOnto(groups, order, i + 1, max, ids + [order[i]])
  }

  lemma {:induction false} PickOntoIs(groups: Groups, order: seq<string>, i: nat, max: int, ids: seq<string>)
    requires i <= |order|
    ensures PickOnto(groups, order, i, max, ids) == ids + Pick(groups, order[i..], max, |ids|)
    decreases |order| - i
  {
    if i == |order| {
      assert ids + [] == ids;
    } else {
      assert order[i..][0] == order[i] && order[i..][1..] == order[i + 1..];
      PickOntoIs(groups, order, i + 1, max, ids);
      PickOntoIs(groups, order, i + 1, max, ids + [order[i]]);
      AppendMiddle(ids, order[i], Pick(groups, order[i + 1..], max, |ids| + 1));
      assert ids + [] == ids;
    }
  }

  lemma NothingPicked(groups: Groups, order: seq<string>, max: int)
    ensures PickOnto(groups, order, 0, max, []) == Pick(groups, order, max, 0)
    ensures FromMemory(groups, []) == [] && OffsetsOf(groups, []) == [] && DiskSum(groups, []) == 0 && SizeOf([]) == 0
  {
    PickOntoIs(groups, order, 0, max, []);
    assert order[0..] == order && [] + Pick(groups, order, max, 0) == Pick(groups, order, max, 0);
  }

  lemma NotYetVisited(order: seq<string>, i: nat)
    requires i < |order| && Distinct(order)
    ensures order[i] !in order[..i]
  {
  }

  lemma PickedSnoc(groups: Groups, ids: seq<string>, id: string)
    requires id in groups && groups[id].group.Some? != groups[id].IsOnDisk()
    ensures var e, more := groups[id], ids + [id];
            && FromMemory(groups, more)
               == (if e.IsOnDisk() then FromMemory(groups, ids) else FromMemory(groups, ids) + [e.group.value])
            && OffsetsOf(groups, more)
               == (if e.IsOnDisk() then OffsetsOf(groups, ids) + [e.diskOffset] else OffsetsOf(groups, ids))
            && DiskSum(groups, more) == DiskSum(groups, ids) + (if e.IsOnDisk() then e.cachedBytes else 0)
  {
    assert (ids + [id])[..|ids|] == ids;
  }

  lemma WithoutIds(now: Groups, before: Groups, ids: seq<string>)
    requires now.Keys == before.Keys - Elements(ids)
    requires forall id :: id in now ==> now[id] == before[id]
    ensures now == before - Elements(ids)
  {
  }

  lemma RemoveOne(s: Shard, ids: seq<string>, id: string)
    ensures RemoveAll(s, ids + [id]) == Remove(RemoveAll(s, ids), id)
  {
    assert (ids + [id])[..|ids|] == ids;
  }

  lemma {:induction false} RemoveAllKeeps(s: Shard, ids: seq<string>, id: string)
    requires id in s.groups && id !in ids
    ensures id in RemoveAll(s, ids).groups && RemoveAll(s, ids).groups[id] == s.groups[id]
  {
    if ids != [] {
      RemoveAllKeeps(s, ids[..|ids| - 1], id);
    }
  }

  lemma MinusMore(files: Files, gone: seq<nat>, o: nat)
    ensures files - Elements(gone) - {o} == files - Elements(gone + [o])
  {
    ElementsMore(gone, o);
  }

  lemma {:induction false} RemoveAllParts(s: Shard, ids: seq<string>)
    requires Distinct(ids) && forall id :: id in ids ==> id in s.groups
    ensures RemoveAll(s, ids).files == s.files - Elements(OffsetsOf(s.groups, ids))
    ensures RemoveAll(s, ids).diskUsage == s.diskUsage - DiskSum(s.groups, ids)
  {
    if ids == [] {
      assert s.files - {} == s.files;
    } else {
      hide RemoveAll, OffsetsOf;
      var init, last := ids[..|ids| - 1], ids[|ids| - 1];
      assert last in ids && last !in init;
      assert ids == init + [last];
      RemoveAllParts(s, init);
      RemoveOne(s, init, last);
      RemoveAllKeeps(s, init, last);
      WhereSnoc(s.groups, init, last, true);
      MinusMore(s.files, OffsetsOf(s.groups, init), s.groups[last].diskOffset);
    }
  }

  lemma PlacedByInv(pb: Codec<Group>, s: Shard)
    requires Inv(pb, s)
    ensures Placed(s.groups)
  {
    forall id | id in s.groups
      ensures s.groups[id].group.Some? != s.groups[id].IsOnDisk()
    {
      assert EntryOk(pb, s.files, s.groups[id], id);
    }
  }

  lemma ReadPlan(x: Fixed, s: Shard, max: int, order: seq<string>)
    requires Inv(x.pb, s) && Distinct(order)
    ensures var ids := Pick(s.groups, order, max, 0);
            && Placed(s.groups)
            && LoadAll(x.pb, s.files, OffsetsOf(s.groups, ids)).Ok?
            && ShardModel.Read(x, s, max, order) == Taken(x.pb, s, ids)
            && Inv(x.pb, ShardModel.Read(x, s, max, order).0)
  {
    PlacedByInv(x.pb, s);
    ReadStep(x, s, max, order);
    PickComplete(s.groups, order, max, 0);
    hide Inv, Pick, ShardModel.Read, View, DeliveryOrder, Take, Placed, Taken;
    ReadFromDisk(x.pb, s, Pick(s.groups, order, max, 0));
    ReadIsTaken(x, s, max, order);
  }

  lemma ReadIsTaken(x: Fixed, s: Shard, max: int, order: seq<string>)
    requires var ids := Pick(s.groups, order, max, 0);
             Distinct(ids) && forall id :: id in ids ==> id in s.groups
    ensures ShardModel.Read(x, s, max, order) == Taken(x.pb, s, Pick(s.groups, order, max, 0))
  {
    hide Pick, FromMemory, OffsetsOf, RemoveAll, DiskSum, SizeOf, LoadAll, Distinct, Elements;
    var ids := Pick(s.groups, order, max, 0);
    RemoveAllIs(s, ids);
    var loaded := match LoadAll(x.pb, s.files, OffsetsOf(s.groups, ids)) case Ok(gs) => gs case Failed(_) => [];
    SizeAppend(FromMemory(s.groups, ids), loaded);
  }

  lemma RemoveAllIs(s: Shard, ids: seq<string>)
    requires Distinct(ids) && forall id :: id in ids ==> id in s.groups
    ensures RemoveAll(s, ids)
            == s.(groups := s.groups - Elements(ids), files := s.files - Elements(OffsetsOf(s.groups, ids)),
                  diskUsage := s.diskUsage - DiskSum(s.groups, ids))
  {
    hide OffsetsOf, RemoveAll, DiskSum, Distinct, Elements;
    RemoveAllParts(s, ids);
    RemoveAllGroups(s, ids);
    RemoveAllFrame(s, ids);
  }

  predicate LoadableAt(pb: Codec<Group>, groups: Groups, id: string) {
    id in groups && groups[id].group.Some? ==> Loadable(pb, groups[id].group.value)
  }

  lemma RoomIsSafe(x: Fixed, s: Shard, t: Trajectory, order: seq<string>)
    requires IsOrder(order, s.groups.Keys) && forall k :: 0 <= k < |order| ==> LoadableAt(x.pb, s.groups, order[k])
    requires var g := if t.instanceId in s.groups && s.groups[t.instanceId].group.Some?
                      then s.groups[t.instanceId].group.value
                      else Group(t.instanceId, [], s.cfg.groupSize, false);
             Loadable(x.pb, Append(g, t))
    ensures WriteSafe(x, s, t)
  {
    hide MemoryUsage;
    var after := Store(Mark(x, s, t.uid), t, 0).groups;
    forall id | Spillable(after, id)
      ensures Loadable(x.pb, GroupAt(after, id))
    {
      if id != t.instanceId {
        assert id in Elements(order);
        var k :| 0 <= k < |order| && order[k] == id;
        assert LoadableAt(x.pb, s.groups, order[k]);
      }
    }
  }

  /** Clock readings taken between two points in time. */
  predicate AllBetween(envs: seq<Env>, from: nat, to: nat) {
    forall e :: e in envs ==> from <= e.now <= to
  }

  lemma NoneBetween(from: nat, to: nat)
    ensures AllBetween([], from, to)
  {
  }

  lemma OneMoreBetween(envs: seq<Env>, env: Env, from: nat, mid: nat, to: nat)
    requires AllBetween(envs, from, mid) && from <= mid <= env.now <= to
    ensures AllBetween(envs + [env], from, to)
  {
  }

  /** At most this many files are written by a batch on a shard that never exceeds `size` groups. */
  function Room(writes: nat, size: nat): nat {
    if writes == 0 then 0 else Room(writes - 1, size) + size
  }

  lemma NothingWrittenYet(x: Fixed, s: Shard, size: nat)
    ensures BatchDone(x, s, [], [], s, 0) && Room(0, size) == 0
  {
  }

  lemma {:induction false} RoomForOne(i: nat, n: nat, size: nat)
    requires i < n
    ensures Room(i + 1, size) == Room(i, size) + size <= Room(n, size)
  {
    if i + 1 < n {
      RoomForOne(i, n - 1, size);
    }
  }

  lemma FirstSafe(x: Fixed, s: Shard, ts: seq<Trajectory>)
    requires BatchSafe(x, s, ts) && ts != []
    ensures WriteSafe(x, s, ts[0])
  {
  }

  lemma RestSafe(x: Fixed, s: Shard, ts: seq<Trajectory>, now: nat, c: Choice)
    requires BatchSafe(x, s, ts) && ts != [] && GoodChoice(s.files, c)
    ensures BatchSafe(x, ShardModel.Write(x, s, ts[0], now, c).0, ts[1..])
  {
  }

  lemma StoreKeeps(x: Fixed, s: Shard, t: Trajectory, now: nat)
    requires Inv(x.pb, s) && !Sealed(s, t.instanceId)
    ensures Inv(x.pb, Store(s, t, now))
    ensures Store(s, t, now).groups.Keys == s.groups.Keys + {t.instanceId}
    ensures |Store(s, t, now).groups| <= |s.groups| + 1
  {
    var s0 := s.(cfg := s.cfg.(uidDedup := false));
    assert Store(s0, t, now) == Store(s, t, now).(cfg := s0.cfg);
    StoreStep(x.pb, 1, s0, t, now);
  }

  lemma EmptyChoice(files: Files)
    ensures GoodChoice(files, Choices([], []))
  {
  }

  /** The names handed out, padded with further unused ones up to one per group. */
  ghost function Padded(order: seq<string>, names: seq<nat>, bound: nat): (c: Choice)
    ensures c.order == order && |names| <= |c.names| && c.names[..|names|] == names
  {
    Choices(order, names + seq(|order|, i requires 0 <= i < |order| => bound + 1 + i))
  }

  lemma PaddedGood(before: Files, order: seq<string>, names: seq<nat>, bound: nat)
    requires Distinct(order) && Distinct(names) && forall o :: o in before ==> o < bound
    requires forall i :: 0 <= i < |names| ==> 0 < names[i] < bound && names[i] !in before
    ensures GoodChoice(before, Padded(order, names, bound))
  {
  }

  lemma SpillDone(x: Fixed, s: Shard, order: seq<string>, names: seq<nat>, bound: nat)
    requires Faithful(x.pb) && Inv(x.pb, s) && Distinct(order) && |names| == |Selected(x, s, order)|
    requires AllLoadable(x.pb, s.groups, Selected(x, s, order))
    requires Distinct(names) && forall o :: o in s.files ==> o < bound
    requires forall i :: 0 <= i < |names| ==> 0 < names[i] < bound && names[i] !in s.files
    ensures var c := Padded(order, names, bound);
            && GoodChoice(s.files, c)
            && TrySpill(x, s, c) == SpillGroups(x.pb, s, Selected(x, s, order), names)
            && Inv(x.pb, TrySpill(x, s, c))
  {
    PaddedGood(s.files, order, names, bound);
    hide Inv, Padded, GoodChoice;
    TrySpillStep(x, s, Padded(order, names, bound));
  }

  lemma SelectedPlan(x: Fixed, s: Shard, order: seq<string>)
    requires Distinct(order)
    ensures var ids := Selected(x, s, order);
            && |ids| <= |order| && AllSpillable(s.groups, ids)
            && (MemoryUsage(x, s) > s.cfg.spillMark ==>
                  ids == Select(x.pb, s.groups, order, (MemoryUsage(x, s) - s.cfg.seventyMark) % TWO_64, 0))
            && (MemoryUsage(x, s) <= s.cfg.spillMark ==> ids == [])
            && (ids == [] ==> SpillGroups(x.pb, s, ids, []) == s && Bytes(x.pb, s.groups, ids) == 0)
  {
    var target := SpillTarget(MemoryUsage(x, s), s.cfg.seventyMark);
    SelectLength(x.pb, s.groups, order, target, 0);
    SelectSpillable(x.pb, s.groups, order, target, 0);
    assert s.(files := s.files) == s;
  }

  /** Selection as the loop does it: keys gathered so far, from position i on. */
  function SelectOnto(pb: Codec<Group>, groups: Groups, order: seq<string>, i: nat, target: int,
                      keys: seq<string>, acc: nat): seq<string>
    requires i <= |order|
    decreases |order| - i
  {
    if i == |order| then keys
    else if Spillable(groups, order[i]) then
      var acc' := acc + pb.byteSize(groups[order[i]].group.value);
      if acc' >= target then keys + [order[i]]
      else SelectOnto(pb, groups, order, i + 1, target, keys + [order[i]], acc')
    else SelectOnto(pb, groups, order, i + 1, target, keys, acc)
  }

  lemma {:induction false} SelectOntoIs(pb: Codec<Group>, groups: Groups, order: seq<string>, i: nat, target: int,
                                        keys: seq<string>, acc: nat)
    requires i <= |order|
    ensures SelectOnto(pb, groups, order, i, target, keys, acc) == keys + Select(pb, groups, order[i..], target, acc)
    decreases |order| - i
  {
    if i == |order| {
      assert keys + [] == keys;
    } else {
      assert order[i..][0] == order[i] && order[i..][1..] == order[i + 1..];
      if Spillable(groups, order[i]) {
        var acc' := acc + pb.byteSize(groups[order[i]].group.value);
        SelectOntoIs(pb, groups, order, i + 1, target, keys + [order[i]], acc');
        AppendMiddle(keys, order[i], Select(pb, groups, order[i + 1..], target, acc'));
      } else {
        SelectOntoIs(pb, groups, order, i + 1, target, keys, acc);
      }
    }
  }

  lemma AppendMiddle<T>(a: seq<T>, x: T, b: seq<T>)
    ensures a + ([x] + b) == a + [x] + b
    ensures a + ([x] + []) == a + [x]
  {
  }

  lemma NothingSelected(pb: Codec<Group>, groups: Groups)
    ensures GroupsAt(groups, []) == [] && Bytes(pb, groups, []) == 0
  {
  }

  lemma SelectionSnoc(pb: Codec<Group>, groups: Groups, keys: seq<string>, id: string)
    requires Spillable(groups, id)
    ensures GroupsAt(groups, keys + [id]) == GroupsAt(groups, keys) + [groups[id].group.value]
    ensures Bytes(pb, groups, keys + [id]) == Bytes(pb, groups, keys) + pb.byteSize(groups[id].group.value)
  {
    assert (keys + [id])[..|keys|] == keys;
  }

  lemma OrderSize(order: seq<string>, keys: set<string>)
    requires IsOrder(order, keys)
    ensures |order| == |keys|
  {
    DistinctSize(order);
  }

  lemma SelectedFit(pb: Codec<Group>, s: Shard, keys: seq<string>)
    requires Faithful(pb) && AllLoadable(pb, s.groups, keys)
    ensures forall g :: g in GroupsAt(s.groups, keys) ==> pb.serialize(g).Some?
  {
    forall g | g in GroupsAt(s.groups, keys)
      ensures pb.serialize(g).Some?
    {
      var i :| 0 <= i < |keys| && GroupsAt(s.groups, keys)[i] == g;
      assert Loadable(pb, GroupAt(s.groups, keys[i]));
    }
  }

  lemma FreshIsValid(pb: Codec<Group>, cfg: Config)
    ensures Inv(pb, Fresh(cfg))
  {
    assert (map id | id in Fresh(cfg).groups :: Fresh(cfg).groups[id].DiskBytes()) == map[];
  }
}
