/** How much a spill frees and how much a read delivers. */
module ShardBounds {
  import opened Prelude
  import opened Protobuf
  import opened Trajectories
  import opened ShardModel
  import opened PlainQueue
  import opened ShardInvariant
  import opened ShardSteps

  // ---------- memory ----------

  /** The estimate is the byte size of every group in memory, complete or not, plus, when deduplication is
      on, the bytes of the Bloom filter and 64 for every remembered uid. */
  lemma UsageExactly(x: Fixed, s: Shard)
    ensures MemoryUsage(x, s)
            == Sum(map id | id in s.groups && s.groups[id].group.Some? :: x.pb.byteSize(s.groups[id].group.value))
               + if s.cfg.uidDedup then x.bloomBytes + 64 * |s.lru| else 0
  {
    var bytes := map id | id in s.groups :: s.groups[id].MemoryBytes(x.pb);
    var keys := set id | id in s.groups && s.groups[id].group.Some?;
    SumWithoutZeros(bytes, keys);
    assert (map id | id in bytes && id in keys :: bytes[id])
        == (map id | id in s.groups && s.groups[id].group.Some? :: x.pb.byteSize(s.groups[id].group.value));
  }

  /** In terms of the plain queue: the groups held that no spill has sealed. */
  lemma UsageIsUnsealed(x: Fixed, s: Shard)
    requires Inv(x.pb, s)
    ensures var q := View(x.pb, s);
            MemoryUsage(x, s)
            == Sum(map id | id in q.held && !q.held[id].sealed :: x.pb.byteSize(q.held[id].group))
               + if q.cfg.uidDedup then x.bloomBytes + 64 * |q.lru| else 0
  {
    UsageExactly(x, s);
    ViewFields(x.pb, s);
    hide Inv, View, MemoryUsage, Sum;
    forall id | id in s.groups
      ensures s.groups[id].group.Some? <==> !View(x.pb, s).held[id].sealed
      ensures s.groups[id].group.Some? ==> View(x.pb, s).held[id].group == s.groups[id].group.value
    {
      UnsealedEntry(x.pb, s, id);
    }
    SameUnsealed(x.pb, s.groups, View(x.pb, s));
  }

  lemma UnsealedEntry(pb: Codec<Group>, s: Shard, id: string)
    requires Inv(pb, s) && id in s.groups
    ensures id in View(pb, s).held
    ensures s.groups[id].group.Some? <==> !View(pb, s).held[id].sealed
    ensures s.groups[id].group.Some? ==> View(pb, s).held[id].group == s.groups[id].group.value
  {
    assert EntryOk(pb, s.files, s.groups[id], id);
  }

  lemma SameUnsealed(pb: Codec<Group>, groups: Groups, q: Queue)
    requires q.held.Keys == groups.Keys
    requires forall id :: id in groups ==> (groups[id].group.Some? <==> !q.held[id].sealed)
    requires forall id :: id in groups && groups[id].group.Some? ==> q.held[id].group == groups[id].group.value
    ensures (map id | id in q.held && !q.held[id].sealed :: pb.byteSize(q.held[id].group))
         == (map id | id in groups && groups[id].group.Some? :: pb.byteSize(groups[id].group.value))
  {
    assert forall id :: id in q.held <==> id in groups;
  }

  /** An entry adds the byte size of the group it holds, or nothing. */
  lemma EntryUsage(pb: Codec<Group>, groups: Groups, id: string, e: Entry)
    requires id !in groups
    ensures InMemoryBytes(pb, map[]) == 0
    ensures InMemoryBytes(pb, groups[id := e])
            == InMemoryBytes(pb, groups) + match e.group case Some(g) => pb.byteSize(g) case None => 0
  {
    InMemoryUpdate(pb, groups, id, e);
    var none: Groups := map[];
    assert (map j | j in none :: none[j].MemoryBytes(pb)) == map[];
  }

  /** A stored write raises the bytes in memory by what its group has grown, and the estimate besides by
      64 when the filter remembers one uid more. */
  lemma StoreUsage(x: Fixed, s: Shard, t: Trajectory, now: nat)
    requires Inv(x.pb, s) && Stores(s, t)
    ensures var id, s' := t.instanceId, Store(Mark(x, s, t.uid), t, now);
            && id in s'.groups && s'.groups[id].group.Some? && (id in s.groups ==> s.groups[id].group.Some?)
            && var growth := x.pb.byteSize(s'.groups[id].group.value)
                             - if id in s.groups then x.pb.byteSize(s.groups[id].group.value) else 0;
               && InMemoryBytes(x.pb, s'.groups) == InMemoryBytes(x.pb, s.groups) + growth
               && MemoryUsage(x, s')
                  == MemoryUsage(x, s) + growth + if s.cfg.uidDedup then 64 * (|s'.lru| - |s.lru|) else 0
  {
    var id, s' := t.instanceId, Store(Mark(x, s, t.uid), t, now);
    if id in s.groups {
      assert EntryOk(x.pb, s.files, s.groups[id], id);
    }
    InMemoryUpdate(x.pb, s.groups, id, s'.groups[id]);
    hide InMemoryBytes;
  }

  // ---------- spill ----------

  /** A check spills something exactly when the estimate is above the threshold and some complete group
      is in memory. */
  lemma SpillDueExactly(x: Fixed, s: Shard, order: seq<string>)
    requires IsOrder(order, s.groups.Keys)
    ensures Selected(x, s, order) != [] <==>
      && MemoryUsage(x, s) > s.cfg.spillMark
      && exists id :: id in s.groups && s.groups[id].group.Some? && s.groups[id].group.value.complete
  {
    var target := SpillTarget(MemoryUsage(x, s), s.cfg.seventyMark);
    SelectSomething(x.pb, s.groups, order, target, 0);
    hide MemoryUsage, SpillTarget, Select;
    if id :| id in s.groups && Spillable(s.groups, id) {
      assert id in Elements(order);
      assert Spillable(s.groups, id) && id in order;
    }
  }

  lemma {:induction false} SelectSomething(pb: Codec<Group>, groups: Groups, order: seq<string>, target: int, acc: nat)
    ensures Select(pb, groups, order, target, acc) != [] <==> exists id :: id in order && Spillable(groups, id)
  {
    if order != [] {
      SelectSomething(pb, groups, order[1..], target, acc);
      assert order[0] in order && forall id :: id in order <==> id == order[0] || id in order[1..];
    }
  }

  lemma {:induction false} BytesCons(pb: Codec<Group>, groups: Groups, id: string, ids: seq<string>)
    ensures Bytes(pb, groups, [id] + ids) == pb.byteSize(GroupAt(groups, id)) + Bytes(pb, groups, ids)
  {
    var all := [id] + ids;
    if ids == [] {
      assert all[..0] == [];
    } else {
      var init := ids[..|ids| - 1];
      BytesCons(pb, groups, id, init);
      assert all[..|all| - 1] == [id] + init;
    }
  }

  /** Selection stops as soon as the target is reached, and otherwise takes everything. */
  lemma {:induction false} SelectReaches(pb: Codec<Group>, groups: Groups, order: seq<string>, target: int, acc: nat)
    ensures var ids := Select(pb, groups, order, target, acc);
            && (acc + Bytes(pb, groups, ids) >= target
                || forall id :: id in order && Spillable(groups, id) ==> id in ids)
            && (acc < target && ids != [] ==> acc + Bytes(pb, groups, ids[..|ids| - 1]) < target)
  {
    if order != [] {
      var rest := order[1..];
      if Spillable(groups, order[0]) {
        var acc' := acc + pb.byteSize(groups[order[0]].group.value);
        var tail := if acc' >= target then [] else Select(pb, groups, rest, target, acc');
        SelectReaches(pb, groups, rest, target, acc');
        BytesCons(pb, groups, order[0], tail);
        var ids := [order[0]] + tail;
        if tail != [] {
          BytesCons(pb, groups, order[0], tail[..|tail| - 1]);
          assert ids[..|ids| - 1] == [order[0]] + tail[..|tail| - 1];
        } else {
          assert ids[..|ids| - 1] == [];
        }
      } else {
        SelectReaches(pb, groups, rest, target, acc);
      }
    }
  }

  /** `size_t` subtraction wraps around below zero. */
  lemma TargetValue(memory: nat, seventyMark: nat)
    requires memory < TWO_64 && seventyMark < TWO_64
    ensures SpillTarget(memory, seventyMark)
            == if memory >= seventyMark then memory - seventyMark else memory - seventyMark + TWO_64
  {
  }

  /** Either the selected bytes reach the target, or nothing is left to spill. */
  lemma SpillReaches(x: Fixed, s: Shard, c: Choice)
    requires IsOrder(c.order, s.groups.Keys) && AllPositive(c.names) && MemoryUsage(x, s) > s.cfg.spillMark
    ensures || Bytes(x.pb, s.groups, Selected(x, s, c.order)) >= SpillTarget(MemoryUsage(x, s), s.cfg.seventyMark)
            || forall id :: !Spillable(TrySpill(x, s, c).groups, id)
  {
    var target := SpillTarget(MemoryUsage(x, s), s.cfg.seventyMark);
    var ids, s' := Selected(x, s, c.order), TrySpill(x, s, c);
    TrySpillBytes(x, s, c);
    SelectReaches(x.pb, s.groups, c.order, target, 0);
    hide TrySpill, MemoryUsage, SpillTarget;
    if Bytes(x.pb, s.groups, ids) < target {
      forall id
        ensures !Spillable(s'.groups, id)
      {
        assert id in s.groups ==> id in Elements(c.order);
      }
    }
  }

  /** After a spill check memory is below one of the two marks, or nothing is left to spill.
      When the usage is below the 70% mark the unsigned subtraction wraps around, the target is
      out of reach, and every complete group goes. */
  lemma SpillBound(x: Fixed, s: Shard, c: Choice)
    requires IsOrder(c.order, s.groups.Keys) && AllPositive(c.names)
    requires s.cfg.seventyMark < TWO_64 && MemoryUsage(x, s) < TWO_64
    ensures var s' := TrySpill(x, s, c);
            || MemoryUsage(x, s') <= s.cfg.spillMark
            || MemoryUsage(x, s') <= s.cfg.seventyMark
            || forall id :: !Spillable(s'.groups, id)
    ensures s.cfg.spillMark < MemoryUsage(x, s) < s.cfg.seventyMark ==>
            forall id :: !Spillable(TrySpill(x, s, c).groups, id)
  {
    TrySpillBytes(x, s, c);
    UsageIsNat(x, s);
    UsageIsNat(x, TrySpill(x, s, c));
    TargetValue(MemoryUsage(x, s), s.cfg.seventyMark);
    hide TrySpill, MemoryUsage, SpillTarget, Spillable;
    if MemoryUsage(x, s) > s.cfg.spillMark {
      SpillReaches(x, s, c);
    }
  }

  lemma UsageIsNat(x: Fixed, s: Shard)
    ensures MemoryUsage(x, s) >= 0
  {
    SumBound(map id | id in s.groups :: s.groups[id].MemoryBytes(x.pb));
  }

  /** A spill above the 70% mark takes no group more than it needs. */
  lemma SpillMinimal(x: Fixed, s: Shard, c: Choice)
    requires s.cfg.seventyMark < MemoryUsage(x, s) < TWO_64
    ensures var ids := Selected(x, s, c.order);
            ids != [] ==> MemoryUsage(x, s) - Bytes(x.pb, s.groups, ids[..|ids| - 1]) > s.cfg.seventyMark
  {
    TargetValue(MemoryUsage(x, s), s.cfg.seventyMark);
    SelectReaches(x.pb, s.groups, c.order, SpillTarget(MemoryUsage(x, s), s.cfg.seventyMark), 0);
    hide MemoryUsage, SpillTarget, Select;
  }

  /** A spill moves bytes: disk usage rises and memory falls by the same amount, what it reports;
      and disk usage goes on being the sum of the cached bytes. */
  lemma SpillConservesBytes(x: Fixed, s: Shard, c: Choice)
    requires Inv(x.pb, s) && Distinct(c.order) && AllPositive(c.names)
    ensures var s', spilled := TrySpill(x, s, c), Bytes(x.pb, s.groups, Selected(x, s, c.order));
            && s'.diskUsage - s.diskUsage == spilled == MemoryUsage(x, s) - MemoryUsage(x, s')
            && s'.diskUsage == OnDiskBytes(s'.groups) >= 0
  {
    TrySpillBytes(x, s, c);
    DiskUsageIsNat(x.pb, s);
  }

  lemma DiskUsageIsNat(pb: Codec<Group>, s: Shard)
    requires Inv(pb, s)
    ensures s.diskUsage >= 0
  {
    var disk := map id | id in s.groups :: s.groups[id].DiskBytes();
    forall id | id in disk
      ensures disk[id] >= 0
    {
      assert EntryOk(pb, s.files, s.groups[id], id);
    }
    SumBound(disk);
  }

  // ---------- read ----------

  ghost function ReadyIds(groups: Groups): set<string> {
    set id | id in groups && groups[id].IsComplete()
  }

  function Limit(max: int, ready: nat): nat {
    if 0 < max < ready then max else ready
  }

  /** Traversal order restricted to the complete groups. */
  function Complete(groups: Groups, order: seq<string>): seq<string> {
    if order == [] then []
    else if order[0] in groups && groups[order[0]].IsComplete() then [order[0]] + Complete(groups, order[1..])
    else Complete(groups, order[1..])
  }

  lemma {:induction false} PickPrefix(groups: Groups, order: seq<string>, max: int, taken: nat)
    ensures var all := Complete(groups, order);
            Pick(groups, order, max, taken)
            == if max <= 0 then all else if taken >= max then [] else all[..Limit(max - taken, |all|)]
  {
    if order != [] {
      PickPrefix(groups, order[1..], max, taken);
      PickPrefix(groups, order[1..], max, taken + 1);
    }
  }

  lemma {:induction false} CompleteElements(groups: Groups, order: seq<string>)
    requires Distinct(order)
    ensures var all := Complete(groups, order);
            Distinct(all) && forall id :: id in all <==> id in order && id in groups && groups[id].IsComplete()
  {
    if order != [] {
      CompleteElements(groups, order[1..]);
      assert order[0] !in order[1..];
    }
  }

  lemma CompleteCount(groups: Groups, order: seq<string>)
    requires IsOrder(order, groups.Keys)
    ensures |Complete(groups, order)| == |ReadyIds(groups)|
  {
    var all := Complete(groups, order);
    CompleteElements(groups, order);
    DistinctSize(all);
    forall id
      ensures id in Elements(all) <==> id in ReadyIds(groups)
    {
      assert id in groups <==> id in Elements(order);
    }
    assert Elements(all) == ReadyIds(groups);
  }

  /** A read delivers min(max, ready) groups, or all of them when max is not positive, and
      leaves the others ready. */
  lemma ReadCount(x: Fixed, s: Shard, max: int, order: seq<string>)
    requires Inv(x.pb, s) && IsOrder(order, s.groups.Keys)
    ensures var (s', gs) := Read(x, s, max, order);
            && |gs| == (if 0 < max < |ReadyIds(s.groups)| then max else |ReadyIds(s.groups)|)
            && |ReadyIds(s'.groups)| == |ReadyIds(s.groups)| - |gs|
  {
    var ids := Pick(s.groups, order, max, 0);
    ReadStep(x, s, max, order);
    SizeFromMultiset(DeliveryOrder(s.groups, ids), ids);
    PickPrefix(s.groups, order, max, 0);
    CompleteCount(s.groups, order);
    PickComplete(s.groups, order, max, 0);
    RemoveAllGroups(s, ids);
    hide Inv, View, Pick, Complete, DeliveryOrder, RemoveAll, Drop;
    ReadyAfter(s.groups, ids);
  }

  lemma SizeFromMultiset(a: seq<string>, b: seq<string>)
    requires multiset(a) == multiset(b)
    ensures |a| == |b|
  {
    assert |multiset(a)| == |a| && |multiset(b)| == |b|;
  }

  lemma ReadyAfter(groups: Groups, ids: seq<string>)
    requires Distinct(ids) && forall id :: id in ids ==> id in groups && groups[id].IsComplete()
    ensures |ReadyIds(groups - Elements(ids))| == |ReadyIds(groups)| - |ids|
  {
    DistinctSize(ids);
    assert ReadyIds(groups - Elements(ids)) == ReadyIds(groups) - Elements(ids);
    assert Elements(ids) <= ReadyIds(groups);
  }

  lemma {:induction false} RemoveAllGroups(s: Shard, ids: seq<string>)
    ensures RemoveAll(s, ids).groups == s.groups - Elements(ids)
  {
    if ids == [] {
      assert s.groups - {} == s.groups;
    } else {
      var n := |ids| - 1;
      RemoveAllGroups(s, ids[..n]);
      assert ids == ids[..n] + [ids[n]];
      assert Elements(ids) == Elements(ids[..n]) + {ids[n]};
      var before := s.groups - Elements(ids[..n]);
      assert before - {ids[n]} == s.groups - Elements(ids);
      assert ids[n] !in before ==> before - {ids[n]} == before;
    }
  }
}
