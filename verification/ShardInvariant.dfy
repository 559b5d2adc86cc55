/** The representation invariant of a shard, its disk-free view, and what each step does to both. */
module ShardInvariant {
  import opened Prelude
  import opened Protobuf
  import opened Trajectories
  import opened DiskStorages
  import opened ShardModel
  import opened PlainQueue

  ghost predicate GroupOk(g: Group, id: string) {
    && g.instanceId == id && |g.trajectories| > 0
    && (forall t :: t in g.trajectories ==> t.instanceId == id)
    && (!g.complete ==> |g.trajectories| < g.groupSize)
  }

  ghost predicate InMemoryOk(e: Entry, id: string) {
    e.group.Some? && e.diskOffset == 0 && GroupOk(e.group.value, id)
  }

  /** The file decodes to a complete group with the cached count and size. */
  ghost predicate OnDiskOk(pb: Codec<Group>, files: Files, e: Entry, id: string) {
    && e.IsOnDisk()
    && Load(pb, files, e.diskOffset).Ok?
    && var g := Load(pb, files, e.diskOffset).value;
       GroupOk(g, id) && g.complete && |g.trajectories| == e.cachedSize && pb.byteSize(g) == e.cachedBytes
  }

  ghost predicate EntryOk(pb: Codec<Group>, files: Files, e: Entry, id: string) {
    InMemoryOk(e, id) || OnDiskOk(pb, files, e, id)
  }

  ghost predicate Owns(groups: Groups, id: string, offset: nat) {
    id in groups && groups[id].IsOnDisk() && groups[id].diskOffset == offset
  }

  ghost predicate EntriesOk(pb: Codec<Group>, files: Files, groups: Groups) {
    forall id :: id in groups ==> EntryOk(pb, files, groups[id], id)
  }

  /** No two entries share a file, and every file belongs to an entry. */
  ghost predicate FilesOwned(groups: Groups, files: Files) {
    && (forall a, b, o :: Owns(groups, a, o) && Owns(groups, b, o) ==> a == b)
    && (forall o :: o in files ==> exists id :: Owns(groups, id, o))
  }

  ghost predicate Inv(pb: Codec<Group>, s: Shard) {
    && EntriesOk(pb, s.files, s.groups)
    && FilesOwned(s.groups, s.files)
    && s.diskUsage == OnDiskBytes(s.groups)
  }

  // ---------- the disk-free view ----------

  ghost function Content(pb: Codec<Group>, files: Files, e: Entry): Group {
    match e.group
    case Some(g) => g
    case None =>
      match Load(pb, files, e.diskOffset)
      case Ok(g) => g
      case Failed(_) => Group("", [], 0, true)
  }

  ghost function HeldAt(pb: Codec<Group>, files: Files, e: Entry): Held {
    Held(Content(pb, files, e), e.createdTime, e.IsOnDisk())
  }

  ghost function View(pb: Codec<Group>, s: Shard): Queue {
    Queue(s.cfg, map id | id in s.groups :: HeldAt(pb, s.files, s.groups[id]), s.total, s.consumed, s.lru)
  }

  lemma ViewAgrees(pb: Codec<Group>, s: Shard)
    requires Inv(pb, s)
    ensures forall id :: id in s.groups ==>
      && View(pb, s).held[id].group.complete == s.groups[id].IsComplete()
      && |View(pb, s).held[id].group.trajectories| == s.groups[id].Count()
      && GroupOk(View(pb, s).held[id].group, id)
  {
    forall id | id in s.groups
      ensures View(pb, s).held[id].group.complete == s.groups[id].IsComplete()
      ensures |View(pb, s).held[id].group.trajectories| == s.groups[id].Count()
      ensures GroupOk(View(pb, s).held[id].group, id)
    {
      assert EntryOk(pb, s.files, s.groups[id], id);
    }
  }

  /** The counters' notion of what is buffered is the number of trajectories in the view. */
  lemma BufferedIsHeld(pb: Codec<Group>, s: Shard)
    requires Inv(pb, s)
    ensures Buffered(s.groups) == HeldCount(View(pb, s))
  {
    ViewAgrees(pb, s);
    SameCounts(s.groups, View(pb, s));
  }

  lemma SameCounts(groups: Groups, q: Queue)
    requires q.held.Keys == groups.Keys
    requires forall id :: id in groups ==> |q.held[id].group.trajectories| == groups[id].Count()
    ensures Buffered(groups) == HeldCount(q)
  {
    hide Sum;
    var a := map id | id in groups :: groups[id].Count();
    var b := map id | id in q.held :: |q.held[id].group.trajectories|;
    assert a.Keys == b.Keys;
    assert a == b;
  }

  // ---------- sums under an update of one entry ----------

  lemma OnDiskUpdate(groups: Groups, id: string, e: Entry)
    ensures OnDiskBytes(groups[id := e])
            == OnDiskBytes(groups) - (if id in groups then groups[id].DiskBytes() else 0) + e.DiskBytes()
  {
    var g := groups[id := e];
    var disk, disk' := map k | k in groups :: groups[k].DiskBytes(), map k | k in g :: g[k].DiskBytes();
    assert disk' == disk[id := e.DiskBytes()];
    SumUpdate(disk, id, e.DiskBytes());
  }

  lemma InMemoryUpdate(pb: Codec<Group>, groups: Groups, id: string, e: Entry)
    ensures InMemoryBytes(pb, groups[id := e])
            == InMemoryBytes(pb, groups) - (if id in groups then groups[id].MemoryBytes(pb) else 0) + e.MemoryBytes(pb)
  {
    var g := groups[id := e];
    var mem, mem' := map k | k in groups :: groups[k].MemoryBytes(pb), map k | k in g :: g[k].MemoryBytes(pb);
    assert mem' == mem[id := e.MemoryBytes(pb)];
    SumUpdate(mem, id, e.MemoryBytes(pb));
  }

  lemma OnDiskRemove(groups: Groups, id: string)
    requires id in groups
    ensures OnDiskBytes(groups) == OnDiskBytes(groups - {id}) + groups[id].DiskBytes()
  {
    var rest := groups - {id};
    var disk, disk' := map k | k in groups :: groups[k].DiskBytes(), map k | k in rest :: rest[k].DiskBytes();
    assert disk' == disk - {id};
    SumRemove(disk, id);
  }

  /** An entry that keeps its file, or has none, means the same in another directory. */
  lemma EntryKept(pb: Codec<Group>, files: Files, files': Files, e: Entry, id: string)
    requires EntryOk(pb, files, e, id)
    requires e.IsOnDisk() ==> e.diskOffset in files' && files'[e.diskOffset] == files[e.diskOffset]
    ensures EntryOk(pb, files', e, id) && HeldAt(pb, files', e) == HeldAt(pb, files, e)
  {
  }

  lemma OnDiskHasFile(pb: Codec<Group>, files: Files, e: Entry, id: string)
    requires EntryOk(pb, files, e, id) && e.IsOnDisk()
    ensures e.diskOffset in files
  {
  }

  /** All entries but one mean what they meant before. */
  lemma EntryChanged(pb: Codec<Group>, s: Shard, s': Shard, id: string)
    requires id in s'.groups && s'.groups == s.groups[id := s'.groups[id]]
    requires EntryOk(pb, s'.files, s'.groups[id], id)
    requires forall j :: j in s.groups && j != id ==>
      && EntryOk(pb, s'.files, s'.groups[j], j)
      && HeldAt(pb, s'.files, s'.groups[j]) == HeldAt(pb, s.files, s.groups[j])
    ensures EntriesOk(pb, s'.files, s'.groups)
    ensures View(pb, s').held == View(pb, s).held[id := HeldAt(pb, s'.files, s'.groups[id])]
  {
    hide EntryOk, HeldAt;
  }

  // ---------- one spilled group ----------

  /** Write the file of one group and switch its entry over. */
  function SpillOne(pb: Codec<Group>, s: Shard, id: string, name: nat): Shard {
    CommitOne(pb, s.(files := s.files[name := Image(pb, GroupAt(s.groups, id))]), id, name)
  }

  ghost predicate FreshName(files: Files, name: nat) {
    name > 0 && name !in files
  }

  lemma SpilledEntry(pb: Codec<Group>, s: Shard, id: string, name: nat)
    requires Faithful(pb) && Inv(pb, s) && Spillable(s.groups, id) && name > 0
    requires Loadable(pb, GroupAt(s.groups, id))
    ensures var s' := SpillOne(pb, s, id, name);
            && OnDiskOk(pb, s'.files, s'.groups[id], id)
            && HeldAt(pb, s'.files, s'.groups[id]) == HeldAt(pb, s.files, s.groups[id]).(sealed := true)
  {
    assert EntryOk(pb, s.files, s.groups[id], id);
    LoadExactly(pb, s.groups[id].group.value);
  }

  lemma SpillOneOther(pb: Codec<Group>, s: Shard, id: string, name: nat, j: string)
    requires EntriesOk(pb, s.files, s.groups) && Spillable(s.groups, id) && FreshName(s.files, name)
    requires j in s.groups && j != id
    ensures var s' := SpillOne(pb, s, id, name);
            EntryOk(pb, s'.files, s'.groups[j], j)
            && HeldAt(pb, s'.files, s'.groups[j]) == HeldAt(pb, s.files, s.groups[j])
  {
    hide EntryOk, HeldAt;
    if s.groups[j].IsOnDisk() {
      OnDiskHasFile(pb, s.files, s.groups[j], j);
    }
    EntryKept(pb, s.files, SpillOne(pb, s, id, name).files, s.groups[j], j);
  }

  lemma SpillOneEntries(pb: Codec<Group>, s: Shard, id: string, name: nat)
    requires Faithful(pb) && Inv(pb, s) && Spillable(s.groups, id) && FreshName(s.files, name)
    requires Loadable(pb, GroupAt(s.groups, id))
    ensures var s' := SpillOne(pb, s, id, name);
            EntriesOk(pb, s'.files, s'.groups) && View(pb, s') == Seal(View(pb, s), {id})
  {
    var s' := SpillOne(pb, s, id, name);
    SpilledEntry(pb, s, id, name);
    forall j | j in s.groups && j != id
      ensures EntryOk(pb, s'.files, s'.groups[j], j)
      ensures HeldAt(pb, s'.files, s'.groups[j]) == HeldAt(pb, s.files, s.groups[j])
    {
      SpillOneOther(pb, s, id, name, j);
    }
    EntryChanged(pb, s, s', id);
    SealOne(View(pb, s), id);
  }

  lemma SealOne(q: Queue, id: string)
    requires id in q.held
    ensures Seal(q, {id}) == q.(held := q.held[id := q.held[id].(sealed := true)])
  {
    assert Seal(q, {id}).held == q.held[id := q.held[id].(sealed := true)];
  }

  lemma SpillOneFiles(pb: Codec<Group>, s: Shard, id: string, name: nat)
    requires EntriesOk(pb, s.files, s.groups) && FilesOwned(s.groups, s.files)
    requires Spillable(s.groups, id) && FreshName(s.files, name)
    ensures var s' := SpillOne(pb, s, id, name); FilesOwned(s'.groups, s'.files)
  {
    hide EntryOk;
    var s' := SpillOne(pb, s, id, name);
    forall j, o
      ensures Owns(s'.groups, j, o) <==> if j == id then o == name else Owns(s.groups, j, o)
      ensures Owns(s.groups, j, o) ==> o != name && j != id
    {
      if Owns(s.groups, j, o) {
        OnDiskHasFile(pb, s.files, s.groups[j], j);
      }
    }
    forall o | o in s'.files
      ensures exists j :: Owns(s'.groups, j, o)
    {
      if o == name {
        assert Owns(s'.groups, id, o);
      } else {
        var j :| Owns(s.groups, j, o);
        assert Owns(s'.groups, j, o);
      }
    }
  }

  /** The bytes of a spilled group move from memory to disk usage, loadable or not. */
  lemma SpillOneBytes(pb: Codec<Group>, s: Shard, id: string, name: nat)
    requires Spillable(s.groups, id) && name > 0
    ensures var s', bytes := SpillOne(pb, s, id, name), pb.byteSize(GroupAt(s.groups, id));
            && s'.diskUsage == s.diskUsage + bytes
            && OnDiskBytes(s'.groups) == OnDiskBytes(s.groups) + bytes
            && InMemoryBytes(pb, s'.groups) == InMemoryBytes(pb, s.groups) - bytes
  {
    hide OnDiskBytes, InMemoryBytes;
    OnDiskUpdate(s.groups, id, SpillOne(pb, s, id, name).groups[id]);
    InMemoryUpdate(pb, s.groups, id, SpillOne(pb, s, id, name).groups[id]);
  }

  lemma SpillOneStep(pb: Codec<Group>, s: Shard, id: string, name: nat)
    requires Faithful(pb) && Inv(pb, s) && Spillable(s.groups, id) && FreshName(s.files, name)
    requires Loadable(pb, GroupAt(s.groups, id))
    ensures var s' := SpillOne(pb, s, id, name); Inv(pb, s') && View(pb, s') == Seal(View(pb, s), {id})
  {
    SpillOneEntries(pb, s, id, name);
    SpillOneFiles(pb, s, id, name);
    hide EntriesOk, FilesOwned, View, Seal;
    SpillOneBytes(pb, s, id, name);
  }

  /** An entry whose file is too large, or is named 0, stands for no group any more. */
  lemma BadSpill(pb: Codec<Group>, files: Files, e: Entry, id: string, g: Group, name: nat)
    requires Faithful(pb) && pb.serialize(g).Some? && e.group.None? && e.diskOffset == name
    requires name in files && files[name] == Image(pb, g) && (name == 0 || !Loadable(pb, g))
    ensures !EntryOk(pb, files, e, id)
  {
    LoadExactly(pb, g);
  }

  /** A spill under an unused name keeps the invariant if and only if the name is positive and the
      group's encoding is at most 100 MiB. A larger file is written but can never be loaded; under
      name 0 the entry would be neither in memory nor on disk. */
  lemma SpillOneExactly(pb: Codec<Group>, s: Shard, id: string, name: nat)
    requires Faithful(pb) && Inv(pb, s) && Spillable(s.groups, id) && name !in s.files
    requires pb.serialize(GroupAt(s.groups, id)).Some?
    ensures Inv(pb, SpillOne(pb, s, id, name)) <==> name > 0 && Loadable(pb, GroupAt(s.groups, id))
  {
    if name > 0 && Loadable(pb, GroupAt(s.groups, id)) {
      SpillOneStep(pb, s, id, name);
    } else {
      var s' := SpillOne(pb, s, id, name);
      BadSpill(pb, s'.files, s'.groups[id], id, GroupAt(s.groups, id), name);
    }
  }

  // ---------- removing one entry ----------

  lemma RemoveOther(pb: Codec<Group>, s: Shard, id: string, j: string)
    requires EntriesOk(pb, s.files, s.groups) && FilesOwned(s.groups, s.files)
    requires j in s.groups && j != id
    ensures var s' := Remove(s, id);
            EntryOk(pb, s'.files, s'.groups[j], j)
            && HeldAt(pb, s'.files, s'.groups[j]) == HeldAt(pb, s.files, s.groups[j])
  {
    hide EntryOk, HeldAt;
    if s.groups[j].IsOnDisk() {
      OnDiskHasFile(pb, s.files, s.groups[j], j);
      assert Owns(s.groups, j, s.groups[j].diskOffset);
      assert id in s.groups && s.groups[id].IsOnDisk() ==> Owns(s.groups, id, s.groups[id].diskOffset);
    }
    EntryKept(pb, s.files, Remove(s, id).files, s.groups[j], j);
  }

  lemma RemoveEntries(pb: Codec<Group>, s: Shard, id: string)
    requires EntriesOk(pb, s.files, s.groups) && FilesOwned(s.groups, s.files)
    ensures var s' := Remove(s, id);
            EntriesOk(pb, s'.files, s'.groups) && View(pb, s').held == View(pb, s).held - {id}
  {
    hide EntryOk, HeldAt, FilesOwned;
    var s' := Remove(s, id);
    forall j | j in s'.groups
      ensures EntryOk(pb, s'.files, s'.groups[j], j)
      ensures HeldAt(pb, s'.files, s'.groups[j]) == HeldAt(pb, s.files, s.groups[j])
    {
      RemoveOther(pb, s, id, j);
    }
  }

  lemma RemoveFiles(s: Shard, id: string)
    requires FilesOwned(s.groups, s.files)
    ensures FilesOwned(Remove(s, id).groups, Remove(s, id).files)
  {
    var s' := Remove(s, id);
    forall j, o
      ensures Owns(s'.groups, j, o) <==> j != id && Owns(s.groups, j, o)
    {
    }
    forall o | o in s'.files
      ensures exists j :: Owns(s'.groups, j, o)
    {
      var j :| Owns(s.groups, j, o);
      assert Owns(s'.groups, j, o);
    }
  }

  lemma RemoveStep(pb: Codec<Group>, s: Shard, id: string)
    requires Inv(pb, s)
    ensures var s' := Remove(s, id);
            && Inv(pb, s')
            && View(pb, s') == Drop(View(pb, s), {id})
  {
    RemoveEntries(pb, s, id);
    RemoveFiles(s, id);
    hide EntriesOk, FilesOwned;
    if id in s.groups {
      OnDiskRemove(s.groups, id);
    }
  }

  // ---------- storing one trajectory ----------

  lemma StoredEntry(pb: Codec<Group>, max: nat, s: Shard, t: Trajectory, now: nat)
    requires Inv(pb, s) && Stores(s, t)
    ensures var s' := Store(s, t, now);
            && InMemoryOk(s'.groups[t.instanceId], t.instanceId)
            && HeldAt(pb, s'.files, s'.groups[t.instanceId]) == Put(max, View(pb, s), t, now).0.held[t.instanceId]
            && (t.instanceId in s.groups ==> s.groups[t.instanceId].group.Some?)
  {
    if t.instanceId in s.groups {
      assert EntryOk(pb, s.files, s.groups[t.instanceId], t.instanceId);
    }
  }

  lemma StoreEntries(pb: Codec<Group>, max: nat, s: Shard, t: Trajectory, now: nat)
    requires Inv(pb, s) && Stores(s, t)
    ensures var s' := Store(s, t, now);
            EntriesOk(pb, s'.files, s'.groups)
            && View(pb, s').held == Put(max, View(pb, s), t, now).0.held
  {
    StoredEntry(pb, max, s, t, now);
    var id, s' := t.instanceId, Store(s, t, now);
    EntryChanged(pb, s, s', id);
    PutHeld(max, View(pb, s), t, now);
  }

  lemma PutHeld(max: nat, q: Queue, t: Trajectory, now: nat)
    requires Accepts(q, t)
    ensures var q' := Put(max, q, t, now).0;
            t.instanceId in q'.held && q'.held == q.held[t.instanceId := q'.held[t.instanceId]]
  {
  }

  lemma StoreFiles(pb: Codec<Group>, s: Shard, t: Trajectory, now: nat)
    requires Inv(pb, s) && Stores(s, t)
    ensures FilesOwned(Store(s, t, now).groups, s.files)
  {
    var groups' := Store(s, t, now).groups;
    if t.instanceId in s.groups {
      assert EntryOk(pb, s.files, s.groups[t.instanceId], t.instanceId);
    }
    forall j, o
      ensures Owns(groups', j, o) <==> Owns(s.groups, j, o)
    {
    }
    SameOwners(s.groups, groups', s.files);
  }

  lemma StoreStep(pb: Codec<Group>, max: nat, s: Shard, t: Trajectory, now: nat)
    requires Inv(pb, s) && Stores(s, t)
    ensures var s' := Store(s, t, now);
            && Inv(pb, s')
            && View(pb, s').held == Put(max, View(pb, s), t, now).0.held
  {
    StoredEntry(pb, max, s, t, now);
    StoreEntries(pb, max, s, t, now);
    StoreFiles(pb, s, t, now);
    hide EntriesOk, FilesOwned, View, Append, HeldAt, GroupOk;
    OnDiskUpdate(s.groups, t.instanceId, Store(s, t, now).groups[t.instanceId]);
  }

  /** Entries may change, as long as each keeps the file it has. */
  lemma SameOwners(groups: Groups, groups': Groups, files: Files)
    requires FilesOwned(groups, files)
    requires forall j, o :: Owns(groups', j, o) <==> Owns(groups, j, o)
    ensures FilesOwned(groups', files)
  {
    forall o | o in files
      ensures exists j :: Owns(groups', j, o)
    {
      var j :| Owns(groups, j, o);
      assert Owns(groups', j, o);
    }
  }

  // ---------- timeouts ----------

  lemma TimedOutEntry(pb: Codec<Group>, s: Shard, now: nat, id: string)
    requires EntriesOk(pb, s.files, s.groups) && id in s.groups
    ensures var e, e' := s.groups[id], Expire(s.cfg, s.groups[id], now);
            && EntryOk(pb, s.files, e', id)
            && HeldAt(pb, s.files, e') == Timeouts(View(pb, s), now).held[id]
            && e'.IsOnDisk() == e.IsOnDisk() && e'.diskOffset == e.diskOffset
            && e'.DiskBytes() == e.DiskBytes()
  {
    assert EntryOk(pb, s.files, s.groups[id], id);
  }

  lemma TimeoutsEntries(pb: Codec<Group>, s: Shard, now: nat)
    requires EntriesOk(pb, s.files, s.groups)
    ensures var s' := CheckTimeouts(s, now);
            EntriesOk(pb, s'.files, s'.groups) && View(pb, s') == Timeouts(View(pb, s), now)
  {
    var s' := CheckTimeouts(s, now);
    hide EntryOk, HeldAt, Expire, TimedOut;
    forall j | j in s.groups
      ensures EntryOk(pb, s'.files, s'.groups[j], j)
      ensures HeldAt(pb, s'.files, s'.groups[j]) == Timeouts(View(pb, s), now).held[j]
    {
      TimedOutEntry(pb, s, now, j);
    }
    assert View(pb, s').held == Timeouts(View(pb, s), now).held;
  }

  lemma TimeoutsKeep(pb: Codec<Group>, s: Shard, now: nat)
    requires EntriesOk(pb, s.files, s.groups)
    ensures var s' := CheckTimeouts(s, now);
            && OnDiskBytes(s'.groups) == OnDiskBytes(s.groups)
            && (forall j, o :: Owns(s'.groups, j, o) <==> Owns(s.groups, j, o))
  {
    var s' := CheckTimeouts(s, now);
    hide EntryOk, HeldAt, Expire, TimedOut;
    forall j | j in s.groups
      ensures s'.groups[j].IsOnDisk() == s.groups[j].IsOnDisk() && s'.groups[j].diskOffset == s.groups[j].diskOffset
      ensures s'.groups[j].DiskBytes() == s.groups[j].DiskBytes()
    {
      TimedOutEntry(pb, s, now, j);
    }
    assert (map id | id in s'.groups :: s'.groups[id].DiskBytes())
        == (map id | id in s.groups :: s.groups[id].DiskBytes());
  }

  lemma TimeoutsStep(pb: Codec<Group>, s: Shard, now: nat)
    requires Inv(pb, s)
    ensures var s' := CheckTimeouts(s, now);
            && Inv(pb, s')
            && View(pb, s') == Timeouts(View(pb, s), now)
  {
    TimeoutsEntries(pb, s, now);
    TimeoutsKeep(pb, s, now);
    SameOwners(s.groups, CheckTimeouts(s, now).groups, s.files);
  }

  // ---------- reset ----------

  lemma ResetStep(pb: Codec<Group>, s: Shard)
    requires Inv(pb, s)
    ensures Inv(pb, Reset(s)) && Reset(s) == Fresh(s.cfg)
  {
    var gone := set id | id in s.groups && s.groups[id].IsOnDisk() :: s.groups[id].diskOffset;
    forall o | o in s.files
      ensures o in gone
    {
      var id :| Owns(s.groups, id, o);
      assert id in s.groups;
    }
    assert Reset(s).files == map[];
    assert Reset(s).groups == map[];
  }
}
