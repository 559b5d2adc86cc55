/** What one BufferShard operation does to the shard, as functions of its state. The
    shard class is proved against these; the theorems are about these. */
module ShardModel {
  import opened Prelude
  import opened Protobuf
  import opened Trajectories
  import opened DiskStorages
  import opened Lru

  /** The two water marks are the configured fractions of the memory limit, already in bytes. */
  datatype Config = Config(groupSize: int, timeoutSeconds: int, uidDedup: bool, spillMark: nat, seventyMark: nat)

  const NANOS_PER_SECOND: nat := 1_000_000_000

  datatype Entry = Entry(group: Option<Group>, diskOffset: nat, createdTime: nat, cachedSize: int, cachedBytes: int) {
    predicate IsOnDisk() {
      diskOffset > 0 && group.None?
    }

    predicate IsComplete() {
      match group
      case Some(g) => g.complete
      case None => true
    }

    function TrajectoriesSize(): int {
      match group
      case Some(g) => |g.trajectories|
      case None => 0
    }

    /** Trajectories held, wherever they are. */
    function Count(): int {
      if IsOnDisk() then cachedSize else TrajectoriesSize()
    }

    function DiskBytes(): int {
      if IsOnDisk() then cachedBytes else 0
    }

    function MemoryBytes(pb: Codec<Group>): int {
      match group
      case Some(g) => pb.byteSize(g)
      case None => 0
    }
  }

  type Groups = map<string, Entry>

  datatype Shard = Shard(cfg: Config, groups: Groups, total: int, consumed: int, diskUsage: int,
                         lru: seq<string>, files: Files)

  /** What never changes during a shard's life. */
  datatype Fixed = Fixed(pb: Codec<Group>, dedupMax: nat, bloomBytes: nat)

  /** The choices the environment makes for one spill: the traversal order of the group map
      and the file names handed out. */
  datatype Choices = Choices(order: seq<string>, names: seq<nat>)

  type Choice = c: Choices | |c.names| >= |c.order| witness Choices([], [])

  const EMPTY_ENTRY: Entry := Entry(None, 0, 0, 0, 0)

  function Fresh(cfg: Config): Shard {
    Shard(cfg, map[], 0, 0, 0, [], map[])
  }

  // ---------- sums over the entries ----------

  ghost function Buffered(groups: Groups): int {
    Sum(map id | id in groups :: groups[id].Count())
  }

  ghost function OnDiskBytes(groups: Groups): int {
    Sum(map id | id in groups :: groups[id].DiskBytes())
  }

  ghost function InMemoryBytes(pb: Codec<Group>, groups: Groups): int {
    Sum(map id | id in groups :: groups[id].MemoryBytes(pb))
  }

  ghost function FilterBytes(x: Fixed, s: Shard): nat {
    if s.cfg.uidDedup then x.bloomBytes + |s.lru| * 64 else 0
  }

  ghost function MemoryUsage(x: Fixed, s: Shard): int {
    InMemoryBytes(x.pb, s.groups) + FilterBytes(x, s)
  }

  // ---------- spill ----------

  predicate Spillable(groups: Groups, id: string) {
    id in groups && groups[id].group.Some? && groups[id].group.value.complete
  }

  /** Complete in-memory groups in traversal order until their bytes reach the target. */
  function Select(pb: Codec<Group>, groups: Groups, order: seq<string>, target: int, acc: nat): seq<string> {
    if order == [] then []
    else if Spillable(groups, order[0]) then
      var acc' := acc + pb.byteSize(groups[order[0]].group.value);
      [order[0]] + if acc' >= target then [] else Select(pb, groups, order[1..], target, acc')
    else Select(pb, groups, order[1..], target, acc)
  }

  /** `size_t` subtraction. */
  function SpillTarget(memory: int, seventyMark: nat): (t: nat) {
    (memory - seventyMark) % TWO_64
  }

  ghost function Selected(x: Fixed, s: Shard, order: seq<string>): seq<string> {
    if MemoryUsage(x, s) <= s.cfg.spillMark then []
    else Select(x.pb, s.groups, order, SpillTarget(MemoryUsage(x, s), s.cfg.seventyMark), 0)
  }

  function GroupAt(groups: Groups, id: string): Group {
    if id in groups && groups[id].group.Some? then groups[id].group.value else Group(id, [], 0, true)
  }

  function GroupsAt(groups: Groups, ids: seq<string>): (gs: seq<Group>)
    ensures |gs| == |ids|
  {
    seq(|ids|, i requires 0 <= i < |ids| => GroupAt(groups, ids[i]))
  }

  function CommitOne(pb: Codec<Group>, s: Shard, id: string, name: nat): Shard {
    if id !in s.groups then s
    else
      var e := s.groups[id];
      var bytes := e.MemoryBytes(pb);
      s.(groups := s.groups[id := Entry(None, name, e.createdTime, e.TrajectoriesSize(), bytes)],
         diskUsage := s.diskUsage + bytes)
  }

  function CommitAll(pb: Codec<Group>, s: Shard, ids: seq<string>, names: seq<nat>): Shard
    requires |ids| == |names|
  {
    if ids == [] then s
    else
      var n := |ids| - 1;
      CommitOne(pb, CommitAll(pb, s, ids[..n], names[..n]), ids[n], names[n])
  }

  /** All files are written first, then every entry is switched over. */
  function SpillGroups(pb: Codec<Group>, s: Shard, ids: seq<string>, names: seq<nat>): Shard
    requires |ids| == |names|
  {
    CommitAll(pb, s.(files := WithFiles(pb, s.files, names, GroupsAt(s.groups, ids))), ids, names)
  }

  lemma {:induction false} SelectLength(pb: Codec<Group>, groups: Groups, order: seq<string>, target: int, acc: nat)
    ensures |Select(pb, groups, order, target, acc)| <= |order|
  {
    if order != [] {
      SelectLength(pb, groups, order[1..], target, acc);
      if Spillable(groups, order[0]) {
        SelectLength(pb, groups, order[1..], target, acc + pb.byteSize(groups[order[0]].group.value));
      }
    }
  }

  ghost function TrySpill(x: Fixed, s: Shard, c: Choice): Shard {
    var ids := Selected(x, s, c.order);
    SelectLength(x.pb, s.groups, c.order, SpillTarget(MemoryUsage(x, s), s.cfg.seventyMark), 0);
    SpillGroups(x.pb, s, ids, c.names[..|ids|])
  }

  // ---------- write ----------

  function Mark(x: Fixed, s: Shard, uid: string): Shard {
    if s.cfg.uidDedup then s.(lru := Touch(s.lru, uid, x.dedupMax)) else s
  }

  predicate Duplicate(s: Shard, uid: string) {
    s.cfg.uidDedup && uid in s.lru
  }

  predicate Sealed(s: Shard, id: string) {
    id in s.groups && s.groups[id].IsOnDisk()
  }

  function Append(g: Group, t: Trajectory): Group {
    var ts := g.trajectories + [t];
    g.(trajectories := ts, complete := g.complete || |ts| >= g.groupSize)
  }

  /** The group is created on first use with the group size configured at that moment. */
  function Store(s: Shard, t: Trajectory, now: nat): Shard {
    var id := t.instanceId;
    var found := if id in s.groups then s.groups[id] else EMPTY_ENTRY;
    var e := if found.group.Some? then found
             else found.(group := Some(Group(id, [], s.cfg.groupSize, false)), createdTime := now);
    s.(groups := s.groups[id := e.(group := Some(Append(e.group.value, t)))], total := s.total + 1)
  }

  /** Whether this write stores its trajectory. */
  predicate Stores(s: Shard, t: Trajectory) {
    !Duplicate(s, t.uid) && !Sealed(s, t.instanceId)
  }

  ghost function Write(x: Fixed, s: Shard, t: Trajectory, now: nat, c: Choice): (Shard, bool) {
    var s' := Mark(x, s, t.uid);
    if Duplicate(s, t.uid) then (s', false)
    else if Sealed(s', t.instanceId) then (s', true)
    else (TrySpill(x, Store(s', t, now), c), true)
  }

  // ---------- read ----------

  /** Complete groups in traversal order, at most `max` of them when max is positive. */
  function Pick(groups: Groups, order: seq<string>, max: int, taken: nat): seq<string> {
    if order == [] then []
    else if order[0] !in groups || !groups[order[0]].IsComplete() then Pick(groups, order[1..], max, taken)
    else if max > 0 && taken >= max then []
    else [order[0]] + Pick(groups, order[1..], max, taken + 1)
  }

  /** The picked groups still in memory, and the file names of the others, in order. */
  function FromMemory(groups: Groups, ids: seq<string>): seq<Group> {
    if ids == [] then []
    else
      var n := |ids| - 1;
      FromMemory(groups, ids[..n])
      + if ids[n] in groups && groups[ids[n]].group.Some? then [groups[ids[n]].group.value] else []
  }

  function OffsetsOf(groups: Groups, ids: seq<string>): seq<nat> {
    if ids == [] then []
    else
      var n := |ids| - 1;
      OffsetsOf(groups, ids[..n])
      + if ids[n] in groups && groups[ids[n]].IsOnDisk() then [groups[ids[n]].diskOffset] else []
  }

  /** Drop one entry, together with its file. */
  function Remove(s: Shard, id: string): Shard {
    if id !in s.groups then s
    else
      var e := s.groups[id];
      s.(groups := s.groups - {id},
         diskUsage := s.diskUsage - e.DiskBytes(),
         files := if e.IsOnDisk() then s.files - {e.diskOffset} else s.files)
  }

  function RemoveAll(s: Shard, ids: seq<string>): Shard {
    if ids == [] then s else Remove(RemoveAll(s, ids[..|ids| - 1]), ids[|ids| - 1])
  }

  function SizeOf(gs: seq<Group>): nat {
    if gs == [] then 0 else SizeOf(gs[..|gs| - 1]) + |gs[|gs| - 1].trajectories|
  }

  lemma SizeSnoc(gs: seq<Group>, g: Group)
    ensures SizeOf(gs + [g]) == SizeOf(gs) + |g.trajectories|
  {
    assert (gs + [g])[..|gs|] == gs;
  }

  lemma {:induction false} SizeAppend(a: seq<Group>, b: seq<Group>)
    ensures SizeOf(a + b) == SizeOf(a) + SizeOf(b)
  {
    if b == [] {
      assert a + b == a;
    } else {
      var init, last := b[..|b| - 1], b[|b| - 1];
      SizeAppend(a, init);
      assert a + b == (a + init) + [last];
      SizeSnoc(a + init, last);
    }
  }

  /** In-memory groups first, then the loaded ones. */
  function Delivered(pb: Codec<Group>, s: Shard, ids: seq<string>): seq<Group> {
    FromMemory(s.groups, ids)
    + match LoadAll(pb, s.files, OffsetsOf(s.groups, ids))
      case Ok(gs) => gs
      case Failed(_) => []
  }

  function Read(x: Fixed, s: Shard, max: int, order: seq<string>): (Shard, seq<Group>) {
    var ids := Pick(s.groups, order, max, 0);
    var gs := Delivered(x.pb, s, ids);
    var s' := RemoveAll(s, ids);
    (s'.(consumed := s'.consumed + SizeOf(gs)), gs)
  }

  // ---------- timeouts, reset, configuration ----------

  predicate Expired(cfg: Config, e: Entry, now: nat) {
    !e.IsComplete() && now - e.createdTime >= cfg.timeoutSeconds * NANOS_PER_SECOND
  }

  function Expire(cfg: Config, e: Entry, now: nat): Entry {
    if Expired(cfg, e, now) then e.(group := Some(e.group.value.(complete := true))) else e
  }

  function CheckTimeouts(s: Shard, now: nat): Shard {
    s.(groups := map id | id in s.groups :: Expire(s.cfg, s.groups[id], now))
  }

  function Reset(s: Shard): Shard {
    Shard(s.cfg, map[], 0, 0, 0, [],
          s.files - set id | id in s.groups && s.groups[id].IsOnDisk() :: s.groups[id].diskOffset)
  }

  function Reconfigure(s: Shard, cfg: Config): Shard {
    s.(cfg := cfg)
  }
}
