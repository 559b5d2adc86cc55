/** Spills and reads that are suspended between their start and their finish while other
    operations run. Every such run amounts to a run of atomic operations. */
module Suspension {
  import opened Prelude
  import opened Protobuf
  import opened Trajectories
  import opened DiskStorages
  import opened Lru
  import opened ShardModel
  import opened PlainQueue
  import opened ShardInvariant
  import opened ShardSteps
  import opened ShardHistory
  import opened BufferShards

  // ---------- what is still to be done for one id ----------

  /** A group being written to a file, a group already handed to a reader, a file being loaded. */
  datatype Part =
    | SpillPart(id: string, name: nat, group: Group)
    | TakePart(id: string, group: Group)
    | LoadPart(id: string, offset: nat, group: Group)

  function Slot(p: Part): nat {
    match p
    case SpillPart(_, name, _) => name
    case TakePart(_, _) => 0
    case LoadPart(_, offset, _) => offset
  }

  /** What finishing does for one id. */
  function Apply(pb: Codec<Group>, s: Shard, p: Part): Shard {
    match p
    case SpillPart(id, name, g) => CommitOne(pb, s.(files := s.files[name := Image(pb, g)]), id, name)
    case TakePart(id, _) => s.(groups := s.groups - {id})
    case LoadPart(id, offset, g) =>
      s.(groups := s.groups - {id}, files := s.files - {offset}, consumed := s.consumed + |g.trajectories|)
  }

  function ApplyAll(pb: Codec<Group>, s: Shard, ps: seq<Part>): Shard
    decreases |ps|
  {
    if ps == [] then s else ApplyAll(pb, Apply(pb, s, ps[0]), ps[1..])
  }

  /** The shard is as the suspended operation left it. */
  predicate Ready(pb: Codec<Group>, s: Shard, p: Part) {
    && p.id in s.groups
    && var e := s.groups[p.id];
       match p
       case SpillPart(_, name, g) => e.group == Some(g) && g.complete && name > 0 && name !in s.files
       case TakePart(_, _) => e.group.None? && e.diskOffset == 0
       case LoadPart(_, offset, g) =>
         e.group.None? && e.diskOffset == offset > 0 && Load(pb, s.files, offset) == Ok(g)
  }

  predicate Apart(p: Part, q: Part) {
    p.id != q.id && (Slot(p) == Slot(q) ==> Slot(p) == 0)
  }

  ghost predicate AllReady(pb: Codec<Group>, s: Shard, ps: seq<Part>) {
    && (forall i :: 0 <= i < |ps| ==> Ready(pb, s, ps[i]))
    && (forall i, j :: 0 <= i < j < |ps| ==> Apart(ps[i], ps[j]))
  }

  lemma ReadyKept(pb: Codec<Group>, s: Shard, p: Part, q: Part)
    requires Ready(pb, s, p) && Ready(pb, s, q) && Apart(p, q)
    ensures Ready(pb, Apply(pb, s, p), q)
  {
  }

  function GroupsAfter(pb: Codec<Group>, groups: Groups, p: Part): Groups
    requires p.id in groups
  {
    match p
    case SpillPart(id, name, g) =>
      groups[id := Entry(None, name, groups[id].createdTime, |g.trajectories|, pb.byteSize(g))]
    case _ => groups - {p.id}
  }

  function FilesAfter(pb: Codec<Group>, files: Files, p: Part): Files {
    match p
    case SpillPart(_, name, g) => files[name := Image(pb, g)]
    case TakePart(_, _) => files
    case LoadPart(_, offset, _) => files - {offset}
  }

  lemma ApplyIs(pb: Codec<Group>, s: Shard, p: Part)
    requires Ready(pb, s, p)
    ensures Apply(pb, s, p)
            == s.(groups := GroupsAfter(pb, s.groups, p), files := FilesAfter(pb, s.files, p),
                  diskUsage := s.diskUsage + (if p.SpillPart? then pb.byteSize(p.group) else 0),
                  consumed := s.consumed + (if p.LoadPart? then |p.group.trajectories| else 0))
  {
  }

  lemma GroupsCommute(pb: Codec<Group>, groups: Groups, p: Part, q: Part)
    requires p.id in groups && q.id in groups && p.id != q.id
    ensures q.id in GroupsAfter(pb, groups, p) && p.id in GroupsAfter(pb, groups, q)
    ensures GroupsAfter(pb, GroupsAfter(pb, groups, p), q) == GroupsAfter(pb, GroupsAfter(pb, groups, q), p)
  {
  }

  lemma FilesCommute(pb: Codec<Group>, files: Files, p: Part, q: Part)
    requires Slot(p) != Slot(q) || p.TakePart? || q.TakePart?
    ensures FilesAfter(pb, FilesAfter(pb, files, p), q) == FilesAfter(pb, FilesAfter(pb, files, q), p)
  {
    hide Image;
  }

  /** Finishing two ids may happen in either order. */
  lemma Commute(pb: Codec<Group>, s: Shard, p: Part, q: Part)
    requires Ready(pb, s, p) && Ready(pb, s, q) && Apart(p, q)
    ensures Apply(pb, Apply(pb, s, p), q) == Apply(pb, Apply(pb, s, q), p)
  {
    GroupsCommute(pb, s.groups, p, q);
    assert Slot(p) != Slot(q) || p.TakePart? || q.TakePart?;
    FilesCommute(pb, s.files, p, q);
    ReadyKept(pb, s, p, q);
    ReadyKept(pb, s, q, p);
    hide Apply, Ready, GroupsAfter, FilesAfter;
    ApplyIs(pb, s, p);
    ApplyIs(pb, s, q);
    ApplyIs(pb, Apply(pb, s, p), q);
    ApplyIs(pb, Apply(pb, s, q), p);
  }

  // ---------- order does not matter ----------

  lemma ApplyHead(pb: Codec<Group>, s: Shard, ps: seq<Part>)
    requires ps != []
    ensures ApplyAll(pb, s, ps) == ApplyAll(pb, Apply(pb, s, ps[0]), ps[1..])
  {
  }

  lemma ApplyNone(pb: Codec<Group>, s: Shard)
    ensures ApplyAll(pb, s, []) == s
  {
  }

  lemma {:induction false} ApplyAppend(pb: Codec<Group>, s: Shard, a: seq<Part>, b: seq<Part>)
    ensures ApplyAll(pb, s, a + b) == ApplyAll(pb, ApplyAll(pb, s, a), b)
    decreases |a|
  {
    hide ApplyAll, Apply;
    if a == [] {
      assert a + b == b;
      ApplyNone(pb, s);
    } else {
      ApplyHead(pb, s, a);
      ApplyHead(pb, s, a + b);
      ApplyAppend(pb, Apply(pb, s, a[0]), a[1..], b);
      assert (a + b)[0] == a[0] && (a + b)[1..] == a[1..] + b;
    }
  }

  function Dropped(ps: seq<Part>, k: nat): seq<Part>
    requires k < |ps|
  {
    ps[..k] + ps[k + 1..]
  }

  lemma DroppedRest(ps: seq<Part>, k: nat)
    requires k < |ps|
    ensures Dropped(ps, 0) == ps[1..]
    ensures k > 0 ==> Dropped(ps, k)[0] == ps[0] && Dropped(ps, k)[1..] == Dropped(ps[1..], k - 1) && ps[1..][k - 1] == ps[k]
    ensures k > 0 ==> |Dropped(ps, k)| > 0
  {
  }

  lemma ApplyKeepsReady(pb: Codec<Group>, s: Shard, ps: seq<Part>, k: nat)
    requires AllReady(pb, s, ps) && k < |ps|
    ensures AllReady(pb, Apply(pb, s, ps[k]), Dropped(ps, k))
  {
    hide Apply, Ready;
    var rest := Dropped(ps, k);
    forall i | 0 <= i < |rest|
      ensures Ready(pb, Apply(pb, s, ps[k]), rest[i])
    {
      var j := if i < k then i else i + 1;
      assert rest[i] == ps[j];
      assert Apart(ps[k], ps[j]) || Apart(ps[j], ps[k]);
      ReadyKept(pb, s, ps[k], ps[j]);
    }
  }

  /** Any part may be finished first. */
  lemma {:induction false} PullOne(pb: Codec<Group>, s: Shard, ps: seq<Part>, k: nat)
    requires AllReady(pb, s, ps) && k < |ps|
    ensures ApplyAll(pb, s, ps) == ApplyAll(pb, Apply(pb, s, ps[k]), Dropped(ps, k))
    decreases k
  {
    hide Apply, ApplyAll, Ready, AllReady, Apart, Dropped;
    DroppedRest(ps, k);
    ApplyHead(pb, s, ps);
    if k > 0 {
      TwoReady(pb, s, ps, k);
      Commute(pb, s, ps[0], ps[k]);
      ApplyKeepsReady(pb, s, ps, 0);
      PullOne(pb, Apply(pb, s, ps[0]), ps[1..], k - 1);
      ApplyHead(pb, Apply(pb, s, ps[k]), Dropped(ps, k));
    }
  }

  lemma TwoReady(pb: Codec<Group>, s: Shard, ps: seq<Part>, k: nat)
    requires AllReady(pb, s, ps) && 0 < k < |ps|
    ensures Ready(pb, s, ps[0]) && Ready(pb, s, ps[k]) && Apart(ps[0], ps[k])
  {
    hide Ready, Apart;
  }

  /** A whole suspended operation may be finished before the others. */
  lemma {:induction false} PullBlock(pb: Codec<Group>, s: Shard, a: seq<Part>, f: seq<Part>, b: seq<Part>)
    requires AllReady(pb, s, a + f + b)
    ensures ApplyAll(pb, s, a + f + b) == ApplyAll(pb, ApplyAll(pb, s, f), a + b)
    ensures AllReady(pb, ApplyAll(pb, s, f), a + b)
    decreases |f|
  {
    hide Apply, Ready;
    if f == [] {
      assert a + f + b == a + b;
    } else {
      hide AllReady;
      var ps := a + f + b;
      PullOne(pb, s, ps, |a|);
      ApplyKeepsReady(pb, s, ps, |a|);
      assert ps[|a|] == f[0] && Dropped(ps, |a|) == a + f[1..] + b;
      PullBlock(pb, Apply(pb, s, f[0]), a, f[1..], b);
    }
  }

  // ---------- what finishing leaves alone ----------

  lemma {:induction false} OtherId(pb: Codec<Group>, s: Shard, ps: seq<Part>, id: string)
    requires forall i :: 0 <= i < |ps| ==> ps[i].id != id
    ensures var a := ApplyAll(pb, s, ps);
            (id in a.groups <==> id in s.groups) && (id in s.groups ==> a.groups[id] == s.groups[id])
    decreases |ps|
  {
    if ps != [] {
      OtherId(pb, Apply(pb, s, ps[0]), ps[1..], id);
    }
  }

  lemma {:induction false} OtherSlot(pb: Codec<Group>, s: Shard, ps: seq<Part>, o: nat)
    requires forall i :: 0 <= i < |ps| ==> ps[i].TakePart? || Slot(ps[i]) != o
    ensures var a := ApplyAll(pb, s, ps);
            (o in a.files <==> o in s.files) && (o in s.files ==> a.files[o] == s.files[o])
    decreases |ps|
  {
    hide Image;
    if ps != [] {
      OtherSlot(pb, Apply(pb, s, ps[0]), ps[1..], o);
    }
  }

  lemma {:induction false} ApplyFrame(pb: Codec<Group>, s: Shard, ps: seq<Part>)
    ensures var a := ApplyAll(pb, s, ps);
            a.cfg == s.cfg && a.lru == s.lru && a.total == s.total && a.groups.Keys <= s.groups.Keys
    decreases |ps|
  {
    if ps != [] {
      ApplyFrame(pb, Apply(pb, s, ps[0]), ps[1..]);
    }
  }

  lemma RestReady(pb: Codec<Group>, s: Shard, ps: seq<Part>)
    requires AllReady(pb, s, ps) && ps != []
    ensures AllReady(pb, Apply(pb, s, ps[0]), ps[1..]) && Ready(pb, s, ps[0])
    ensures forall i :: 0 <= i < |ps| - 1 ==> Apart(ps[0], ps[1..][i])
  {
    ApplyKeepsReady(pb, s, ps, 0);
    assert Dropped(ps, 0) == ps[1..];
  }

  /** Once everything is finished, a spilled id owns its file and a loaded file is gone. */
  lemma {:induction false} SlotAfter(pb: Codec<Group>, s: Shard, ps: seq<Part>, k: nat)
    requires AllReady(pb, s, ps) && k < |ps|
    ensures var a := ApplyAll(pb, s, ps);
            && (ps[k].SpillPart? ==> Owns(a.groups, ps[k].id, ps[k].name))
            && (ps[k].LoadPart? ==> ps[k].offset !in a.files)
    decreases k
  {
    hide AllReady, Image;
    RestReady(pb, s, ps);
    var s' := Apply(pb, s, ps[0]);
    if k == 0 {
      assert Ready(pb, s, ps[0]);
      OtherId(pb, s', ps[1..], ps[0].id);
      if ps[0].LoadPart? {
        OtherSlot(pb, s', ps[1..], ps[0].offset);
      }
    } else {
      SlotAfter(pb, s', ps[1..], k - 1);
    }
  }

  /** The file of an id that no suspended operation holds is no suspended operation's file. */
  lemma FreeOffset(pb: Codec<Group>, s: Shard, ps: seq<Part>, id: string)
    requires AllReady(pb, s, ps) && Inv(pb, ApplyAll(pb, s, ps))
    requires id in s.groups && s.groups[id].IsOnDisk() && forall i :: 0 <= i < |ps| ==> ps[i].id != id
    ensures var o := s.groups[id].diskOffset;
            && (forall i :: 0 <= i < |ps| ==> Slot(ps[i]) != o)
            && Load(pb, s.files, o) == Load(pb, ApplyAll(pb, s, ps).files, o) && Load(pb, s.files, o).Ok?
  {
    var o, a := s.groups[id].diskOffset, ApplyAll(pb, s, ps);
    OtherId(pb, s, ps, id);
    OnDiskHasFile(pb, a.files, a.groups[id], id);
    assert EntryOk(pb, a.files, a.groups[id], id);
    hide ApplyAll, EntryOk, EntriesOk;
    forall i | 0 <= i < |ps|
      ensures Slot(ps[i]) != o
    {
      SlotAfter(pb, s, ps, i);
      assert Owns(a.groups, id, o);
    }
    OtherSlot(pb, s, ps, o);
  }

  // ---------- finishing, as the source does it ----------

  datatype Flight = Spilling(parts: seq<Part>) | Reading(parts: seq<Part>)

  predicate WellFormed(f: Flight) {
    match f
    case Spilling(ps) => forall i :: 0 <= i < |ps| ==> ps[i].SpillPart?
    case Reading(ps) => forall i :: 0 <= i < |ps| ==> !ps[i].SpillPart?
  }

  function Ids(ps: seq<Part>): (ids: seq<string>)
    ensures |ids| == |ps|
  {
    seq(|ps|, i requires 0 <= i < |ps| => ps[i].id)
  }

  function Slots(ps: seq<Part>): (names: seq<nat>)
    ensures |names| == |ps|
  {
    seq(|ps|, i requires 0 <= i < |ps| => Slot(ps[i]))
  }

  function GroupsIn(ps: seq<Part>): (gs: seq<Group>)
    ensures |gs| == |ps|
  {
    seq(|ps|, i requires 0 <= i < |ps| => ps[i].group)
  }

  /** Groups handed over at the start of a read. */
  function Early(ps: seq<Part>): seq<Group> {
    if ps == [] then []
    else
      var p := ps[|ps| - 1];
      Early(ps[..|ps| - 1]) + if p.TakePart? then [p.group] else []
  }

  /** Groups to be loaded by a read, and their files. */
  function Late(ps: seq<Part>): seq<Group> {
    if ps == [] then []
    else
      var p := ps[|ps| - 1];
      Late(ps[..|ps| - 1]) + if p.LoadPart? then [p.group] else []
  }

  function Offsets(ps: seq<Part>): seq<nat> {
    if ps == [] then []
    else
      var p := ps[|ps| - 1];
      Offsets(ps[..|ps| - 1]) + if p.LoadPart? then [p.offset] else []
  }

  /** What a suspended read will deliver. */
  function Owed(f: Flight): seq<Group> {
    match f
    case Spilling(_) => []
    case Reading(ps) => Early(ps) + Late(ps)
  }

  /** A spill writes all copies and then switches all entries; a read loads all files, then
      removes them, then erases the entries. */
  ghost function Finish(pb: Codec<Group>, s: Shard, f: Flight): (Shard, seq<Group>) {
    match f
    case Spilling(ps) =>
      (CommitAll(pb, s.(files := WithFiles(pb, s.files, Slots(ps), GroupsIn(ps))), Ids(ps), Slots(ps)), [])
    case Reading(ps) =>
      var loaded := match LoadAll(pb, s.files, Offsets(ps)) case Ok(gs) => gs case Failed(_) => [];
      (s.(groups := s.groups - Elements(Ids(ps)), files := s.files - Elements(Offsets(ps)),
          consumed := s.consumed + SizeOf(loaded)),
       Early(ps) + loaded)
  }

  lemma ReadyIds(pb: Codec<Group>, s: Shard, ps: seq<Part>)
    requires AllReady(pb, s, ps)
    ensures Distinct(Ids(ps))
    ensures (forall i :: 0 <= i < |ps| ==> ps[i].SpillPart?) ==> GroupsAt(s.groups, Ids(ps)) == GroupsIn(ps)
  {
    forall i, j | 0 <= i < j < |ps|
      ensures Ids(ps)[i] != Ids(ps)[j]
    {
      assert Apart(ps[i], ps[j]);
    }
    if forall i :: 0 <= i < |ps| ==> ps[i].SpillPart? {
      forall i | 0 <= i < |ps|
        ensures GroupsAt(s.groups, Ids(ps))[i] == GroupsIn(ps)[i]
      {
        assert Ready(pb, s, ps[i]);
      }
    }
  }

  lemma InitReady(pb: Codec<Group>, s: Shard, ps: seq<Part>)
    requires AllReady(pb, s, ps) && ps != []
    ensures var n := |ps| - 1;
            && AllReady(pb, s, ps[..n]) && Ready(pb, s, ps[n])
            && ApplyAll(pb, s, ps) == Apply(pb, ApplyAll(pb, s, ps[..n]), ps[n])
            && ApplyAll(pb, s, ps[..n]).groups.Keys <= s.groups.Keys
            && ps[n].id in ApplyAll(pb, s, ps[..n]).groups
            && ApplyAll(pb, s, ps[..n]).groups[ps[n].id] == s.groups[ps[n].id]
  {
    var n := |ps| - 1;
    hide Apply;
    assert ps == ps[..n] + [ps[n]];
    ApplyAppend(pb, s, ps[..n], [ps[n]]);
    ApplyHead(pb, ApplyAll(pb, s, ps[..n]), [ps[n]]);
    forall i | 0 <= i < n
      ensures ps[..n][i].id != ps[n].id
    {
      assert Apart(ps[i], ps[n]);
    }
    OtherId(pb, s, ps[..n], ps[n].id);
    ApplyFrame(pb, s, ps[..n]);
    assert Ready(pb, s, ps[n]);
  }

  lemma {:induction false} SpillEachIs(pb: Codec<Group>, s: Shard, ps: seq<Part>)
    requires AllReady(pb, s, ps) && forall i :: 0 <= i < |ps| ==> ps[i].SpillPart?
    ensures SpillEach(pb, s, Ids(ps), Slots(ps)) == ApplyAll(pb, s, ps)
  {
    if ps != [] {
      var n := |ps| - 1;
      InitReady(pb, s, ps);
      SpillEachIs(pb, s, ps[..n]);
      hide AllReady, ApplyAll;
      assert Ids(ps)[..n] == Ids(ps[..n]) && Slots(ps)[..n] == Slots(ps[..n]);
      var mid := ApplyAll(pb, s, ps[..n]);
      assert GroupAt(mid.groups, ps[n].id) == ps[n].group;
    }
  }

  lemma FinishSpill(pb: Codec<Group>, s: Shard, ps: seq<Part>)
    requires AllReady(pb, s, ps) && WellFormed(Spilling(ps))
    ensures Finish(pb, s, Spilling(ps)).0 == SpillGroups(pb, s, Ids(ps), Slots(ps)) == ApplyAll(pb, s, ps)
  {
    hide ApplyAll, AllReady, SpillEach, WithFiles, CommitAll;
    ReadyIds(pb, s, ps);
    TwoPhase(pb, s, Ids(ps), Slots(ps));
    SpillEachIs(pb, s, ps);
  }

  /** The state after a read has removed these ids, their files and counted what it loaded. */
  ghost function Absorbed(s: Shard, ps: seq<Part>): Shard {
    s.(groups := s.groups - Elements(Ids(ps)), files := s.files - Elements(Offsets(ps)),
       consumed := s.consumed + SizeOf(Late(ps)))
  }

  lemma NothingAbsorbed(s: Shard)
    ensures Absorbed(s, []) == s
  {
    assert s.groups - Elements(Ids([])) == s.groups && s.files - Elements(Offsets([])) == s.files;
  }

  lemma PartsSnoc(ps: seq<Part>, p: Part)
    ensures Ids(ps + [p]) == Ids(ps) + [p.id]
    ensures Early(ps + [p]) == if p.TakePart? then Early(ps) + [p.group] else Early(ps)
    ensures Late(ps + [p]) == if p.LoadPart? then Late(ps) + [p.group] else Late(ps)
    ensures Offsets(ps + [p]) == if p.LoadPart? then Offsets(ps) + [p.offset] else Offsets(ps)
  {
    assert (ps + [p])[..|ps|] == ps;
  }

  lemma AbsorbedSnoc(pb: Codec<Group>, s: Shard, ps: seq<Part>, p: Part)
    requires !p.SpillPart?
    ensures Apply(pb, Absorbed(s, ps), p) == Absorbed(s, ps + [p])
  {
    hide Ids, Late, Offsets, SizeOf, Elements;
    PartsSnoc(ps, p);
    DropIds(s.groups, Ids(ps), p.id);
    if p.LoadPart? {
      SizeSnoc(Late(ps), p.group);
      MinusMore(s.files, Offsets(ps), p.offset);
    }
  }

  lemma {:induction false} FinishRead(pb: Codec<Group>, s: Shard, ps: seq<Part>)
    requires AllReady(pb, s, ps) && WellFormed(Reading(ps))
    ensures LoadAll(pb, s.files, Offsets(ps)) == Ok(Late(ps)) && ApplyAll(pb, s, ps) == Absorbed(s, ps)
  {
    hide AllReady, ApplyAll, Apply, LoadAll, Absorbed, Late, Offsets, Load;
    if ps == [] {
      NothingToRead(pb, s);
    } else {
      var n := |ps| - 1;
      assert ps == ps[..n] + [ps[n]];
      InitReady(pb, s, ps);
      FinishRead(pb, s, ps[..n]);
      AbsorbedSnoc(pb, s, ps[..n], ps[n]);
      LoadsSnoc(pb, s, ps[..n], ps[n]);
    }
  }

  lemma NothingToRead(pb: Codec<Group>, s: Shard)
    ensures LoadAll(pb, s.files, Offsets([])) == Ok(Late([])) && ApplyAll(pb, s, []) == Absorbed(s, [])
  {
    NothingAbsorbed(s);
  }

  lemma LoadsSnoc(pb: Codec<Group>, s: Shard, ps: seq<Part>, p: Part)
    requires LoadAll(pb, s.files, Offsets(ps)) == Ok(Late(ps)) && Ready(pb, s, p)
    ensures LoadAll(pb, s.files, Offsets(ps + [p])) == Ok(Late(ps + [p]))
  {
    hide LoadAll, Late, Offsets, Load;
    PartsSnoc(ps, p);
    if p.LoadPart? {
      LoadAllSnoc(pb, s.files, Offsets(ps), p.offset);
    }
  }

  lemma DropIds(groups: Groups, ids: seq<string>, id: string)
    ensures groups - Elements(ids) - {id} == groups - Elements(ids + [id])
  {
    ElementsMore(ids, id);
  }

  /** Finishing in the source's order does what finishing id by id does, and delivers what is owed. */
  lemma FinishIsParts(pb: Codec<Group>, s: Shard, f: Flight)
    requires AllReady(pb, s, f.parts) && WellFormed(f)
    ensures Finish(pb, s, f) == (ApplyAll(pb, s, f.parts), Owed(f))
  {
    hide AllReady, ApplyAll, LoadAll, CommitAll;
    match f
    case Spilling(ps) => FinishSpill(pb, s, ps);
    case Reading(ps) => FinishRead(pb, s, ps);
  }

  // ---------- starting a read ----------

  /** The scan of a read, for one picked id: an in-memory group moves out and is counted as
      consumed, a group on disk leaves the disk account. */
  function BeginOne(s: Shard, id: string): Shard {
    if id !in s.groups then s
    else
      var e := s.groups[id];
      s.(groups := s.groups[id := e.(group := None)], consumed := s.consumed + e.TrajectoriesSize(),
         diskUsage := s.diskUsage - e.DiskBytes())
  }

  function BeginAll(s: Shard, ids: seq<string>): Shard {
    if ids == [] then s else BeginOne(BeginAll(s, ids[..|ids| - 1]), ids[|ids| - 1])
  }

  function PartFor(pb: Codec<Group>, s: Shard, id: string): (p: Part)
    ensures !p.SpillPart? && p.id == id
  {
    if id in s.groups && s.groups[id].IsOnDisk() then
      var offset := s.groups[id].diskOffset;
      LoadPart(id, offset, match Load(pb, s.files, offset) case Ok(g) => g case Failed(_) => Group(id, [], 0, true))
    else TakePart(id, GroupAt(s.groups, id))
  }

  function ReadParts(pb: Codec<Group>, s: Shard, ids: seq<string>): (ps: seq<Part>)
    ensures |ps| == |ids| && WellFormed(Reading(ps)) && Ids(ps) == ids
  {
    seq(|ids|, i requires 0 <= i < |ids| => PartFor(pb, s, ids[i]))
  }

  lemma ReadPartsSnoc(pb: Codec<Group>, s: Shard, ids: seq<string>, id: string)
    ensures ReadParts(pb, s, ids + [id]) == ReadParts(pb, s, ids) + [PartFor(pb, s, id)]
  {
  }

  ghost function Emptied(s: Shard, ids: seq<string>): Shard {
    s.(groups := map id | id in s.groups :: if id in ids then s.groups[id].(group := None) else s.groups[id],
       consumed := s.consumed + SizeOf(FromMemory(s.groups, ids)),
       diskUsage := s.diskUsage - DiskSum(s.groups, ids))
  }

  lemma NothingEmptied(s: Shard)
    ensures Emptied(s, []) == s
  {
    assert Emptied(s, []).groups == s.groups;
  }

  lemma EmptiedSnoc(s: Shard, ids: seq<string>, id: string)
    requires id in s.groups && id !in ids && s.groups[id].group.Some? != s.groups[id].IsOnDisk()
    ensures BeginOne(Emptied(s, ids), id) == Emptied(s, ids + [id])
  {
    PickedSnoc(s.groups, ids, id);
    hide FromMemory, SizeOf, DiskSum;
    if !s.groups[id].IsOnDisk() {
      SizeSnoc(FromMemory(s.groups, ids), s.groups[id].group.value);
    }
    assert BeginOne(Emptied(s, ids), id).groups == Emptied(s, ids + [id]).groups;
  }

  lemma {:induction false} BeginIs(s: Shard, ids: seq<string>)
    requires Distinct(ids)
    requires forall id :: id in ids ==> id in s.groups && s.groups[id].group.Some? != s.groups[id].IsOnDisk()
    ensures BeginAll(s, ids) == Emptied(s, ids)
  {
    if ids == [] {
      NothingEmptied(s);
    } else {
      hide Emptied, BeginOne;
      var init, last := ids[..|ids| - 1], ids[|ids| - 1];
      assert last in ids && last !in init;
      BeginIs(s, init);
      EmptiedSnoc(s, init, last);
      assert ids == init + [last];
    }
  }

  /** The parts of a read carry what the read delivers. */
  lemma {:induction false} ReadPartsAre(pb: Codec<Group>, s: Shard, ids: seq<string>)
    requires Inv(pb, s) && forall id :: id in ids ==> id in s.groups
    ensures var ps := ReadParts(pb, s, ids);
            && Early(ps) == FromMemory(s.groups, ids)
            && Offsets(ps) == OffsetsOf(s.groups, ids)
            && LoadAll(pb, s.files, Offsets(ps)) == Ok(Late(ps))
  {
    if ids != [] {
      var init, last := ids[..|ids| - 1], ids[|ids| - 1];
      assert ids == init + [last] && last in ids;
      ReadPartsAre(pb, s, init);
      PlacedByInv(pb, s);
      PickedSnoc(s.groups, init, last);
      EntryLoads(pb, s, last);
      hide Inv, Placed, LoadAll, FromMemory, OffsetsOf, ReadParts, Early, Late, Offsets, Ids, Load;
      ReadPartsSnoc(pb, s, init, last);
      var p := PartFor(pb, s, last);
      PartsSnoc(ReadParts(pb, s, init), p);
      if p.LoadPart? {
        LoadAllSnoc(pb, s.files, OffsetsOf(s.groups, init), p.offset);
      }
    }
  }

  ghost predicate AllComplete(groups: Groups, ids: seq<string>) {
    Distinct(ids) && forall id :: id in ids ==> id in groups && groups[id].IsComplete()
  }

  lemma EmptiedThenAbsorbed(pb: Codec<Group>, s: Shard, ids: seq<string>, ps: seq<Part>)
    requires Ids(ps) == ids && Early(ps) == FromMemory(s.groups, ids) && Offsets(ps) == OffsetsOf(s.groups, ids)
    requires LoadAll(pb, s.files, Offsets(ps)) == Ok(Late(ps))
    ensures (Absorbed(Emptied(s, ids), ps), Early(ps) + Late(ps)) == Taken(pb, s, ids)
  {
    hide Early, Late, Offsets, Ids, FromMemory, OffsetsOf, LoadAll, SizeOf, DiskSum, Elements;
    EmptiedRest(s, ids);
  }

  lemma EmptiedRest(s: Shard, ids: seq<string>)
    ensures Emptied(s, ids).groups - Elements(ids) == s.groups - Elements(ids)
  {
    hide FromMemory, SizeOf, DiskSum;
  }

  /** Starting a read and finishing it at once is the atomic read. */
  lemma BeginThenFinish(x: Fixed, s: Shard, max: int, order: seq<string>)
    requires Inv(x.pb, s) && Distinct(order)
    ensures var ids := Pick(s.groups, order, max, 0);
            var ps := ReadParts(x.pb, s, ids);
            (Absorbed(BeginAll(s, ids), ps), Owed(Reading(ps))) == Read(x, s, max, order)
  {
    var ids := Pick(s.groups, order, max, 0);
    PickComplete(s.groups, order, max, 0);
    PlacedByInv(x.pb, s);
    BeginIs(s, ids);
    ReadPartsAre(x.pb, s, ids);
    ReadIsTaken(x, s, max, order);
    EmptiedThenAbsorbed(x.pb, s, ids, ReadParts(x.pb, s, ids));
    hide *;
  }

  // ---------- other operations in between ----------

  lemma BeginOneCommutes(pb: Codec<Group>, s: Shard, p: Part, id: string)
    requires Ready(pb, s, p) && p.id != id
    ensures Apply(pb, BeginOne(s, id), p) == BeginOne(Apply(pb, s, p), id)
    ensures Ready(pb, BeginOne(s, id), p)
  {
    hide Image, Load;
    assert Apply(pb, BeginOne(s, id), p).groups == BeginOne(Apply(pb, s, p), id).groups;
  }

  lemma {:induction false} BeginOneOverAll(pb: Codec<Group>, s: Shard, ps: seq<Part>, id: string)
    requires AllReady(pb, s, ps) && forall i :: 0 <= i < |ps| ==> ps[i].id != id
    ensures ApplyAll(pb, BeginOne(s, id), ps) == BeginOne(ApplyAll(pb, s, ps), id)
    ensures AllReady(pb, BeginOne(s, id), ps)
    decreases |ps|
  {
    forall i | 0 <= i < |ps|
      ensures Ready(pb, BeginOne(s, id), ps[i])
    {
      BeginOneCommutes(pb, s, ps[i], id);
    }
    hide Apply, ApplyAll, BeginOne, Ready;
    if ps == [] {
      ApplyNone(pb, s);
      ApplyNone(pb, BeginOne(s, id));
    } else {
      BeginOneCommutes(pb, s, ps[0], id);
      RestReady(pb, s, ps);
      hide AllReady;
      ApplyHead(pb, s, ps);
      ApplyHead(pb, BeginOne(s, id), ps);
      BeginOneOverAll(pb, Apply(pb, s, ps[0]), ps[1..], id);
    }
  }

  lemma {:induction false} BeginCommutes(pb: Codec<Group>, s: Shard, ps: seq<Part>, ids: seq<string>)
    requires AllReady(pb, s, ps) && forall i :: 0 <= i < |ps| ==> ps[i].id !in ids
    ensures ApplyAll(pb, BeginAll(s, ids), ps) == BeginAll(ApplyAll(pb, s, ps), ids)
    ensures AllReady(pb, BeginAll(s, ids), ps)
  {
    hide ApplyAll, AllReady, BeginOne;
    if ids != [] {
      BeginCommutes(pb, s, ps, ids[..|ids| - 1]);
      BeginOneOverAll(pb, BeginAll(s, ids[..|ids| - 1]), ps, ids[|ids| - 1]);
    }
  }

  /** The operation does not touch the id, and does not spill in the same breath. */
  ghost predicate Quiet(s: Shard, op: Op, p: Part) {
    match op
    case DoWrite(t, _, c) => t.instanceId != p.id && c.order == []
    case DoTimeouts(_) => true
    case DoDelete(id) => id != p.id && (id in s.groups && s.groups[id].IsOnDisk() ==> s.groups[id].diskOffset != Slot(p))
    case DoConfigure(_) => true
    case _ => false
  }

  ghost predicate AllQuiet(s: Shard, op: Op, ps: seq<Part>) {
    forall i :: 0 <= i < |ps| ==> Quiet(s, op, ps[i])
  }

  /** Storing without the memory check that follows it. */
  lemma StoreOnly(x: Fixed, s: Shard, t: Trajectory, now: nat, c: Choice)
    requires c.order == []
    ensures Write(x, s, t, now, c)
            == if Duplicate(s, t.uid) then (Mark(x, s, t.uid), false)
               else if Sealed(s, t.instanceId) then (Mark(x, s, t.uid), true)
               else (Store(Mark(x, s, t.uid), t, now), true)
  {
    hide MemoryUsage;
    var s' := Store(Mark(x, s, t.uid), t, now);
    assert s'.(files := s'.files) == s';
  }

  lemma StoreCommutes(pb: Codec<Group>, s: Shard, t: Trajectory, now: nat, p: Part)
    requires Ready(pb, s, p) && t.instanceId != p.id
    ensures Store(Apply(pb, s, p), t, now) == Apply(pb, Store(s, t, now), p)
    ensures Ready(pb, Store(s, t, now), p)
  {
    hide Image, Load, Append;
    assert Store(Apply(pb, s, p), t, now).groups == Apply(pb, Store(s, t, now), p).groups;
  }

  lemma MarkCommutes(x: Fixed, s: Shard, t: Trajectory, p: Part)
    requires Ready(x.pb, s, p) && t.instanceId != p.id
    ensures Mark(x, Apply(x.pb, s, p), t.uid) == Apply(x.pb, Mark(x, s, t.uid), p) && Ready(x.pb, Mark(x, s, t.uid), p)
    ensures Duplicate(Apply(x.pb, s, p), t.uid) == Duplicate(s, t.uid)
    ensures Sealed(Apply(x.pb, s, p), t.instanceId) == Sealed(s, t.instanceId)
  {
    hide Image, Load, Touch;
  }

  lemma WriteCommutes(x: Fixed, s: Shard, t: Trajectory, now: nat, c: Choice, p: Part)
    requires Ready(x.pb, s, p) && c.order == [] && t.instanceId != p.id
    ensures Write(x, Apply(x.pb, s, p), t, now, c)
            == (Apply(x.pb, Write(x, s, t, now, c).0, p), Write(x, s, t, now, c).1)
    ensures Stores(Apply(x.pb, s, p), t) == Stores(s, t) && Ready(x.pb, Write(x, s, t, now, c).0, p)
  {
    StoreOnly(x, s, t, now, c);
    StoreOnly(x, Apply(x.pb, s, p), t, now, c);
    MarkCommutes(x, s, t, p);
    StoreCommutes(x.pb, Mark(x, s, t.uid), t, now, p);
    hide Write, Apply, Store, Mark, Ready, Duplicate, Sealed;
  }

  lemma TimeoutsCommute(pb: Codec<Group>, s: Shard, now: nat, p: Part)
    requires Ready(pb, s, p)
    ensures CheckTimeouts(Apply(pb, s, p), now) == Apply(pb, CheckTimeouts(s, now), p)
    ensures Ready(pb, CheckTimeouts(s, now), p)
  {
    hide Image, Load;
    var a, b := CheckTimeouts(Apply(pb, s, p), now), Apply(pb, CheckTimeouts(s, now), p);
    assert a.groups == b.groups;
  }

  lemma RemoveCommutes(pb: Codec<Group>, s: Shard, id: string, p: Part)
    requires Ready(pb, s, p) && id != p.id
    requires id in s.groups && s.groups[id].IsOnDisk() ==> s.groups[id].diskOffset != Slot(p)
    ensures Remove(Apply(pb, s, p), id) == Apply(pb, Remove(s, id), p)
    ensures Ready(pb, Remove(s, id), p)
  {
    hide Image, Load;
    var a, b := Remove(Apply(pb, s, p), id), Apply(pb, Remove(s, id), p);
    RemoveReady(pb, s, id, p);
    assert a.groups == b.groups;
    assert a.files == b.files;
  }

  lemma RemoveReady(pb: Codec<Group>, s: Shard, id: string, p: Part)
    requires Ready(pb, s, p) && id != p.id
    requires id in s.groups && s.groups[id].IsOnDisk() ==> s.groups[id].diskOffset != Slot(p)
    ensures Ready(pb, Remove(s, id), p)
  {
  }

  lemma ActCommutes(x: Fixed, s: Shard, op: Op, p: Part)
    requires Ready(x.pb, s, p) && Quiet(s, op, p)
    ensures var (s', e) := Step(x, s, op);
            Step(x, Apply(x.pb, s, p), op) == (Apply(x.pb, s', p), e) && Ready(x.pb, s', p)
  {
    match op
    case DoWrite(t, now, c) => WriteCommutes(x, s, t, now, c, p); WriteAnswer(x, s, t, now, c, p);
    case DoTimeouts(now) => TimeoutsCommute(x.pb, s, now, p);
    case DoDelete(id) => RemoveCommutes(x.pb, s, id, p);
    case DoConfigure(cfg) =>
  }

  lemma WriteAnswer(x: Fixed, s: Shard, t: Trajectory, now: nat, c: Choice, p: Part)
    requires Ready(x.pb, s, p) && c.order == [] && t.instanceId != p.id
    ensures Step(x, Apply(x.pb, s, p), DoWrite(t, now, c)).1 == Step(x, s, DoWrite(t, now, c)).1
  {
    WriteCommutes(x, s, t, now, c, p);
  }

  lemma {:induction false} ActOverAll(x: Fixed, s: Shard, op: Op, ps: seq<Part>)
    requires AllReady(x.pb, s, ps) && AllQuiet(s, op, ps)
    ensures var (s', e) := Step(x, s, op);
            Step(x, ApplyAll(x.pb, s, ps), op) == (ApplyAll(x.pb, s', ps), e) && AllReady(x.pb, s', ps)
    decreases |ps|
  {
    var s' := Step(x, s, op).0;
    forall i | 0 <= i < |ps|
      ensures Ready(x.pb, s', ps[i])
    {
      ActCommutes(x, s, op, ps[i]);
    }
    hide Step, Ready;
    if ps == [] {
    } else {
      ActCommutes(x, s, op, ps[0]);
      RestReady(x.pb, s, ps);
      QuietKept(x.pb, s, op, ps);
      hide AllReady, Apply, ApplyAll, Quiet, AllQuiet;
      ApplyHead(x.pb, s, ps);
      ApplyHead(x.pb, s', ps);
      ActOverAll(x, Apply(x.pb, s, ps[0]), op, ps[1..]);
    }
  }

  lemma QuietKept(pb: Codec<Group>, s: Shard, op: Op, ps: seq<Part>)
    requires AllReady(pb, s, ps) && ps != [] && AllQuiet(s, op, ps)
    ensures AllQuiet(Apply(pb, s, ps[0]), op, ps[1..])
  {
    hide AllReady, Image;
    assert Quiet(s, op, ps[0]);
    forall i | 0 <= i < |ps| - 1
      ensures Quiet(Apply(pb, s, ps[0]), op, ps[1..][i])
    {
      assert Quiet(s, op, ps[i + 1]);
    }
  }

  // ---------- runs with suspended operations ----------

  /** `shown`: what the run has shown so far, the delivery of a read at its end. */
  datatype Busy = Busy(s: Shard, flights: seq<Flight>, shown: seq<Event>)

  datatype Move =
    | BeginSpill(c: Choice)
    | BeginRead(max: int, order: seq<string>)
    | End(k: nat)
    | Act(op: Op)

  function AllParts(flights: seq<Flight>): seq<Part> {
    if flights == [] then [] else AllParts(flights[..|flights| - 1]) + flights[|flights| - 1].parts
  }

  /** The shard once every suspended operation has finished. */
  function Settled(pb: Codec<Group>, b: Busy): Shard {
    ApplyAll(pb, b.s, AllParts(b.flights))
  }

  function SpillParts(groups: Groups, ids: seq<string>, names: seq<nat>): (ps: seq<Part>)
    requires |ids| == |names|
    ensures |ps| == |ids| && WellFormed(Spilling(ps)) && Ids(ps) == ids && Slots(ps) == names
  {
    seq(|ids|, i requires 0 <= i < |ids| => SpillPart(ids[i], names[i], GroupAt(groups, ids[i])))
  }

  function Remaining(flights: seq<Flight>, k: nat): seq<Flight>
    requires k < |flights|
  {
    flights[..k] + flights[k + 1..]
  }

  /** The groups a starting spill selects, and the names of their files. */
  ghost function SpillStart(x: Fixed, s: Shard, c: Choice): (r: (seq<string>, seq<nat>))
    ensures |r.0| == |r.1|
  {
    SelectedLength(x, s, c.order);
    var ids := Selected(x, s, c.order);
    (ids, c.names[..|ids|])
  }

  lemma SelectedLength(x: Fixed, s: Shard, order: seq<string>)
    ensures |Selected(x, s, order)| <= |order|
  {
    SelectLength(x.pb, s.groups, order, SpillTarget(MemoryUsage(x, s), s.cfg.seventyMark), 0);
  }

  function Present(order: seq<string>, groups: Groups): seq<string> {
    if order == [] then []
    else if order[0] in groups then [order[0]] + Present(order[1..], groups)
    else Present(order[1..], groups)
  }

  /** One move, and the atomic operation it amounts to: an operation takes effect at its start. A spill
      and a read select from the shard as they find it, groups held by others included. */
  ghost function MoveTo(x: Fixed, b: Busy, m: Move): (Busy, Option<Op>) {
    match m
    case BeginSpill(c) =>
      var (ids, names) := SpillStart(x, b.s, c);
      (Busy(b.s, b.flights + [Spilling(SpillParts(b.s.groups, ids, names))], b.shown + [Silent]),
       Some(DoSpillOf(ids, names)))
    case BeginRead(max, order) =>
      var ids := Pick(b.s.groups, order, max, 0);
      (Busy(BeginAll(b.s, ids), b.flights + [Reading(ReadParts(x.pb, b.s, ids))], b.shown + [Silent]),
       Some(DoRead(max, Present(order, Settled(x.pb, b).groups))))
    case End(k) =>
      if k < |b.flights| then
        var (s', gs) := Finish(x.pb, b.s, b.flights[k]);
        (Busy(s', Remaining(b.flights, k), b.shown + [if b.flights[k].Reading? then Delivered(gs) else Silent]), None)
      else (b, None)
    case Act(op) =>
      var (s', e) := Step(x, b.s, op);
      (Busy(s', b.flights, b.shown + [e]), Some(op))
  }

  predicate Free(ps: seq<Part>, id: string) {
    forall i :: 0 <= i < |ps| ==> ps[i].id != id
  }

  /** No move touches an id that a suspended operation holds; a reset waits until none is left. */
  ghost predicate Permitted(x: Fixed, b: Busy, m: Move) {
    var ps := AllParts(b.flights);
    match m
    case BeginSpill(c) =>
      var (ids, names) := SpillStart(x, b.s, c);
      && GoodChoice(b.s.files, c) && AllLoadable(x.pb, b.s.groups, ids)
      && (forall id :: id in ids ==> Free(ps, id))
      && (forall i, j :: 0 <= i < |ps| && 0 <= j < |names| ==> Slot(ps[i]) != names[j])
    case BeginRead(max, order) =>
      IsOrder(order, b.s.groups.Keys) && forall id :: id in Pick(b.s.groups, order, max, 0) ==> Free(ps, id)
    case End(k) => k < |b.flights|
    case Act(op) =>
      match op
      case DoWrite(t, now, c) => Free(ps, t.instanceId) && c == Choices([], [])
      case DoTimeouts(_) => true
      case DoDelete(id) => Free(ps, id)
      case DoConfigure(_) => true
      case DoReset => b.flights == []
      case _ => false
  }

  ghost predicate BusyInv(x: Fixed, b: Busy) {
    && Inv(x.pb, Settled(x.pb, b))
    && AllReady(x.pb, b.s, AllParts(b.flights))
    && forall i :: 0 <= i < |b.flights| ==> WellFormed(b.flights[i])
  }

  function DeliveryOf(e: Event): multiset<seq<Group>> {
    if e.Delivered? then multiset{e.groups} else multiset{}
  }

  function Deliveries(events: seq<Event>): multiset<seq<Group>> {
    if events == [] then multiset{} else Deliveries(events[..|events| - 1]) + DeliveryOf(events[|events| - 1])
  }

  predicate IsAnswer(e: Event) {
    e.Wrote? || e.Deleted? || e.WasReset?
  }

  /** What writers and managers see: every write with its answer and whether it was stored, every
      delete, every reset. */
  function Answers(events: seq<Event>): seq<Event> {
    if events == [] then []
    else
      var e := events[|events| - 1];
      Answers(events[..|events| - 1]) + if IsAnswer(e) then [e] else []
  }

  /** What the suspended reads will still deliver. */
  function Debts(flights: seq<Flight>): multiset<seq<Group>> {
    if flights == [] then multiset{}
    else
      var before, f := Debts(flights[..|flights| - 1]), flights[|flights| - 1];
      if f.Reading? then before + multiset{Owed(f)} else before
  }

  // ---------- the end of an operation ----------

  lemma FlightsSnoc(flights: seq<Flight>, f: Flight)
    ensures AllParts(flights + [f]) == AllParts(flights) + f.parts
    ensures Debts(flights + [f]) == if f.Reading? then Debts(flights) + multiset{Owed(f)} else Debts(flights)
  {
    assert (flights + [f])[..|flights|] == flights;
  }

  ghost predicate Splits(flights: seq<Flight>, k: nat)
    requires k < |flights|
  {
    var f, before, after := flights[k], AllParts(flights[..k]), AllParts(flights[k + 1..]);
    && AllParts(flights) == before + f.parts + after
    && AllParts(Remaining(flights, k)) == before + after
    && Debts(flights) == Debts(Remaining(flights, k)) + if f.Reading? then multiset{Owed(f)} else multiset{}
  }

  lemma {:induction false} PartsSplit(flights: seq<Flight>, k: nat)
    requires k < |flights|
    ensures Splits(flights, k)
  {
    var n := |flights| - 1;
    var init, last := flights[..n], flights[n];
    assert flights == init + [last];
    if k == n {
      NoFlights();
      hide Owed, AllParts, Debts;
      FlightsSnoc(init, last);
      assert flights[k + 1..] == [] && Remaining(flights, k) == init;
    } else {
      hide Splits;
      PartsSplit(init, k);
      SplitsSnoc(init, k, last);
    }
  }

  lemma NoFlights()
    ensures AllParts([]) == [] && Debts([]) == multiset{}
  {
  }

  lemma SplitsSnoc(flights: seq<Flight>, k: nat, f: Flight)
    requires k < |flights| && Splits(flights, k)
    ensures Splits(flights + [f], k)
  {
    hide Owed, AllParts, Debts;
    var more := flights + [f];
    assert more[..k] == flights[..k] && more[k] == flights[k] && more[k + 1..] == flights[k + 1..] + [f];
    assert Remaining(more, k) == Remaining(flights, k) + [f];
    FlightsSnoc(flights, f);
    FlightsSnoc(flights[k + 1..], f);
    FlightsSnoc(Remaining(flights, k), f);
    hide Remaining;
    Associate(AllParts(flights[..k]), flights[k].parts, AllParts(flights[k + 1..]), f.parts);
  }

  lemma Associate(a: seq<Part>, b: seq<Part>, c: seq<Part>, d: seq<Part>)
    ensures a + b + (c + d) == a + b + c + d && a + (c + d) == a + c + d
  {
  }

  lemma BlockReady(pb: Codec<Group>, s: Shard, a: seq<Part>, f: seq<Part>, b: seq<Part>)
    requires AllReady(pb, s, a + f + b)
    ensures AllReady(pb, s, f)
  {
    hide Ready, Apart;
    var ps := a + f + b;
    assert forall i :: 0 <= i < |f| ==> f[i] == ps[|a| + i];
  }

  /** Finishing is invisible: the settled shard stays the same, and what was owed is delivered. */
  lemma EndStep(x: Fixed, b: Busy, k: nat)
    requires BusyInv(x, b) && k < |b.flights|
    ensures var b' := MoveTo(x, b, End(k)).0;
            var e := if b.flights[k].Reading? then Delivered(Owed(b.flights[k])) else Silent;
            && BusyInv(x, b') && Settled(x.pb, b') == Settled(x.pb, b)
            && b'.shown == b.shown + [e] && DeliveryOf(e) + Debts(b'.flights) == Debts(b.flights)
  {
    hide Inv, Ready, Apart, ApplyAll, Finish, AllReady, WellFormed, Owed;
    var f := b.flights[k];
    var before, after := AllParts(b.flights[..k]), AllParts(b.flights[k + 1..]);
    PartsSplit(b.flights, k);
    hide AllParts, Debts;
    BlockReady(x.pb, b.s, before, f.parts, after);
    FinishIsParts(x.pb, b.s, f);
    PullBlock(x.pb, b.s, before, f.parts, after);
  }

  // ---------- the start of an operation ----------

  lemma AppendReady(pb: Codec<Group>, s: Shard, a: seq<Part>, b: seq<Part>)
    requires AllReady(pb, s, a) && AllReady(pb, s, b)
    requires forall i, j :: 0 <= i < |a| && 0 <= j < |b| ==> Apart(a[i], b[j])
    ensures AllReady(pb, s, a + b)
  {
    hide Ready, Apart;
  }

  lemma JoinReady(pb: Codec<Group>, s: Shard, a: seq<Part>, b: seq<Part>)
    requires AllReady(pb, s, a) && AllReady(pb, s, b)
    requires forall i, j :: 0 <= i < |a| && 0 <= j < |b| ==> Apart(a[i], b[j])
    ensures AllReady(pb, s, a + b)
    ensures AllReady(pb, ApplyAll(pb, s, a), b) && ApplyAll(pb, s, a + b) == ApplyAll(pb, ApplyAll(pb, s, a), b)
  {
    AppendReady(pb, s, a, b);
    hide AllReady, Apart, ApplyAll;
    AfterFirst(pb, s, a, b);
    ApplyAppend(pb, s, a, b);
  }

  lemma AfterFirst(pb: Codec<Group>, s: Shard, a: seq<Part>, b: seq<Part>)
    requires AllReady(pb, s, a + b)
    ensures AllReady(pb, ApplyAll(pb, s, a), b)
  {
    hide AllReady, ApplyAll;
    assert [] + a + b == a + b;
    assert [] + b == b;
    PullBlock(pb, s, [], a, b);
  }

  lemma SpillPartsReady(pb: Codec<Group>, s: Shard, ps: seq<Part>, ids: seq<string>, names: seq<nat>)
    requires |ids| == |names| && AllSpillable(s.groups, ids) && FreshNames(s.files, names)
    requires forall id :: id in ids ==> Free(ps, id)
    requires forall i, j :: 0 <= i < |ps| && 0 <= j < |names| ==> Slot(ps[i]) != names[j]
    ensures var more := SpillParts(s.groups, ids, names);
            && AllReady(pb, s, more)
            && forall i, j :: 0 <= i < |ps| && 0 <= j < |more| ==> Apart(ps[i], more[j])
  {
    var more := SpillParts(s.groups, ids, names);
    forall i | 0 <= i < |more|
      ensures Ready(pb, s, more[i])
    {
      assert Spillable(s.groups, ids[i]) && FreshName(s.files, names[i]);
    }
    forall i, j | 0 <= i < |ps| && 0 <= j < |more|
      ensures Apart(ps[i], more[j])
    {
      assert ids[j] in ids;
    }
  }

  /** What may be spilled now may be spilled once everything is settled. */
  lemma SpillableSettled(pb: Codec<Group>, s: Shard, ps: seq<Part>, ids: seq<string>, names: seq<nat>)
    requires |ids| == |names| && AllSpillable(s.groups, ids) && FreshNames(s.files, names)
    requires forall id :: id in ids ==> Free(ps, id)
    requires forall i, j :: 0 <= i < |ps| && 0 <= j < |names| ==> Slot(ps[i]) != names[j]
    requires AllLoadable(pb, s.groups, ids)
    ensures var a := ApplyAll(pb, s, ps);
            AllSpillable(a.groups, ids) && FreshNames(a.files, names) && AllLoadable(pb, a.groups, ids)
  {
    hide ApplyAll;
    var a := ApplyAll(pb, s, ps);
    forall i | 0 <= i < |ids|
      ensures Spillable(a.groups, ids[i]) && FreshName(a.files, names[i])
      ensures GroupAt(a.groups, ids[i]) == GroupAt(s.groups, ids[i])
    {
      assert ids[i] in ids;
      assert Spillable(s.groups, ids[i]) && FreshName(s.files, names[i]);
      OtherId(pb, s, ps, ids[i]);
      OtherSlot(pb, s, ps, names[i]);
    }
  }

  lemma SpillSettled(pb: Codec<Group>, s: Shard, ps: seq<Part>, ids: seq<string>, names: seq<nat>)
    requires AllReady(pb, s, ps) && |ids| == |names| && AllSpillable(s.groups, ids) && FreshNames(s.files, names)
    requires forall id :: id in ids ==> Free(ps, id)
    requires forall i, j :: 0 <= i < |ps| && 0 <= j < |names| ==> Slot(ps[i]) != names[j]
    ensures var more := SpillParts(s.groups, ids, names);
            AllReady(pb, s, ps + more) && ApplyAll(pb, s, ps + more) == SpillGroups(pb, ApplyAll(pb, s, ps), ids, names)
  {
    var more := SpillParts(s.groups, ids, names);
    SpillPartsReady(pb, s, ps, ids, names);
    hide AllReady, ApplyAll, AllSpillable, FreshNames, SpillParts, SpillGroups, Free, Apart, Finish, Ids, Slots;
    JoinReady(pb, s, ps, more);
    FinishSpill(pb, ApplyAll(pb, s, ps), more);
  }

  lemma StartedSpill(x: Fixed, s: Shard, c: Choice)
    requires GoodChoice(s.files, c)
    ensures var (ids, names) := SpillStart(x, s, c); AllSpillable(s.groups, ids) && FreshNames(s.files, names)
  {
    SelectedPlaces(x, s, c);
    hide Selected, AllSpillable;
    FreshPrefix(s.files, c.names, |Selected(x, s, c.order)|);
  }

  /** A suspended spill takes effect, on the settled shard, when it starts. */
  lemma BeginSpillStep(x: Fixed, b: Busy, c: Choice)
    requires Faithful(x.pb) && BusyInv(x, b) && Permitted(x, b, BeginSpill(c))
    ensures var b', a := MoveTo(x, b, BeginSpill(c)).0, Settled(x.pb, b);
            var (ids, names) := SpillStart(x, b.s, c);
            && BusyInv(x, b') && Allowed(x, a, DoSpillOf(ids, names))
            && Step(x, a, DoSpillOf(ids, names)) == (Settled(x.pb, b'), Silent)
            && Debts(b'.flights) == Debts(b.flights)
  {
    hide Inv, AllReady, ApplyAll, AllSpillable, AllLoadable, FreshNames, SpillParts, SpillGroups, AllParts, Debts,
      SpillStart, Faithful, View, Seal, GoodChoice, Free;
    var (ids, names) := SpillStart(x, b.s, c);
    var ps, more := AllParts(b.flights), SpillParts(b.s.groups, ids, names);
    var a := Settled(x.pb, b);
    StartedSpill(x, b.s, c);
    SpillableSettled(x.pb, b.s, ps, ids, names);
    SpillSettled(x.pb, b.s, ps, ids, names);
    SpillGroupsStep(x.pb, a, ids, names);
    FlightsSnoc(b.flights, Spilling(more));
  }

  lemma PickedPlaced(pb: Codec<Group>, s: Shard, ps: seq<Part>, ids: seq<string>, i: nat)
    requires AllReady(pb, s, ps) && Inv(pb, ApplyAll(pb, s, ps)) && AllComplete(s.groups, ids)
    requires i < |ids| && forall id :: id in ids ==> Free(ps, id)
    ensures var a, id := ApplyAll(pb, s, ps), ids[i];
            && id in s.groups && id in a.groups && a.groups[id] == s.groups[id] && EntryOk(pb, a.files, s.groups[id], id)
            && PartFor(pb, s, id) == PartFor(pb, a, id)
            && Ready(pb, BeginOne(s, id), PartFor(pb, s, id))
            && s.groups[id].group.Some? != s.groups[id].IsOnDisk()
            && forall k :: 0 <= k < |ps| ==> Apart(ps[k], PartFor(pb, s, id))
  {
    var a, id := ApplyAll(pb, s, ps), ids[i];
    assert id in ids;
    OtherId(pb, s, ps, id);
    assert EntryOk(pb, a.files, a.groups[id], id);
    if s.groups[id].IsOnDisk() {
      FreeOffset(pb, s, ps, id);
    }
    hide AllReady, ApplyAll, Inv;
    assert Free(ps, id);
  }

  lemma EmptiedAt(s: Shard, ids: seq<string>, id: string)
    requires id in ids && id in s.groups
    ensures var e := Emptied(s, ids);
            e.files == s.files && id in e.groups && e.groups[id] == BeginOne(s, id).groups[id] == s.groups[id].(group := None)
  {
    hide FromMemory, SizeOf, DiskSum;
  }

  /** The picked ids look the same on the settled shard. */
  lemma ReadPartsSettled(pb: Codec<Group>, s: Shard, ps: seq<Part>, ids: seq<string>)
    requires AllReady(pb, s, ps) && Inv(pb, ApplyAll(pb, s, ps)) && AllComplete(s.groups, ids)
    requires forall id :: id in ids ==> Free(ps, id)
    ensures ReadParts(pb, s, ids) == ReadParts(pb, ApplyAll(pb, s, ps), ids)
    ensures AllComplete(ApplyAll(pb, s, ps).groups, ids)
  {
    var a := ApplyAll(pb, s, ps);
    forall i | 0 <= i < |ids|
      ensures ids[i] in a.groups && a.groups[ids[i]].IsComplete() && PartFor(pb, s, ids[i]) == PartFor(pb, a, ids[i])
    {
      PickedPlaced(pb, s, ps, ids, i);
      assert ids[i] in ids;
    }
    hide AllReady, ApplyAll, Inv, PartFor, Free;
    assert ReadParts(pb, s, ids) == ReadParts(pb, a, ids);
  }

  lemma ReadPartsApart(pb: Codec<Group>, s: Shard, ps: seq<Part>, ids: seq<string>)
    requires AllReady(pb, s, ps) && Inv(pb, ApplyAll(pb, s, ps)) && AllComplete(s.groups, ids)
    requires forall id :: id in ids ==> Free(ps, id)
    ensures var more := ReadParts(pb, s, ids);
            && (forall i, j :: 0 <= i < |ps| && 0 <= j < |more| ==> Apart(ps[i], more[j]))
            && (forall i, j :: 0 <= i < j < |more| ==> Apart(more[i], more[j]))
  {
    var more := ReadParts(pb, s, ids);
    forall j | 0 <= j < |ids|
      ensures forall k :: 0 <= k < |ps| ==> Apart(ps[k], more[j])
    {
      PickedPlaced(pb, s, ps, ids, j);
    }
    ReadPartsSettled(pb, s, ps, ids);
    hide AllReady, ApplyAll, PartFor, Apart, Inv, Free;
    forall i, j | 0 <= i < j < |ids|
      ensures Apart(more[i], more[j])
    {
      DifferentFiles(pb, ApplyAll(pb, s, ps), ids[i], ids[j]);
    }
  }

  lemma ReadPartsReady(pb: Codec<Group>, s: Shard, ps: seq<Part>, ids: seq<string>)
    requires AllReady(pb, s, ps) && Inv(pb, ApplyAll(pb, s, ps)) && AllComplete(s.groups, ids)
    requires forall id :: id in ids ==> Free(ps, id)
    ensures AllReady(pb, BeginAll(s, ids), ReadParts(pb, s, ids))
  {
    var more := ReadParts(pb, s, ids);
    ReadPartsApart(pb, s, ps, ids);
    forall i | 0 <= i < |ids|
      ensures ids[i] in s.groups && s.groups[ids[i]].group.Some? != s.groups[ids[i]].IsOnDisk()
      ensures Ready(pb, BeginOne(s, ids[i]), more[i])
    {
      PickedPlaced(pb, s, ps, ids, i);
    }
    hide AllReady, ApplyAll, PartFor, Ready, Apart, BeginOne, BeginAll, Free, Emptied, Inv;
    BeginIs(s, ids);
    forall i | 0 <= i < |ids|
      ensures Ready(pb, Emptied(s, ids), more[i])
    {
      EmptiedAt(s, ids, ids[i]);
      SameReady(pb, BeginOne(s, ids[i]), Emptied(s, ids), more[i]);
    }
    ReadyFromEach(pb, Emptied(s, ids), more);
  }

  lemma ReadyFromEach(pb: Codec<Group>, s: Shard, ps: seq<Part>)
    requires forall i :: 0 <= i < |ps| ==> Ready(pb, s, ps[i])
    requires forall i, j :: 0 <= i < j < |ps| ==> Apart(ps[i], ps[j])
    ensures AllReady(pb, s, ps)
  {
    hide Ready, Apart;
  }

  lemma SameReady(pb: Codec<Group>, s: Shard, s': Shard, p: Part)
    requires Ready(pb, s, p) && p.id in s'.groups && s'.groups[p.id] == s.groups[p.id] && s'.files == s.files
    ensures Ready(pb, s', p)
  {
  }

  lemma DifferentFiles(pb: Codec<Group>, s: Shard, id: string, jd: string)
    requires Inv(pb, s) && id != jd
    ensures Apart(PartFor(pb, s, id), PartFor(pb, s, jd))
  {
    hide EntriesOk, Load;
    if id in s.groups && s.groups[id].IsOnDisk() && jd in s.groups && s.groups[jd].IsOnDisk() {
      assert Owns(s.groups, id, s.groups[id].diskOffset);
      assert Owns(s.groups, jd, s.groups[jd].diskOffset);
    }
  }

  // ---------- the scan of a starting read ----------

  /** An id held by a suspended operation looks complete, before and after it is settled. */
  lemma {:induction false} HeldIsComplete(pb: Codec<Group>, s: Shard, ps: seq<Part>, id: string)
    requires AllReady(pb, s, ps) && !Free(ps, id)
    ensures id in s.groups && s.groups[id].IsComplete()
    ensures id in ApplyAll(pb, s, ps).groups ==> ApplyAll(pb, s, ps).groups[id].IsComplete()
    decreases |ps|
  {
    var k :| 0 <= k < |ps| && ps[k].id == id;
    assert Ready(pb, s, ps[k]);
    RestReady(pb, s, ps);
    var s' := Apply(pb, s, ps[0]);
    if k == 0 {
      OtherId(pb, s', ps[1..], id);
    } else {
      assert ps[1..][k - 1].id == id;
      HeldIsComplete(pb, s', ps[1..], id);
    }
  }

  /** What the scan may rely on: free ids are as on the settled shard, held ones look complete. */
  ghost predicate ScanAgrees(g: Groups, a: Groups, free: string -> bool) {
    && (forall id :: free(id) ==> (id in a <==> id in g) && (id in g ==> a[id] == g[id]))
    && (forall id :: !free(id) ==> id in g && g[id].IsComplete() && (id in a ==> a[id].IsComplete()))
  }

  lemma {:induction false} PickFull(groups: Groups, order: seq<string>, max: int, taken: nat)
    requires 0 < max <= taken
    ensures Pick(groups, order, max, taken) == []
  {
    if order != [] {
      PickFull(groups, order[1..], max, taken);
    }
  }

  /** A scan that picks only free ids picks the same ones on the settled shard. */
  lemma {:induction false} SamePick(g: Groups, a: Groups, free: string -> bool, order: seq<string>, max: int, taken: nat)
    requires ScanAgrees(g, a, free) && forall id :: id in Pick(g, order, max, taken) ==> free(id)
    ensures Pick(a, Present(order, a), max, taken) == Pick(g, order, max, taken)
  {
    if order != [] {
      var id, rest := order[0], order[1..];
      if id !in g || !g[id].IsComplete() {
        SamePick(g, a, free, rest, max, taken);
      } else if 0 < max <= taken {
        PickFull(a, Present(order, a), max, taken);
      } else {
        assert Pick(g, order, max, taken) == [id] + Pick(g, rest, max, taken + 1);
        assert free(id);
        SamePick(g, a, free, rest, max, taken + 1);
        assert Present(order, a)[1..] == Present(rest, a);
      }
    }
  }

  lemma {:induction false} PresentElements(order: seq<string>, groups: Groups)
    requires Distinct(order)
    ensures Distinct(Present(order, groups)) && forall id :: id in Present(order, groups) <==> id in order && id in groups
  {
    if order != [] {
      PresentElements(order[1..], groups);
      assert order[0] !in order[1..];
    }
  }

  lemma PresentOrder(order: seq<string>, groups: Groups, keys: set<string>)
    requires IsOrder(order, keys) && groups.Keys <= keys
    ensures IsOrder(Present(order, groups), groups.Keys)
  {
    PresentElements(order, groups);
    assert forall id :: id in keys <==> id in Elements(order);
  }

  /** The scan of a starting read is the scan of an atomic read of the settled shard, along a full
      traversal of it. */
  lemma ScanSettled(pb: Codec<Group>, s: Shard, ps: seq<Part>, max: int, order: seq<string>)
    requires AllReady(pb, s, ps) && IsOrder(order, s.groups.Keys)
    requires forall id :: id in Pick(s.groups, order, max, 0) ==> Free(ps, id)
    ensures var a := ApplyAll(pb, s, ps).groups;
            IsOrder(Present(order, a), a.Keys) && Pick(a, Present(order, a), max, 0) == Pick(s.groups, order, max, 0)
  {
    var a := ApplyAll(pb, s, ps).groups;
    ApplyFrame(pb, s, ps);
    hide AllReady, ApplyAll, Ready, Pick, IsOrder;
    PresentOrder(order, a, s.groups.Keys);
    forall id
      ensures Free(ps, id) ==> (id in a <==> id in s.groups) && (id in s.groups ==> a[id] == s.groups[id])
      ensures !Free(ps, id) ==> id in s.groups && s.groups[id].IsComplete() && (id in a ==> a[id].IsComplete())
    {
      if Free(ps, id) {
        OtherId(pb, s, ps, id);
      } else {
        HeldIsComplete(pb, s, ps, id);
      }
    }
    hide Free;
    SamePick(s.groups, a, id => Free(ps, id), order, max, 0);
  }

  /** A suspended read takes effect, on the settled shard, when it starts; what it will deliver is
      what the atomic read delivers. */
  lemma BeginReadStep(x: Fixed, b: Busy, max: int, order: seq<string>)
    requires Faithful(x.pb) && BusyInv(x, b) && Permitted(x, b, BeginRead(max, order))
    ensures var (b', op) := MoveTo(x, b, BeginRead(max, order));
            var a, f := Settled(x.pb, b), Reading(ReadParts(x.pb, b.s, Pick(b.s.groups, order, max, 0)));
            && BusyInv(x, b') && op.Some? && Allowed(x, a, op.value)
            && Step(x, a, op.value) == (Settled(x.pb, b'), Delivered(Owed(f)))
            && Debts(b'.flights) == Debts(b.flights) + multiset{Owed(f)}
  {
    var a, ids := Settled(x.pb, b), Pick(b.s.groups, order, max, 0);
    var present := Present(order, a.groups);
    ScanSettled(x.pb, b.s, AllParts(b.flights), max, order);
    PickComplete(b.s.groups, order, max, 0);
    hide Inv, AllReady, ApplyAll, ReadParts, AllParts, Debts, Free, BeginAll, Read, Owed, Pick, Present;
    ReadSettled(x, b.s, AllParts(b.flights), ids, max, present);
    StepInv(x, a, DoRead(max, present));
    FlightsSnoc(b.flights, Reading(ReadParts(x.pb, b.s, ids)));
  }

  lemma ReadSettled(x: Fixed, s: Shard, ps: seq<Part>, ids: seq<string>, max: int, order: seq<string>)
    requires AllReady(x.pb, s, ps) && Inv(x.pb, ApplyAll(x.pb, s, ps)) && AllComplete(s.groups, ids)
    requires forall id :: id in ids ==> Free(ps, id)
    requires Distinct(order) && Pick(ApplyAll(x.pb, s, ps).groups, order, max, 0) == ids
    ensures var more := ReadParts(x.pb, s, ids);
            && AllReady(x.pb, BeginAll(s, ids), ps + more)
            && (ApplyAll(x.pb, BeginAll(s, ids), ps + more), Owed(Reading(more))) == Read(x, ApplyAll(x.pb, s, ps), max, order)
  {
    var more, a := ReadParts(x.pb, s, ids), ApplyAll(x.pb, s, ps);
    ReadPartsReady(x.pb, s, ps, ids);
    ReadPartsSettled(x.pb, s, ps, ids);
    ReadPartsApart(x.pb, s, ps, ids);
    hide Inv, AllReady, ApplyAll, ReadParts, Free, Apart, BeginAll, Read, Owed, Absorbed, Pick;
    BeginCommutes(x.pb, s, ps, ids);
    JoinReady(x.pb, BeginAll(s, ids), ps, more);
    FinishRead(x.pb, BeginAll(a, ids), more);
    BeginThenFinish(x, a, max, order);
  }

  // ---------- other moves ----------

  lemma QuietAll(x: Fixed, b: Busy, op: Op)
    requires BusyInv(x, b) && Permitted(x, b, Act(op)) && !op.DoReset?
    ensures AllQuiet(b.s, op, AllParts(b.flights))
  {
    var ps := AllParts(b.flights);
    if op.DoDelete? && op.id in b.s.groups && b.s.groups[op.id].IsOnDisk() {
      FreeOffset(x.pb, b.s, ps, op.id);
    }
    hide AllReady, Inv, ApplyAll;
  }

  lemma ActAllowed(x: Fixed, b: Busy, op: Op)
    requires Permitted(x, b, Act(op))
    ensures Allowed(x, Settled(x.pb, b), op)
  {
    hide Settled, MemoryUsage, Store, Mark;
    EmptyChoice(Settled(x.pb, b).files);
  }

  /** Operations on other ids do the same to the settled shard. */
  lemma ActStep(x: Fixed, b: Busy, op: Op)
    requires Faithful(x.pb) && BusyInv(x, b) && Permitted(x, b, Act(op))
    ensures var b', a := MoveTo(x, b, Act(op)).0, Settled(x.pb, b);
            && BusyInv(x, b') && Allowed(x, a, op)
            && Step(x, a, op) == (Settled(x.pb, b'), Step(x, b.s, op).1)
  {
    var a := Settled(x.pb, b);
    ActAllowed(x, b, op);
    StepInv(x, a, op);
    if op.DoReset? {
      NoFlights();
      assert AllParts(b.flights) == [];
    } else {
      QuietAll(x, b, op);
      hide Permitted;
      hide Inv, AllReady, ApplyAll, Step, Allowed, AllQuiet, AllParts;
      ActOverAll(x, b.s, op, AllParts(b.flights));
    }
  }

  // ---------- the theorem ----------

  /** From b to b' the settled shard took no step, or the given one. What the move showed is an answer
      exactly when the step's event is, and then the same one; and what has been delivered and is still
      owed changed by what the step delivers. */
  ghost predicate AmountsTo(x: Fixed, b: Busy, b': Busy, op: Option<Op>, last: Event) {
    && b'.shown == b.shown + [last]
    && var a := Settled(x.pb, b);
       var (a', e) := if op.Some? then Step(x, a, op.value) else (a, Silent);
       && (op.Some? ==> Allowed(x, a, op.value))
       && Settled(x.pb, b') == a'
       && (IsAnswer(last) || IsAnswer(e) ==> last == e)
       && DeliveryOf(last) + Debts(b'.flights) == Debts(b.flights) + DeliveryOf(e)
  }

  lemma BeginIsAtomic(x: Fixed, b: Busy, m: Move)
    requires Faithful(x.pb) && BusyInv(x, b) && Permitted(x, b, m) && (m.BeginSpill? || m.BeginRead?)
    ensures var (b', op) := MoveTo(x, b, m); BusyInv(x, b') && AmountsTo(x, b, b', op, Silent)
  {
    hide BusyInv, Allowed, Settled, Debts, Permitted, Owed, ReadParts, SpillParts, BeginAll, SpillGroups, Read, Faithful,
      SpillStart, Present, Pick;
    if m.BeginSpill? {
      BeginSpillStep(x, b, m.c);
    } else {
      BeginReadStep(x, b, m.max, m.order);
    }
    hide Step;
  }

  lemma ActIsAtomic(x: Fixed, b: Busy, op: Op)
    requires Faithful(x.pb) && BusyInv(x, b) && Permitted(x, b, Act(op))
    ensures var b' := MoveTo(x, b, Act(op)).0; BusyInv(x, b') && AmountsTo(x, b, b', Some(op), Step(x, b.s, op).1)
  {
    ActStep(x, b, op);
    StepEventKind(x, b.s, op);
    assert !op.DoRead?;
    hide BusyInv, Step, Allowed, Settled, Debts, Permitted;
  }

  lemma EndIsAtomic(x: Fixed, b: Busy, k: nat)
    requires BusyInv(x, b) && k < |b.flights|
    ensures var (b', op) := MoveTo(x, b, End(k));
            var e := if b.flights[k].Reading? then Delivered(Owed(b.flights[k])) else Silent;
            BusyInv(x, b') && AmountsTo(x, b, b', op, e)
  {
    EndOp(x, b, k);
    hide BusyInv, Settled, Debts, MoveTo, Owed, AmountsTo, DeliveryOf;
    EndStep(x, b, k);
    NoStep(x, b, MoveTo(x, b, End(k)).0, if b.flights[k].Reading? then Delivered(Owed(b.flights[k])) else Silent);
  }

  lemma EndOp(x: Fixed, b: Busy, k: nat)
    ensures MoveTo(x, b, End(k)).1 == None
  {
    hide Finish, Owed;
  }

  lemma NoStep(x: Fixed, b: Busy, b': Busy, e: Event)
    requires b'.shown == b.shown + [e] && Settled(x.pb, b') == Settled(x.pb, b) && !IsAnswer(e)
    requires DeliveryOf(e) + Debts(b'.flights) == Debts(b.flights)
    ensures AmountsTo(x, b, b', None, e)
  {
    hide Settled, Debts;
  }

  /** What one move means for the settled shard: nothing, or one allowed atomic operation that shows
      the same; and deliveries are neither lost nor invented. */
  lemma MoveIsAtomic(x: Fixed, b: Busy, m: Move) returns (last: Event)
    requires Faithful(x.pb) && BusyInv(x, b) && Permitted(x, b, m)
    ensures var (b', op) := MoveTo(x, b, m); BusyInv(x, b') && AmountsTo(x, b, b', op, last)
  {
    hide BusyInv, AmountsTo, Faithful;
    last := Silent;
    match m
    case BeginSpill(_) => BeginIsAtomic(x, b, m);
    case BeginRead(_, _) => BeginIsAtomic(x, b, m);
    case End(k) =>
      EndIsAtomic(x, b, k);
      last := if b.flights[k].Reading? then Delivered(Owed(b.flights[k])) else Silent;
    case Act(op) =>
      ActIsAtomic(x, b, op);
      last := Step(x, b.s, op).1;
  }

  lemma StepEventKind(x: Fixed, s: Shard, op: Op)
    ensures Step(x, s, op).1.Delivered? <==> op.DoRead?
  {
  }

  /** A run of moves from an idle shard, with the atomic operations it amounts to. */
  ghost function Play(x: Fixed, s: Shard, moves: seq<Move>): (Busy, seq<Op>) {
    if moves == [] then (Busy(s, [], []), [])
    else
      var (b, ops) := Play(x, s, moves[..|moves| - 1]);
      var (b', op) := MoveTo(x, b, moves[|moves| - 1]);
      (b', if op.Some? then ops + [op.value] else ops)
  }

  ghost predicate PermittedRun(x: Fixed, s: Shard, moves: seq<Move>) {
    moves == [] ||
    (PermittedRun(x, s, moves[..|moves| - 1])
     && Permitted(x, Play(x, s, moves[..|moves| - 1]).0, moves[|moves| - 1]))
  }

  lemma EventSnoc(events: seq<Event>, e: Event)
    ensures Deliveries(events + [e]) == Deliveries(events) + DeliveryOf(e)
    ensures Answers(events + [e]) == Answers(events) + if IsAnswer(e) then [e] else []
  {
    assert (events + [e])[..|events|] == events;
  }

  lemma OneMoreOp(x: Fixed, s: Shard, ops: seq<Op>, op: Op)
    requires AllowedRun(x, s, ops) && Allowed(x, Run(x, s, ops).0, op)
    ensures var (s', e) := Step(x, Run(x, s, ops).0, op);
            AllowedRun(x, s, ops + [op]) && Run(x, s, ops + [op]) == (s', Run(x, s, ops).1 + [e])
  {
    hide Step, Allowed;
    assert (ops + [op])[..|ops|] == ops;
  }

  lemma IdleShard(x: Fixed, s: Shard)
    requires Inv(x.pb, s)
    ensures BusyInv(x, Busy(s, [], [])) && Settled(x.pb, Busy(s, [], [])) == s && Debts([]) == multiset{}
    ensures Run(x, s, []) == (s, []) && Deliveries([]) == multiset{}
  {
  }

  /** The suspended run and the atomic run show the same. */
  ghost predicate ShowsTheSame(b: Busy, events: seq<Event>) {
    Answers(b.shown) == Answers(events) && Deliveries(b.shown) + Debts(b.flights) == Deliveries(events)
  }

  lemma ShowsOneMore(x: Fixed, b: Busy, b': Busy, op: Option<Op>, last: Event, events: seq<Event>)
    requires ShowsTheSame(b, events) && AmountsTo(x, b, b', op, last)
    ensures op.None? ==> ShowsTheSame(b', events)
    ensures op.Some? ==> ShowsTheSame(b', events + [Step(x, Settled(x.pb, b), op.value).1])
  {
    hide Step, Allowed, Settled, Debts, Deliveries, Answers;
    var e := if op.Some? then Step(x, Settled(x.pb, b), op.value).1 else Silent;
    EventSnoc(b.shown, last);
    EventSnoc(events, e);
    Balance(Deliveries(b.shown), DeliveryOf(last), Debts(b'.flights), Debts(b.flights), DeliveryOf(e));
  }

  lemma Balance<T>(shown: multiset<T>, last: multiset<T>, owed': multiset<T>, owed: multiset<T>, e: multiset<T>)
    requires last + owed' == owed + e
    ensures shown + last + owed' == shown + owed + e
  {
    assert shown + last + owed' == shown + (last + owed');
    assert shown + owed + e == shown + (owed + e);
  }

  /** Any interleaving in which nothing touches the ids of a suspended operation leaves, once all is
      settled, the state of an allowed run of atomic operations. Every write gets the answer and is
      stored or not as in that run, and what its reads have delivered and still owe is exactly what the
      reads of that run deliver. */
  lemma {:induction false} SuspendedRunIsAtomic(x: Fixed, s: Shard, moves: seq<Move>)
    requires Faithful(x.pb) && Inv(x.pb, s) && PermittedRun(x, s, moves)
    ensures var (b, ops) := Play(x, s, moves);
            var (a, events) := Run(x, s, ops);
            && BusyInv(x, b) && AllowedRun(x, s, ops)
            && a == Settled(x.pb, b) && (b.flights == [] ==> a == b.s)
            && ShowsTheSame(b, events)
  {
    if moves == [] {
      IdleShard(x, s);
    } else {
      var init, m := moves[..|moves| - 1], moves[|moves| - 1];
      SuspendedRunIsAtomic(x, s, init);
      var (b, ops) := Play(x, s, init);
      hide BusyInv, Step, Allowed, Settled, MoveTo, Permitted, Run, AllowedRun, Inv, Faithful, ShowsTheSame;
      var last := MoveIsAtomic(x, b, m);
      var (b', op) := MoveTo(x, b, m);
      ShowsOneMore(x, b, b', op, last, Run(x, s, ops).1);
      if op.Some? {
        OneMoreOp(x, s, ops, op.value);
      }
      SettledIdle(x.pb, b');
    }
  }

  lemma SettledIdle(pb: Codec<Group>, b: Busy)
    ensures b.flights == [] ==> Settled(pb, b) == b.s
  {
  }

  // ---------- conservation ----------

  /** The trajectories of an id in a collection of deliveries. */
  ghost function HandedBy(m: multiset<seq<Group>>, id: string): multiset<Trajectory>
    decreases |m|
  {
    if m == multiset{} then multiset{}
    else
      var gs :| gs in m;
      multiset(GroupFor(gs, id)) + HandedBy(m - multiset{gs}, id)
  }

  lemma Associate3<T>(a: multiset<T>, b: multiset<T>, c: multiset<T>)
    ensures a + b + c == a + (b + c) && a + (b + c) == b + (a + c) && a + b == b + a
  {
  }

  lemma TakeBack<T>(m: multiset<T>, a: T, b: T)
    ensures a in m ==> m - multiset{a} + multiset{a} == m
    ensures m + multiset{a} - multiset{a} == m
    ensures m - multiset{a} - multiset{b} == m - multiset{b} - multiset{a}
    ensures b in m && b != a ==> b in m - multiset{a}
  {
  }

  lemma {:induction false} HandedRemove(m: multiset<seq<Group>>, gs: seq<Group>, id: string)
    requires gs in m
    ensures HandedBy(m, id) == multiset(GroupFor(gs, id)) + HandedBy(m - multiset{gs}, id)
    decreases |m|
  {
    var hs :| hs in m && HandedBy(m, id) == multiset(GroupFor(hs, id)) + HandedBy(m - multiset{hs}, id);
    hide GroupFor, HandedBy;
    if hs != gs {
      TakeBack(m, hs, gs);
      TakeBack(m, gs, hs);
      HandedRemove(m - multiset{hs}, gs, id);
      HandedRemove(m - multiset{gs}, hs, id);
      Associate3(multiset(GroupFor(hs, id)), multiset(GroupFor(gs, id)), HandedBy(m - multiset{hs} - multiset{gs}, id));
    }
  }

  lemma HandedAdd(m: multiset<seq<Group>>, gs: seq<Group>, id: string)
    ensures HandedBy(m + multiset{gs}, id) == HandedBy(m, id) + multiset(GroupFor(gs, id))
  {
    hide GroupFor, HandedBy;
    HandedRemove(m + multiset{gs}, gs, id);
    TakeBack(m, gs, gs);
    Associate3(multiset(GroupFor(gs, id)), HandedBy(m, id), multiset{});
  }

  lemma {:induction false} HandedSum(a: multiset<seq<Group>>, b: multiset<seq<Group>>, id: string)
    ensures HandedBy(a + b, id) == HandedBy(a, id) + HandedBy(b, id)
    decreases |b|
  {
    if b == multiset{} {
      assert a + b == a;
    } else {
      hide GroupFor, HandedBy;
      var gs :| gs in b;
      var rest, one := b - multiset{gs}, multiset{gs};
      TakeBack(b, gs, gs);
      HandedSum(a, rest, id);
      HandedAdd(a + rest, gs, id);
      HandedAdd(rest, gs, id);
      Associate3(a, rest, one);
      Associate3(HandedBy(a, id), HandedBy(rest, id), multiset(GroupFor(gs, id)));
    }
  }

  lemma ReadersGotMore(events: seq<Event>, e: Event, id: string)
    requires multiset(GoneBy(Departures(events, id), ToReader)) == HandedBy(Deliveries(events), id)
    ensures multiset(GoneBy(Departures(events + [e], id), ToReader)) == HandedBy(Deliveries(events + [e]), id)
  {
    hide GroupFor, Departures, GoneBy, HandedBy, Deliveries, Answers;
    DepartureSnoc(events, e, id, ToReader);
    EventSnoc(events, e);
    if e.Delivered? {
      HandedAdd(Deliveries(events), e.groups, id);
    } else {
      assert Deliveries(events) + multiset{} == Deliveries(events);
    }
  }

  /** What left for readers is what the deliveries carry. */
  lemma {:induction false} ReadersGot(events: seq<Event>, id: string)
    ensures multiset(GoneBy(Departures(events, id), ToReader)) == HandedBy(Deliveries(events), id)
  {
    hide GroupFor, Departures, GoneBy, HandedBy, Deliveries;
    if events == [] {
      NothingHanded(id);
    } else {
      var init, e := events[..|events| - 1], events[|events| - 1];
      assert events == init + [e];
      ReadersGot(init, id);
      ReadersGotMore(init, e, id);
    }
  }

  lemma NothingHanded(id: string)
    ensures multiset(GoneBy(Departures([], id), ToReader)) == HandedBy(Deliveries([]), id)
  {
  }

  /** A free id holds the same on the shard as it is and on the settled one. */
  lemma HeldWhenFree(pb: Codec<Group>, s: Shard, ps: seq<Part>, id: string)
    requires AllReady(pb, s, ps) && Inv(pb, ApplyAll(pb, s, ps)) && Free(ps, id)
    ensures HeldFor(View(pb, s), id) == HeldFor(View(pb, ApplyAll(pb, s, ps)), id)
  {
    OtherId(pb, s, ps, id);
    if id in s.groups {
      assert EntryOk(pb, ApplyAll(pb, s, ps).files, s.groups[id], id);
      if s.groups[id].IsOnDisk() {
        FreeOffset(pb, s, ps, id);
      }
    }
  }

  /** What the shard held for the id whenever it was deleted, or reset away, during the run. */
  ghost function Discarded(x: Fixed, s: Shard, moves: seq<Move>, id: string, fate: Fate): seq<Trajectory> {
    if moves == [] then []
    else
      var init, m := moves[..|moves| - 1], moves[|moves| - 1];
      Discarded(x, s, init, id, fate) + DiscardedBy(m, HeldFor(View(x.pb, Play(x, s, init).0.s), id), id, fate)
  }

  /** A delete or reset discards what the atomic run discards. */
  lemma SameDiscard(x: Fixed, cfg: Config, moves: seq<Move>, m: Move, id: string)
    requires Faithful(x.pb) && PermittedRun(x, Fresh(cfg), moves) && Permitted(x, Play(x, Fresh(cfg), moves).0, m)
    requires m == Act(DoDelete(id)) || m == Act(DoReset)
    ensures var (b, ops) := Play(x, Fresh(cfg), moves);
            Pending(Run(x, Fresh(cfg), ops).1, id) == HeldFor(View(x.pb, b.s), id)
  {
    hide Play, Run, PermittedRun, AllowedRun, HeldFor, View, Pending, Inv, Fresh, ApplyAll, AllReady, ShowsTheSame;
    var (b, ops) := Play(x, Fresh(cfg), moves);
    FreshInv(x.pb, cfg);
    SuspendedRunIsAtomic(x, Fresh(cfg), moves);
    HeldIsHistory(x, cfg, ops, id);
    NoFlights();
    HeldWhenFree(x.pb, b.s, AllParts(b.flights), id);
  }

  lemma MoveEvent(x: Fixed, b: Busy, m: Move, id: string)
    requires Faithful(x.pb) && BusyInv(x, b) && Permitted(x, b, m)
    ensures var op := MoveTo(x, b, m).1;
            && (op == Some(DoDelete(id)) <==> m == Act(DoDelete(id))) && (op == Some(DoReset) <==> m == Act(DoReset))
            && (op.Some? ==>
                  (var e := Step(x, Settled(x.pb, b), op.value).1;
                   (e == Deleted(id) <==> op.value == DoDelete(id)) && (e == WasReset <==> op.value == DoReset)))
  {
  }

  /** What one move discards. */
  ghost function DiscardedBy(m: Move, held: seq<Trajectory>, id: string, fate: Fate): seq<Trajectory> {
    if (fate == ByDelete && m == Act(DoDelete(id))) || (fate == ByReset && m == Act(DoReset)) then held else []
  }

  lemma DiscardSnoc(x: Fixed, cfg: Config, moves: seq<Move>, m: Move, id: string, fate: Fate)
    requires Faithful(x.pb) && PermittedRun(x, Fresh(cfg), moves) && Permitted(x, Play(x, Fresh(cfg), moves).0, m)
    ensures Discarded(x, Fresh(cfg), moves + [m], id, fate)
            == Discarded(x, Fresh(cfg), moves, id, fate)
               + DiscardedBy(m, Pending(Run(x, Fresh(cfg), Play(x, Fresh(cfg), moves).1).1, id), id, fate)
  {
    assert (moves + [m])[..|moves|] == moves;
    hide Permitted, PermittedRun, Play, Run, Pending, HeldFor, View;
    if m == Act(DoDelete(id)) || m == Act(DoReset) {
      SameDiscard(x, cfg, moves, m, id);
    }
  }

  lemma {:induction false} DiscardsAreDepartures(x: Fixed, cfg: Config, moves: seq<Move>, id: string, fate: Fate)
    requires Faithful(x.pb) && PermittedRun(x, Fresh(cfg), moves) && fate != ToReader
    ensures GoneBy(Departures(Run(x, Fresh(cfg), Play(x, Fresh(cfg), moves).1).1, id), fate)
            == Discarded(x, Fresh(cfg), moves, id, fate)
  {
    hide Step, MoveTo, Permitted, Run, AllowedRun, BusyInv, Settled, Departures, GoneBy, Pending, AmountsTo, Discarded, Inv,
      Faithful, DiscardedBy, ShowsTheSame, Play, PermittedRun, Fresh;
    if moves == [] {
      NothingDiscarded(x, Fresh(cfg), id, fate);
    } else {
      var init, m := moves[..|moves| - 1], moves[|moves| - 1];
      assert moves == init + [m];
      LastMove(x, Fresh(cfg), moves);
      FreshInv(x.pb, cfg);
      DiscardsAreDepartures(x, cfg, init, id, fate);
      var (b, ops) := Play(x, Fresh(cfg), init);
      SuspendedRunIsAtomic(x, Fresh(cfg), init);
      DiscardSnoc(x, cfg, init, m, id, fate);
      var last := MoveIsAtomic(x, b, m);
      SameDeparture(x, Fresh(cfg), b, ops, m, last, id, fate);
    }
  }

  lemma NothingDiscarded(x: Fixed, s: Shard, id: string, fate: Fate)
    ensures GoneBy(Departures(Run(x, s, Play(x, s, []).1).1, id), fate) == Discarded(x, s, [], id, fate) == []
  {
  }

  lemma LastMove(x: Fixed, s: Shard, moves: seq<Move>)
    requires moves != []
    ensures var init, m := moves[..|moves| - 1], moves[|moves| - 1];
            var (b, ops) := Play(x, s, init);
            var (b', op) := MoveTo(x, b, m);
            && Play(x, s, moves) == (b', if op.Some? then ops + [op.value] else ops)
            && (PermittedRun(x, s, moves) <==> PermittedRun(x, s, init) && Permitted(x, b, m))
  {
    hide MoveTo, Permitted;
  }

  lemma SameDeparture(x: Fixed, s: Shard, b: Busy, ops: seq<Op>, m: Move, last: Event, id: string, fate: Fate)
    requires AllowedRun(x, s, ops) && Run(x, s, ops).0 == Settled(x.pb, b) && fate != ToReader
    requires Faithful(x.pb) && BusyInv(x, b) && Permitted(x, b, m)
    requires var (b', op) := MoveTo(x, b, m); AmountsTo(x, b, b', op, last)
    ensures var op := MoveTo(x, b, m).1;
            var before, after := Run(x, s, ops).1, Run(x, s, if op.Some? then ops + [op.value] else ops).1;
            GoneBy(Departures(after, id), fate)
            == GoneBy(Departures(before, id), fate) + DiscardedBy(m, Pending(before, id), id, fate)
  {
    hide Step, MoveTo, Run, AllowedRun, Settled, Departures, GoneBy, Pending, Debts, Permitted, BusyInv, Faithful;
    var op := MoveTo(x, b, m).1;
    MoveEvent(x, b, m, id);
    if op.Some? {
      OneMoreOp(x, s, ops, op.value);
      DepartureSnoc(Run(x, s, ops).1, Step(x, Run(x, s, ops).0, op.value).1, id, fate);
    }
  }

  lemma {:induction false} StoredFromAnswers(events: seq<Event>, id: string)
    ensures StoredFor(events, id) == StoredFor(Answers(events), id)
  {
    if events != [] {
      var init, e := events[..|events| - 1], events[|events| - 1];
      StoredFromAnswers(init, id);
      assert (Answers(init) + [e])[..|Answers(init)|] == Answers(init);
      assert Answers(init) + [] == Answers(init);
    }
  }

  /** Conservation for the suspended run itself: every write it stored for an id is in exactly one of
      what finished reads delivered, what started reads still owe, what deletes and resets discarded, and
      what the settled shard holds. */
  lemma SuspendedConservation(x: Fixed, cfg: Config, moves: seq<Move>, id: string)
    requires Faithful(x.pb) && PermittedRun(x, Fresh(cfg), moves)
    ensures var b := Play(x, Fresh(cfg), moves).0;
            multiset(StoredFor(b.shown, id))
            == HandedBy(Deliveries(b.shown), id) + HandedBy(Debts(b.flights), id)
               + multiset(Discarded(x, Fresh(cfg), moves, id, ByDelete))
               + multiset(Discarded(x, Fresh(cfg), moves, id, ByReset))
               + multiset(HeldFor(View(x.pb, Settled(x.pb, b)), id))
  {
    var (b, ops) := Play(x, Fresh(cfg), moves);
    var events := Run(x, Fresh(cfg), ops).1;
    FreshInv(x.pb, cfg);
    SuspendedRunIsAtomic(x, Fresh(cfg), moves);
    Conservation(x, cfg, ops, id);
    DiscardsAreDepartures(x, cfg, moves, id, ByDelete);
    DiscardsAreDepartures(x, cfg, moves, id, ByReset);
    hide Play, Run, Settled, HeldFor, View, Departures, GoneBy, StoredFor, HandedBy, Deliveries, Debts, Discarded, Answers,
      PermittedRun, AllowedRun, BusyInv, Faithful;
    ReadersGot(events, id);
    HandedSum(Deliveries(b.shown), Debts(b.flights), id);
    StoredFromAnswers(b.shown, id);
    StoredFromAnswers(events, id);
  }

  // ---------- a write to an id that is being spilled ----------

  /** The reason to leave held ids alone: a write to an id that is being spilled is acknowledged and
      counted as stored, but the file holds the earlier copy. A write survives the finish of a spill if
      and only if it was to another id; otherwise the entry counts one trajectory more than its file. */
  lemma WriteSurvivesExactly(x: Fixed, s: Shard, p: Part, t: Trajectory, now: nat)
    requires Faithful(x.pb) && Ready(x.pb, s, p) && p.SpillPart? && Loadable(x.pb, p.group)
    requires Stores(s, t) && (t.instanceId in s.groups ==> s.groups[t.instanceId].group.Some?)
    ensures var (s', ok) := Write(x, s, t, now, Choices([], []));
            var after, id := Apply(x.pb, s', p), t.instanceId;
            && ok
            && (HeldFor(View(x.pb, after), id) == HeldFor(View(x.pb, s), id) + [t] <==> id != p.id)
            && (id == p.id ==>
                  && HeldFor(View(x.pb, after), id) == HeldFor(View(x.pb, s), id)
                  && after.groups[id].cachedSize == |HeldFor(View(x.pb, after), id)| + 1
                  && !EntryOk(x.pb, after.files, after.groups[id], id))
  {
    StoreOnly(x, s, t, now, Choices([], []));
    LoadExactly(x.pb, p.group);
    hide Write, Image, Parse, Faithful;
  }

  // ---------- undisturbed operations ----------

  lemma PlaySnoc(x: Fixed, s: Shard, moves: seq<Move>, m: Move)
    requires PermittedRun(x, s, moves) && Permitted(x, Play(x, s, moves).0, m)
    ensures PermittedRun(x, s, moves + [m]) && Play(x, s, moves + [m]).0 == MoveTo(x, Play(x, s, moves).0, m).0
  {
    hide Permitted, MoveTo;
    assert (moves + [m])[..|moves|] == moves;
  }

  /** The moves of one write that stores: the store itself, then the spill it triggers. */
  function WriteMoves(t: Trajectory, now: nat, c: Choice): seq<Move> {
    [Act(DoWrite(t, now, Choices([], [])))] + [BeginSpill(c)] + [End(0)]
  }

  lemma StoreMove(x: Fixed, s: Shard, t: Trajectory, now: nat)
    requires Stores(s, t)
    ensures var b, m := Busy(s, [], []), Act(DoWrite(t, now, Choices([], [])));
            && Permitted(x, b, m)
            && MoveTo(x, b, m).0 == Busy(Store(Mark(x, s, t.uid), t, now), [], [Wrote(t, true, true)])
  {
    StoreOnly(x, s, t, now, Choices([], []));
    hide Write, Store;
  }

  /** With nothing else running, a spill that starts and finishes is the atomic spill. */
  lemma SpillMoves(x: Fixed, s: Shard, shown: seq<Event>, c: Choice)
    requires GoodChoice(s.files, c) && AllLoadable(x.pb, s.groups, Selected(x, s, c.order))
    ensures var idle := Busy(s, [], shown);
            var b := MoveTo(x, idle, BeginSpill(c)).0;
            && Permitted(x, idle, BeginSpill(c)) && Permitted(x, b, End(0))
            && MoveTo(x, b, End(0)).0 == Busy(TrySpill(x, s, c), [], shown + [Silent] + [Silent])
  {
    var (ids, names) := SpillStart(x, s, c);
    var ps := SpillParts(s.groups, ids, names);
    StartedSpill(x, s, c);
    SpillPartsReady(x.pb, s, [], ids, names);
    FinishSpill(x.pb, s, ps);
    SelectedLength(x, s, c.order);
    hide AllReady, Finish, SpillGroups, SpillParts, ApplyAll, Ids, Slots, AllSpillable, FreshNames, AllLoadable, Selected;
    assert [] + [Spilling(ps)] == [Spilling(ps)];
    assert Remaining([Spilling(ps)], 0) == [];
  }

  lemma ThreeMoves(x: Fixed, s: Shard, m: Move, n: Move, o: Move, b: Busy, c: Busy)
    requires Permitted(x, Busy(s, [], []), m) && b == MoveTo(x, Busy(s, [], []), m).0
    requires Permitted(x, b, n) && c == MoveTo(x, b, n).0 && Permitted(x, c, o)
    ensures PermittedRun(x, s, [m] + [n] + [o]) && Play(x, s, [m] + [n] + [o]).0 == MoveTo(x, c, o).0
  {
    NothingPlayed(x, s);
    hide Permitted, MoveTo, Play, PermittedRun;
    PlaySnoc(x, s, [], m);
    assert [] + [m] == [m];
    PlaySnoc(x, s, [m], n);
    PlaySnoc(x, s, [m] + [n], o);
  }

  lemma WriteParts(x: Fixed, s: Shard, t: Trajectory, now: nat, c: Choice)
    requires Inv(x.pb, s) && WriteAllowed(x, s, t, now, c) && Stores(s, t)
    ensures var stored := Store(Mark(x, s, t.uid), t, now);
            && Write(x, s, t, now, c).0 == TrySpill(x, stored, c)
            && GoodChoice(stored.files, c) && AllLoadable(x.pb, stored.groups, Selected(x, stored, c.order))
  {
    hide TrySpill, Selected;
    StoreAfterMark(x, s, t, now);
  }

  /** With nothing else running, those moves are the whole write. */
  lemma WriteIsMoves(x: Fixed, s: Shard, t: Trajectory, now: nat, c: Choice)
    requires Inv(x.pb, s) && WriteAllowed(x, s, t, now, c) && Stores(s, t)
    ensures var moves := WriteMoves(t, now, c);
            && PermittedRun(x, s, moves)
            && Play(x, s, moves).0 == Busy(Write(x, s, t, now, c).0, [], [Wrote(t, true, true), Silent, Silent])
  {
    hide Permitted, Inv, TrySpill, MoveTo, Write, Store, Mark, GoodChoice, AllLoadable, Selected, Play, PermittedRun, Stores,
      WriteAllowed;
    var stored := Store(Mark(x, s, t.uid), t, now);
    var first, idle := Act(DoWrite(t, now, Choices([], []))), Busy(stored, [], [Wrote(t, true, true)]);
    StoreMove(x, s, t, now);
    WriteParts(x, s, t, now, c);
    SpillMoves(x, stored, [Wrote(t, true, true)], c);
    ThreeMoves(x, s, first, BeginSpill(c), End(0), idle, MoveTo(x, idle, BeginSpill(c)).0);
  }

  lemma NothingPlayed(x: Fixed, s: Shard)
    ensures PermittedRun(x, s, []) && Play(x, s, []) == (Busy(s, [], []), [])
  {
  }
}
