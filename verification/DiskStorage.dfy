/** Spill files: one file per group, a 4-byte length, the serialized group, zero padding
    to the DMA alignment. Files are named by clock plus a process-wide counter. */
module DiskStorages {
  import opened Prelude
  import opened Protobuf
  import opened RpcCodec
  import opened Trajectories

  const ALIGN: nat := 4096
  const MAX_BODY: nat := 100 * 1024 * 1024

  datatype Failure = NotInitialized | SerializeFailed | NoSuchFile | ShortHeader | TooLarge | ShortBody | ParseFailed

  datatype Result<+T> = Ok(value: T) | Failed(why: Failure)

  type Files = map<nat, seq<byte>>

  // ---------- the frame ----------

  function AlignedSize(total: nat): nat {
    (total + ALIGN - 1) / ALIGN * ALIGN
  }

  function Frame(data: seq<byte>): (image: seq<byte>)
    ensures |image| == 4 + |data| + Padding(data)
  {
    LittleEndian(|data| % TWO_32, 4) + data + seq(Padding(data), _ => 0)
  }

  function Padding(data: seq<byte>): nat {
    AlignedLeast(4 + |data|, 0);
    AlignedSize(4 + |data|) - (4 + |data|)
  }

  function Image(pb: Codec<Group>, g: Group): seq<byte> {
    match pb.serialize(g)
    case None => []
    case Some(d) => Frame(d)
  }

  /** The checks of `load`, in order. */
  function Parse(pb: Codec<Group>, image: seq<byte>): Result<Group> {
    if |image| < 4 then Failed(ShortHeader)
    else
      var len := FromLittleEndian(image[..4]);
      if len > MAX_BODY then Failed(TooLarge)
      else if |image| - 4 < len then Failed(ShortBody)
      else
        match pb.parse(image[4..4 + len])
        case None => Failed(ParseFailed)
        case Some(g) => Ok(g)
  }

  /** The padded size is the least multiple of the alignment that holds the frame. */
  lemma AlignedLeast(total: nat, blocks: nat)
    ensures AlignedSize(total) % 4096 == 0
    ensures total <= AlignedSize(total) < total + 4096
    ensures total <= blocks * 4096 ==> AlignedSize(total) <= blocks * 4096
  {
  }

  lemma FrameParts(d: seq<byte>)
    requires |d| < TWO_32
    ensures FromLittleEndian(Frame(d)[..4]) == |d| && Frame(d)[4..4 + |d|] == d
    ensures |Frame(d)| % ALIGN == 0
  {
    hide LittleEndian, FromLittleEndian;
    WordSizes();
    LittleEndianRoundTrip(|d|, 4);
    AlignedLeast(4 + |d|, 0);
    assert Frame(d)[..4] == LittleEndian(|d|, 4);
  }

  /** The length in the first four bytes, the least significant first, then the body, then zeros up to
      the next multiple of 4096. */
  ghost predicate Framed(d: seq<byte>, image: seq<byte>) {
    && 4 + |d| <= |image| < 4 + |d| + 4096 && |image| % 4096 == 0
    && Four(image, 0) == |d| && image[4..4 + |d|] == d
    && forall k :: 4 + |d| <= k < |image| ==> image[k] == 0
  }

  lemma FrameIsFramed(d: seq<byte>)
    requires |d| < 0x1_0000_0000
    ensures Framed(d, Frame(d))
  {
    hide LittleEndian, FromLittleEndian, Four;
    AlignedLeast(4 + |d|, 0);
    FrameParts(d);
    PrefixReads(Frame(d));
  }

  lemma SameLength(n: nat, a: nat, b: nat)
    requires n <= a < n + 4096 && n <= b < n + 4096 && a % 4096 == 0 && b % 4096 == 0
    ensures a == b
  {
  }

  lemma SameHeader(n: nat, a: seq<byte>, b: seq<byte>)
    requires n < 0x1_0000_0000 && |a| >= 4 && |b| >= 4 && Four(a, 0) == n && Four(b, 0) == n
    ensures a[..4] == b[..4]
  {
    hide LittleEndian;
    assert Word32(a[..4], n) && Word32(b[..4], n);
    WordBytes(a[..4], n);
    WordBytes(b[..4], n);
  }

  lemma SameFrames(d: seq<byte>, a: seq<byte>, b: seq<byte>)
    requires |d| < 0x1_0000_0000 && Framed(d, a) && Framed(d, b)
    ensures a == b
  {
    SameLength(4 + |d|, |a|, |b|);
    SameHeader(|d|, a, b);
    hide Four;
    forall k | 4 <= k < |a|
      ensures a[k] == b[k]
    {
      if k < 4 + |d| {
        assert a[k] == a[4..4 + |d|][k - 4] && b[k] == b[4..4 + |d|][k - 4];
      }
    }
    hide Framed;
    SameBytes(a, b, 4);
  }

  lemma SameBytes(a: seq<byte>, b: seq<byte>, k: nat)
    requires |a| == |b| && k <= |a| && a[..k] == b[..k] && forall i :: k <= i < |a| ==> a[i] == b[i]
    ensures a == b
  {
    assert forall i :: 0 <= i < k ==> a[i] == a[..k][i] && b[i] == b[..k][i];
  }

  /** The frame of a body is the one image framed that way. */
  lemma FrameExactly(d: seq<byte>, image: seq<byte>)
    requires |d| < 0x1_0000_0000
    ensures image == Frame(d) <==> Framed(d, image)
  {
    hide Frame, Framed;
    FrameIsFramed(d);
    if Framed(d, image) {
      SameFrames(d, image, Frame(d));
    }
  }

  /** The checks of a load, on the bytes of the file. */
  lemma ParseExactly(pb: Codec<Group>, image: seq<byte>, g: Group)
    ensures Parse(pb, image) == Failed(ShortHeader) <==> |image| < 4
    ensures Parse(pb, image) == Failed(TooLarge) <==> |image| >= 4 && Four(image, 0) > 104_857_600
    ensures Parse(pb, image) == Failed(ShortBody)
            <==> |image| >= 4 && Four(image, 0) <= 104_857_600 && |image| < 4 + Four(image, 0)
    ensures Parse(pb, image) == Ok(g) <==>
      && |image| >= 4 && 0 <= Four(image, 0) <= 104_857_600 && 4 + Four(image, 0) <= |image|
      && pb.parse(image[4..4 + Four(image, 0)]) == Some(g)
  {
    hide FromLittleEndian, Four;
    if |image| >= 4 {
      PrefixReads(image);
    }
  }

  /** A spilled group can be loaded back if and only if its encoding is at most 100 MiB. */
  lemma LoadExactly(pb: Codec<Group>, g: Group)
    requires Faithful(pb) && pb.serialize(g).Some?
    ensures Parse(pb, Image(pb, g)) == Ok(g) <==> pb.byteSize(g) <= 104_857_600
    ensures pb.byteSize(g) > 104_857_600 ==> Parse(pb, Image(pb, g)) == Failed(TooLarge)
  {
    hide LittleEndian, FromLittleEndian;
    FrameParts(pb.serialize(g).value);
  }

  // ---------- batches ----------

  function Load(pb: Codec<Group>, files: Files, offset: nat): Result<Group> {
    if offset in files then Parse(pb, files[offset]) else Failed(NoSuchFile)
  }

  /** The directory after writing `groups` under `ids`, in order. */
  function WithFiles(pb: Codec<Group>, files: Files, ids: seq<nat>, groups: seq<Group>): Files
    requires |ids| == |groups|
  {
    if ids == [] then files
    else
      var n := |ids| - 1;
      WithFiles(pb, files, ids[..n], groups[..n])[ids[n] := Image(pb, groups[n])]
  }

  /** Loads in order; the first failure is the result. */
  function LoadAll(pb: Codec<Group>, files: Files, offsets: seq<nat>): Result<seq<Group>> {
    if offsets == [] then Ok([])
    else
      var n := |offsets| - 1;
      match LoadAll(pb, files, offsets[..n])
      case Failed(why) => Failed(why)
      case Ok(gs) =>
        match Load(pb, files, offsets[n])
        case Failed(why) => Failed(why)
        case Ok(g) => Ok(gs + [g])
  }

  lemma NothingWritten(pb: Codec<Group>, files: Files)
    ensures WithFiles(pb, files, [], []) == files
  {
  }

  lemma LoadAllSnoc(pb: Codec<Group>, files: Files, offsets: seq<nat>, offset: nat)
    requires LoadAll(pb, files, offsets).Ok? && Load(pb, files, offset).Ok?
    ensures LoadAll(pb, files, offsets + [offset])
            == Ok(LoadAll(pb, files, offsets).value + [Load(pb, files, offset).value])
  {
    assert (offsets + [offset])[..|offsets|] == offsets;
  }

  predicate Loadable(pb: Codec<Group>, g: Group) {
    pb.byteSize(g) <= MAX_BODY
  }

  lemma {:induction false} OtherFile(pb: Codec<Group>, files: Files, ids: seq<nat>, groups: seq<Group>, o: nat)
    requires |ids| == |groups| && o !in ids
    ensures var after := WithFiles(pb, files, ids, groups);
            (o in after <==> o in files) && (o in files ==> after[o] == files[o])
  {
    hide Image;
    if ids != [] {
      OtherFile(pb, files, ids[..|ids| - 1], groups[..|ids| - 1], o);
    }
  }

  lemma {:induction false} NewFile(pb: Codec<Group>, files: Files, ids: seq<nat>, groups: seq<Group>, i: nat)
    requires |ids| == |groups| && Distinct(ids) && i < |ids|
    ensures var after := WithFiles(pb, files, ids, groups);
            ids[i] in after && after[ids[i]] == Image(pb, groups[i])
  {
    hide Image;
    if i < |ids| - 1 {
      NewFile(pb, files, ids[..|ids| - 1], groups[..|ids| - 1], i);
    }
  }

  lemma WithFilesAt(pb: Codec<Group>, files: Files, ids: seq<nat>, groups: seq<Group>)
    requires |ids| == |groups| && Distinct(ids)
    ensures var after := WithFiles(pb, files, ids, groups);
            && (forall o :: o in after <==> o in files || o in ids)
            && (forall i :: 0 <= i < |ids| ==> after[ids[i]] == Image(pb, groups[i]))
            && (forall o :: o in files && o !in ids ==> after[o] == files[o])
  {
    var after := WithFiles(pb, files, ids, groups);
    hide Image, WithFiles;
    forall i | 0 <= i < |ids|
      ensures ids[i] in after && after[ids[i]] == Image(pb, groups[i])
    {
      NewFile(pb, files, ids, groups, i);
    }
    forall o | o !in ids
      ensures (o in after <==> o in files) && (o in files ==> after[o] == files[o])
    {
      OtherFile(pb, files, ids, groups, o);
    }
  }

  lemma WithFilesSnoc(pb: Codec<Group>, files: Files, ids: seq<nat>, groups: seq<Group>, id: nat, g: Group)
    requires |ids| == |groups|
    ensures WithFiles(pb, files, ids + [id], groups + [g]) == WithFiles(pb, files, ids, groups)[id := Image(pb, g)]
  {
    assert (ids + [id])[..|ids|] == ids && (groups + [g])[..|ids|] == groups;
  }

  lemma {:induction false} LoadAllAt(pb: Codec<Group>, files: Files, offsets: seq<nat>, groups: seq<Group>)
    requires |offsets| == |groups|
    requires forall i :: 0 <= i < |offsets| ==> Load(pb, files, offsets[i]) == Ok(groups[i])
    ensures LoadAll(pb, files, offsets) == Ok(groups)
  {
    if offsets != [] {
      var n := |offsets| - 1;
      LoadAllAt(pb, files, offsets[..n], groups[..n]);
      assert groups == groups[..n] + [groups[n]];
    }
  }

  /** Loading a spilled batch gives the groups in order, and every older file reads as before. */
  lemma BatchRoundTrip(pb: Codec<Group>, files: Files, ids: seq<nat>, groups: seq<Group>)
    requires Faithful(pb) && |ids| == |groups| && Distinct(ids) && Elements(ids) !! files.Keys
    requires forall g :: g in groups ==> Loadable(pb, g)
    ensures LoadAll(pb, WithFiles(pb, files, ids, groups), ids) == Ok(groups)
    ensures forall o :: o in files ==> Load(pb, WithFiles(pb, files, ids, groups), o) == Load(pb, files, o)
  {
    var after := WithFiles(pb, files, ids, groups);
    WithFilesAt(pb, files, ids, groups);
    forall i | 0 <= i < |ids|
      ensures Load(pb, after, ids[i]) == Ok(groups[i])
    {
      assert groups[i] in groups;
      LoadExactly(pb, groups[i]);
    }
    LoadAllAt(pb, after, ids, groups);
    forall o | o in files
      ensures Load(pb, after, o) == Load(pb, files, o)
    {
      assert o !in Elements(ids);
    }
  }

  // ---------- the store ----------

  /** The process-wide atomic counter; every store of every shard draws from it. */
  class FileCounter {
    var next: nat

    constructor ()
      ensures next == 0
    {
      next := 0;
    }
  }

  /** `steady_clock`: nanoseconds since boot, a positive signed 64-bit count that never runs backwards. */
  class SteadyClock {
    var now: nat

    ghost predicate Valid()
      reads this
    {
      0 < now < TWO_63
    }

    constructor ()
      ensures Valid()
    {
      now := 1;
    }

    method Read() returns (t: nat)
      requires Valid()
      modifies this
      ensures Valid() && t == now >= old(now)
    {
      var elapsed: nat :| now + elapsed < TWO_63;
      now := now + elapsed;
      t := now;
    }

    /** At least the given time passes. */
    method Sleep(nanos: nat)
      requires Valid() && now + nanos < TWO_63
      modifies this
      ensures Valid() && now >= old(now) + nanos
    {
      var elapsed: nat :| nanos <= elapsed && now + elapsed < TWO_63;
      now := now + elapsed;
    }
  }

  class DiskStorage {
    const pb: Codec<Group>
    const clock: SteadyClock
    const counter: FileCounter
    var initialized: bool
    var files: Files
    ghost var lastClock: nat      // clock reading and counter value after this store's last spill
    ghost var lastCounter: nat

    /** Every file in the directory was named before the next name. */
    ghost predicate Valid()
      reads this
    {
      forall o :: o in files ==> o < lastClock + lastCounter
    }

    /** Clock and counter have only moved forward since the last spill, and the counter has room
        for the given number of files. */
    ghost predicate Ready(spills: nat)
      reads this, clock, counter
    {
      clock.Valid() && clock.now >= lastClock && counter.next >= lastCounter && counter.next + spills <= TWO_63
    }

    constructor (pb: Codec<Group>, clock: SteadyClock, counter: FileCounter)
      ensures Valid() && !initialized && files == map[]
      ensures this.pb == pb && this.clock == clock && this.counter == counter
      ensures lastClock == lastCounter == 0
    {
      this.pb := pb;
      this.clock := clock;
      this.counter := counter;
      initialized := false;
      files := map[];
      lastClock, lastCounter := 0, 0;
    }

    method Init()
      requires Valid()
      modifies this`initialized
      ensures initialized
    {
      initialized := true;
    }

    method Shutdown()
      modifies this`initialized
      ensures !initialized
    {
      initialized := false;
    }

    method FillBuffer(data: seq<byte>) returns (buffer: array<byte>)
      requires |data| < TWO_31
      ensures fresh(buffer) && buffer[..] == Frame(data) && Framed(data, buffer[..])
    {
      hide LittleEndian, FromLittleEndian, AlignedSize, Framed;
      FrameIsFramed(data);
      AlignedLeast(4 + |data|, 0);
      var total := 4 + |data|;
      var header := LittleEndian(|data| % TWO_32, 4);
      buffer := new byte[AlignedSize(total)](_ => 0);
      for i := 0 to 4
        invariant buffer[..i] == header[..i]
      {
        buffer[i] := header[i];
      }
      for i := 0 to |data|
        invariant buffer[..4] == header && buffer[4..4 + i] == data[..i]
      {
        buffer[4 + i] := data[i];
      }
      for i := total to buffer.Length
        invariant buffer[..total] == header + data
        invariant forall k :: total <= k < i ==> buffer[k] == 0
      {
        buffer[i] := 0;
      }
      assert buffer[..] == buffer[..total] + buffer[total..];
    }

    /** A new file holding exactly the frame of the group, under a positive name no live file has. */
    method Spill(group: Group) returns (r: Result<nat>)
      requires Faithful(pb) && Valid() && Ready(1)
      modifies this`files, this`lastClock, this`lastCounter, clock, counter
      ensures Valid() && Ready(0) && clock.now >= old(clock.now)
      ensures r.Ok? <==> initialized && pb.serialize(group).Some?
      ensures !r.Ok? ==>
        && files == old(files) && counter.next == old(counter.next)
        && lastClock == old(lastClock) && lastCounter == old(lastCounter)
      ensures r.Ok? ==>
        && r.value == lastClock + old(counter.next) > 0
        && old(lastClock + lastCounter) <= r.value < lastClock + lastCounter
        && files == old(files)[r.value := Image(pb, group)]
        && counter.next == old(counter.next) + 1
    {
      if !initialized {
        return Failed(NotInitialized);
      }
      match pb.serialize(group)
      case None => return Failed(SerializeFailed);
      case Some(data) =>
        var t := clock.Read();
        var id := (t + counter.next) % TWO_64;
        counter.next := counter.next + 1;
        var buffer := FillBuffer(data);
        files := files[id := buffer[..]];
        lastClock, lastCounter := t, counter.next;
        r := Ok(id);
    }

    /** Positive names, distinct from each other and from every live file. */
    ghost predicate NewNames(names: seq<nat>, before: Files)
      reads this
    {
      && Distinct(names)
      && forall i :: 0 <= i < |names| ==> 0 < names[i] < lastClock + lastCounter && names[i] !in before
    }

    method SpillBatch(groups: seq<Group>) returns (r: Result<seq<nat>>)
      requires Faithful(pb) && Valid() && Ready(|groups|)
      modifies this`files, this`lastClock, this`lastCounter, clock, counter
      ensures Valid() && Ready(0) && clock.now >= old(clock.now)
      ensures r.Ok? <==> forall g :: g in groups ==> initialized && pb.serialize(g).Some?
      ensures forall o :: o in old(files) ==> o in files && files[o] == old(files)[o]
      ensures old(counter.next) <= counter.next <= old(counter.next) + |groups|
      ensures old(lastClock + lastCounter) <= lastClock + lastCounter
      ensures r.Ok? ==>
        && |r.value| == |groups| && NewNames(r.value, old(files))
        && files == WithFiles(pb, old(files), r.value, groups)
    {
      hide Image, Faithful, WithFiles;
      ghost var before, first := files, counter.next;
      NothingWritten(pb, before);
      var offsets: seq<nat> := [];
      assert groups[..0] == [];
      for k := 0 to |groups|
        invariant Valid() && Ready(|groups| - k) && counter.next == first + k && clock.now >= old(clock.now)
        invariant |offsets| == k && NewNames(offsets, before)
        invariant old(lastClock + lastCounter) <= lastClock + lastCounter
        invariant files == WithFiles(pb, before, offsets, groups[..k])
        invariant forall i :: 0 <= i < k ==> initialized && pb.serialize(groups[i]).Some?
      {
        var id := Spill(groups[k]);
        if id.Failed? {
          assert groups[k] in groups;
          WithFilesAt(pb, before, offsets, groups[..k]);
          return Failed(id.why);
        }
        assert groups[..k + 1] == groups[..k] + [groups[k]];
        WithFilesSnoc(pb, before, offsets, groups[..k], id.value, groups[k]);
        offsets := offsets + [id.value];
      }
      assert groups[..|groups|] == groups;
      WithFilesAt(pb, before, offsets, groups);
      r := Ok(offsets);
    }

    method LoadOne(offset: nat) returns (r: Result<Group>)
      ensures r == if initialized then Load(pb, files, offset) else Failed(NotInitialized)
    {
      if !initialized {
        return Failed(NotInitialized);
      }
      if offset !in files {
        return Failed(NoSuchFile);
      }
      var image := files[offset];
      if |image| < 4 {
        return Failed(ShortHeader);
      }
      var len := FromLittleEndian(image[..4]);
      if len > MAX_BODY {
        return Failed(TooLarge);
      }
      if |image| - 4 < len {
        return Failed(ShortBody);
      }
      match pb.parse(image[4..4 + len])
      case None => return Failed(ParseFailed);
      case Some(g) => return Ok(g);
    }

    method LoadBatch(offsets: seq<nat>) returns (r: Result<seq<Group>>)
      ensures r == if initialized || offsets == [] then LoadAll(pb, files, offsets) else Failed(NotInitialized)
    {
      var results: seq<Group> := [];
      for k := 0 to |offsets|
        invariant LoadAll(pb, files, offsets[..k]) == Ok(results) && (k > 0 ==> initialized)
      {
        assert offsets[..k + 1][..k] == offsets[..k];
        var g := LoadOne(offsets[k]);
        if g.Failed? {
          if initialized {
            LoadAllFails(pb, files, offsets, k, g.why);
          }
          return Failed(g.why);
        }
        results := results + [g.value];
      }
      assert offsets[..|offsets|] == offsets;
      r := Ok(results);
    }

    /** Removing before `init` does nothing; a missing file is an error. */
    method Remove(offset: nat) returns (ok: bool)
      requires Valid()
      modifies this`files
      ensures Valid() && (ok <==> !initialized || offset in old(files))
      ensures files == if initialized then old(files) - {offset} else old(files)
    {
      if !initialized {
        return true;
      }
      ok := offset in files;
      files := files - {offset};
    }
  }

  lemma {:induction false} LoadAllFails(pb: Codec<Group>, files: Files, offsets: seq<nat>, k: nat, why: Failure)
    requires k < |offsets| && LoadAll(pb, files, offsets[..k]).Ok? && Load(pb, files, offsets[k]) == Failed(why)
    ensures LoadAll(pb, files, offsets) == Failed(why)
  {
    var n := |offsets| - 1;
    if k < n {
      assert offsets[..n][..k] == offsets[..k];
      LoadAllFails(pb, files, offsets[..n], k, why);
    }
  }

  /** What is spilled comes back: the same groups in the same order, with nothing older overwritten. */
  method SpillThenLoad(disk: DiskStorage, groups: seq<Group>) returns (r: Result<seq<Group>>)
    requires Faithful(disk.pb) && disk.Valid() && disk.initialized && disk.Ready(|groups|)
    requires forall g :: g in groups ==> Loadable(disk.pb, g)
    modifies disk`files, disk`lastClock, disk`lastCounter, disk.clock, disk.counter
    ensures r == Ok(groups)
    ensures forall o :: o in old(disk.files) ==> Load(disk.pb, disk.files, o) == old(Load(disk.pb, disk.files, o))
  {
    hide WithFiles, LoadAll, Image;
    ghost var before := disk.files;
    AllSerialize(disk.pb, groups);
    var offsets := disk.SpillBatch(groups);
    assert Elements(offsets.value) !! before.Keys;
    BatchRoundTrip(disk.pb, before, offsets.value, groups);
    r := disk.LoadBatch(offsets.value);
  }

  lemma AllSerialize(pb: Codec<Group>, groups: seq<Group>)
    requires Faithful(pb) && forall g :: g in groups ==> Loadable(pb, g)
    ensures forall g :: g in groups ==> pb.serialize(g).Some?
  {
  }
}
