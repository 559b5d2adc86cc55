/** The manager over all shards of the process: routing, batches, merged consuming reads,
    polling and aggregated status. */
module BufferManagers {
  import opened Prelude
  import opened Protobuf
  import opened Trajectories
  import opened DiskStorages
  import opened DedupFilters
  import opened ShardModel
  import opened ShardInvariant
  import opened ShardSteps
  import opened ShardBounds
  import opened ShardHistory
  import opened Routing
  import opened BufferShards

  const POLL_INTERVAL: nat := 10_000_000

  function Deadline(start: nat, timeoutMs: int): int {
    start + timeoutMs * 1_000_000
  }

  /** One poll per started 10 ms of the timeout, and the last one. */
  function MaxPolls(timeoutMs: int): nat {
    if timeoutMs <= 0 then 1 else (timeoutMs + 9) / 10 + 1
  }

  class BufferManager {
    const shards: seq<BufferShard>
    const stdHash: string -> nat
    const clock: SteadyClock
    const counter: FileCounter
    ghost const x: Fixed

    ghost predicate Own(i: nat)
      requires i < |shards|
      reads *
    {
      var s := shards[i];
      && s.Valid() && s.disk.clock == clock && s.disk.counter == counter && s.disk.Ready(0) && s.Params() == x
      && clock !in s.Repr() && counter !in s.Repr()
    }

    ghost predicate Sound()
      reads *
    {
      && |shards| > 0
      && (forall i :: 0 <= i < |shards| ==> Own(i))
      && (forall i, j :: 0 <= i < j < |shards| ==> shards[i].Repr() !! shards[j].Repr())
    }

    ghost function States(): (ss: seq<Shard>)
      reads *
      ensures |ss| == |shards| && forall i :: 0 <= i < |ss| ==> ss[i] == shards[i].State()
    {
      seq(|shards|, i requires 0 <= i < |shards| reads * => shards[i].State())
    }

    /** Every shard is sound, shards share nothing, and every id lives on the shard it routes to. */
    ghost predicate Valid()
      reads *
    {
      Sound() && Routed(stdHash, States())
    }

    ghost function Footprint(): set<object>
      reads *
    {
      {clock, counter} + set i, o | 0 <= i < |shards| && o in shards[i].Repr() :: o
    }

    constructor (count: nat, config: Config, pb: Codec<Group>, stdHash: string -> nat,
                 dedupMax: nat, bitCount: nat, numHashes: nat)
      requires count > 0 && Faithful(pb) && bitCount > 0 && numHashes > 0
      ensures Valid() && fresh(Footprint()) && this.stdHash == stdHash && x.pb == pb
      ensures States() == seq(count, _ => Fresh(config))
    {
      hide BufferShard.Valid, BufferShard.State, BufferShard.Repr, BufferShard.Params, Newborn;
      var clock := new SteadyClock();
      var counter := new FileCounter();
      var made := StartAll(count, config, pb, clock, counter, stdHash, dedupMax, bitCount, numHashes);
      ghost var x := Fixed(pb, if dedupMax > 1 then dedupMax else 1, bitCount / 8);
      this.shards, this.stdHash, this.clock, this.counter, this.x := made, stdHash, clock, counter, x;
      new;
      AllNewborn(config);
    }

    lemma AllNewborn(config: Config)
      requires |shards| > 0 && clock.Valid()
      requires forall i :: 0 <= i < |shards| ==> Newborn(shards[i], clock, counter, x, config)
      requires forall i, j :: 0 <= i < j < |shards| ==> shards[i].Repr() !! shards[j].Repr()
      ensures Valid() && States() == seq(|shards|, _ => Fresh(config))
    {
      hide BufferShard.Valid, BufferShard.State, BufferShard.Repr, BufferShard.Params;
      assert States() == seq(|shards|, _ => Fresh(config));
    }

    /** What the other shards own. */
    ghost function Others(sid: nat): set<object>
      reads *
    {
      set j, o | 0 <= j < |shards| && j != sid && o in shards[j].Repr() :: o
    }

    /** After an operation on one shard. */
    twostate lemma OneShard(sid: nat)
      requires sid < |shards| && old(Sound()) && Own(sid)
      requires fresh(shards[sid].Repr() - old(shards[sid].Repr()))
      requires old(allocated(Others(sid))) && unchanged(old(Others(sid)))
      requires clock.now >= old(clock.now) && counter.next >= old(counter.next)
      ensures Sound() && States() == old(States())[sid := shards[sid].State()]
      ensures fresh(Footprint() - old(Footprint()))
    {
      hide BufferShard.Valid, BufferShard.State, BufferShard.Repr, BufferShard.Params;
      forall j | 0 <= j < |shards| && j != sid
        ensures Own(j) && shards[j].Repr() == old(shards[j].Repr()) && shards[j].State() == old(shards[j].State())
        ensures shards[j].Repr() !! shards[sid].Repr()
      {
        assert old(Own(j));
        assert old(shards[j].Repr()) <= old(Others(sid));
        shards[j].Untouched();
      }
      assert States() == old(States())[sid := shards[sid].State()];
    }

    lemma Separate()
      requires Sound()
      ensures forall j :: 0 <= j < |shards| ==>
        allocated(shards[j].Repr()) && clock !in shards[j].Repr() && counter !in shards[j].Repr()
      ensures clock in Footprint() && counter in Footprint() && clock.Valid()
    {
      hide BufferShard.Repr, BufferShard.Valid;
      assert Own(0);
      forall j | 0 <= j < |shards|
        ensures allocated(shards[j].Repr()) && clock !in shards[j].Repr() && counter !in shards[j].Repr()
      {
        assert Own(j);
        shards[j].ReprAllocated();
      }
    }

    /** After a computation that touched no shard. */
    twostate lemma Untouched()
      requires old(Sound()) && counter.next == old(counter.next)
      requires clock.now == old(clock.now) || (clock.Valid() && clock.now >= old(clock.now))
      requires forall j :: 0 <= j < |shards| ==> unchanged(old(shards[j].Repr()))
      ensures Sound() && States() == old(States()) && Footprint() == old(Footprint())
    {
      hide BufferShard.Valid, BufferShard.State, BufferShard.Repr, BufferShard.Params;
      forall j | 0 <= j < |shards|
        ensures Own(j) && shards[j].Repr() == old(shards[j].Repr()) && shards[j].State() == old(shards[j].State())
      {
        assert old(Own(j));
        shards[j].Untouched();
      }
      assert States() == old(States());
      assert Footprint() == old(Footprint());
    }

    // ---------- one shard at a time ----------

    lemma OthersApart(sid: nat)
      requires Sound() && sid < |shards|
      ensures Own(sid)
      ensures allocated(Others(sid)) && Others(sid) !! shards[sid].Repr() + {clock, counter}
    {
      hide BufferShard.Valid, BufferShard.State, BufferShard.Repr, BufferShard.Params;
      forall j | 0 <= j < |shards| && j != sid
        ensures allocated(shards[j].Repr()) && shards[j].Repr() !! shards[sid].Repr() + {clock, counter}
      {
        assert Own(j);
        shards[j].ReprAllocated();
      }
    }

    /** The batch handed to one shard. */
    method SubmitBatch(sid: nat, batch: seq<Trajectory>) returns (written: nat, ghost envs: seq<Env>)
      requires sid < |shards| && Sound() && BatchSafe(x, States()[sid], batch)
      requires counter.next + Room(|batch|, |States()[sid].groups| + |batch|) <= TWO_63
      modifies shards[sid].Repr(), clock, counter
      ensures Sound() && fresh(Footprint() - old(Footprint())) && clock.now >= old(clock.now)
      ensures old(counter.next) <= counter.next
      ensures counter.next <= old(counter.next + Room(|batch|, |States()[sid].groups| + |batch|))
      ensures States() == old(States())[sid := States()[sid]]
      ensures BatchDone(x, old(States()[sid]), batch, envs, States()[sid], written)
      ensures AllBetween(envs, old(clock.now), clock.now)
    {
      hide BufferShard.Valid, BufferShard.Repr, BufferShard.Params, BatchDone, BatchSafe, Room, Footprint, Others;
      var s := shards[sid];
      OthersApart(sid);
      written, envs := s.BatchWrite(batch);
      OneShard(sid);
    }

    method ReadShard(sid: nat, max: int) returns (result: seq<Group>, ghost order: seq<string>)
      requires sid < |shards| && Sound()
      modifies shards[sid].Repr()
      ensures Sound() && fresh(Footprint() - old(Footprint()))
      ensures clock.now == old(clock.now) && counter.next == old(counter.next)
      ensures IsOrder(order, old(States()[sid].groups.Keys)) && Inv(x.pb, old(States()[sid]))
      ensures var (s', gs) := Read(x, old(States()[sid]), max, order);
              States() == old(States())[sid := s'] && result == gs
    {
      hide BufferShard.Valid, Others, DedupFilter.Repr, Read, Inv, Footprint;
      var s := shards[sid];
      OthersApart(sid);
      s.ValidFacts();
      result, order := s.ReadReadyGroups(max);
      OneShard(sid);
    }

    method ResetShard(sid: nat)
      requires sid < |shards| && Sound()
      modifies shards[sid].Repr()
      ensures Sound() && fresh(Footprint() - old(Footprint()))
      ensures clock.now == old(clock.now) && counter.next == old(counter.next)
      ensures States() == old(States())[sid := Fresh(old(States()[sid].cfg))]
    {
      hide BufferShard.Valid, Others, DedupFilter.Repr, ShardModel.Reset, Fresh, Footprint;
      var s := shards[sid];
      OthersApart(sid);
      s.Reset();
      OneShard(sid);
    }

    method ConfigureShard(sid: nat, config: Config)
      requires sid < |shards| && Sound()
      modifies shards[sid].Repr()
      ensures Sound() && fresh(Footprint() - old(Footprint()))
      ensures clock.now == old(clock.now) && counter.next == old(counter.next)
      ensures States() == old(States())[sid := Reconfigure(old(States()[sid]), config)]
    {
      hide BufferShard.Valid, Others, DedupFilter.Repr, Reconfigure, Footprint;
      var s := shards[sid];
      OthersApart(sid);
      s.UpdateConfig(config);
      OneShard(sid);
    }

    /** The periodic timeout check of one shard. */
    method CheckTimeoutsOn(sid: nat) returns (ghost now: nat)
      requires sid < |shards| && Valid()
      modifies shards[sid].Repr(), clock
      ensures Valid() && fresh(Footprint() - old(Footprint()))
      ensures old(clock.now) <= now <= clock.now
      ensures States() == old(States())[sid := CheckTimeouts(old(States()[sid]), now)]
    {
      hide BufferShard.Valid, Others, DedupFilter.Repr, Footprint;
      var s := shards[sid];
      OthersApart(sid);
      ghost var before := States();
      now := s.CheckGroupTimeouts();
      OneShard(sid);
      RoutedUpdate(stdHash, before, sid, States()[sid]);
    }

    // ---------- routed operations ----------

    method Write(t: Trajectory) returns (ok: bool, ghost env: Env)
      requires Valid()
      requires var s := States()[ShardFor(stdHash, |shards|, t.instanceId)];
               && WriteSafe(x, s, t)
               && counter.next + |s.groups| + 1 <= TWO_63
      modifies Footprint()
      ensures Valid() && fresh(Footprint() - old(Footprint()))
      ensures old(clock.now) <= env.now <= clock.now
      ensures Served(old(States()[ShardFor(stdHash, |shards|, t.instanceId)]), t, env)
      ensures (States(), if ok then 1 else 0) == Serial(x, stdHash, old(States()), [Item(t, env)])
    {
      hide BufferShard.Valid, Others, DedupFilter.Repr, ShardModel.Write, WriteSafe, WriteAllowed, Inv, GoodChoice, IsOrder;
      var sid := ShardFor(stdHash, |shards|, t.instanceId);
      var s := shards[sid];
      OthersApart(sid);
      ghost var before := States();
      ghost var now, c;
      ok, now, c := s.Write(t);
      env := Env(now, c);
      OneShard(sid);
      SerialOne(x, stdHash, before, t, env);
      RoutedStep(x, stdHash, before, sid, DoWrite(t, now, c));
    }

    method DeleteInstance(id: string)
      requires Valid()
      modifies Footprint()
      ensures Valid() && fresh(Footprint() - old(Footprint()))
      ensures clock.now == old(clock.now) && counter.next == old(counter.next)
      ensures var sid := ShardFor(stdHash, |shards|, id);
              States() == old(States())[sid := Remove(old(States()[sid]), id)]
    {
      hide BufferShard.Valid, Others, DedupFilter.Repr;
      var sid := ShardFor(stdHash, |shards|, id);
      var s := shards[sid];
      OthersApart(sid);
      ghost var before := States();
      s.DeleteInstance(id);
      OneShard(sid);
      RoutedUpdate(stdHash, before, sid, States()[sid]);
    }

    // ---------- batches ----------

    /** Files that each shard's share may write, at most. */
    ghost function Rooms(ss: seq<Shard>, ts: seq<Trajectory>): (rooms: seq<nat>)
      requires |shards| == |ss| > 0
      ensures |rooms| == |shards|
    {
      seq(|shards|, i requires 0 <= i < |shards| =>
        var n := |Share(stdHash, |shards|, ts, i)|; Room(n, |ss[i].groups| + n))
    }

    ghost predicate SharesSafe(ss: seq<Shard>, ts: seq<Trajectory>)
      requires |shards| == |ss| > 0
    {
      forall i :: 0 <= i < |shards| ==> BatchSafe(x, ss[i], Share(stdHash, |shards|, ts, i))
    }

    /** Splits the batch by shard, in input order. */
    method Partition(ts: seq<Trajectory>) returns (byShard: map<nat, seq<Trajectory>>)
      requires |shards| > 0
      ensures IsPartition(stdHash, |shards|, ts, byShard)
    {
      byShard := map[];
      assert ts[..0] == [];
      for i := 0 to |ts|
        invariant IsPartition(stdHash, |shards|, ts[..i], byShard)
      {
        PartitionSnoc(stdHash, |shards|, ts[..i], ts[i], byShard);
        assert ts[..i + 1] == ts[..i] + [ts[i]];
        var sid := ShardFor(stdHash, |shards|, ts[i].instanceId);
        byShard := byShard[sid := (if sid in byShard then byShard[sid] else []) + [ts[i]]];
      }
      assert ts[..|ts|] == ts;
    }

    /** A batch partly handed out: what the shards in `done` did, and the file names left for the others. */
    ghost predicate Underway(ss: seq<Shard>, ts: seq<Trajectory>, done: seq<nat>, book: Ledger)
      reads *
    {
      && Sound() && |ss| == |book.left| == |shards| && SharesSafe(ss, ts)
      && Submitted(x, stdHash, ss, ts, done, book.envs, States(), book.counts)
      && counter.next + Total(book.left) <= TWO_63
      && forall i :: 0 <= i < |ss| && i !in done ==> book.left[i] == Rooms(ss, ts)[i]
    }

    lemma NothingUnderway(ts: seq<Trajectory>)
      requires Sound() && SharesSafe(States(), ts) && counter.next + Total(Rooms(States(), ts)) <= TWO_63
      ensures var book := Opened(Rooms(States(), ts));
              Underway(States(), ts, [], book) && Total(book.counts) == 0
    {
      hide BufferShard.Valid, BufferShard.State, BufferShard.Repr, Own, Share, Total, Room, BatchSafe, BatchDone;
      NoneSubmitted(x, stdHash, States(), ts);
    }

    lemma AllUnderway(ss: seq<Shard>, ts: seq<Trajectory>, byShard: map<nat, seq<Trajectory>>, done: seq<nat>, book: Ledger)
      requires |shards| > 0 && Underway(ss, ts, done, book)
      requires IsPartition(stdHash, |shards|, ts, byShard) && IsOrder(done, byShard.Keys)
      ensures Sound() && SharesDone(x, stdHash, ss, ts, book.envs, States(), book.counts)
    {
      hide BufferShard.Valid, BufferShard.State, BufferShard.Repr, Own, Share, Total, Room, BatchSafe, BatchDone, Submitted;
      AllSubmitted(x, stdHash, ss, ts, byShard, done, book.envs, States(), book.counts);
    }

    lemma NextShare(ss: seq<Shard>, ts: seq<Trajectory>, done: seq<nat>, book: Ledger, sid: nat)
      requires sid < |shards| && sid !in done && Underway(ss, ts, done, book)
      ensures var share := Share(stdHash, |shards|, ts, sid);
              && |book.envs| == |book.counts| == |book.left| == |shards|
              && States()[sid] == ss[sid] && BatchSafe(x, ss[sid], share)
              && counter.next + Room(|share|, |ss[sid].groups| + |share|) + Total(book.left[sid := 0]) <= TWO_63
    {
      hide BufferShard.Valid, BufferShard.State, BufferShard.Repr, Own, Share, Total, Room, BatchSafe, BatchDone;
      TotalUpdate(book.left, sid, 0);
    }

    lemma InFootprint(sid: nat)
      requires sid < |shards|
      ensures shards[sid].Repr() <= Footprint() && clock in Footprint() && counter in Footprint()
    {
    }

    method SubmitNext(sid: nat, batch: seq<Trajectory>, ghost ss: seq<Shard>, ghost ts: seq<Trajectory>,
                      ghost done: seq<nat>, ghost book: Ledger, ghost from: nat)
      returns (n: nat, ghost after: Ledger)
      requires sid < |shards| && sid !in done && Underway(ss, ts, done, book)
      requires batch == Share(stdHash, |shards|, ts, sid)
      requires from <= clock.now && Within(book, from, clock.now)
      modifies Footprint()
      ensures fresh(Footprint() - old(Footprint())) && clock.now >= old(clock.now)
      ensures Underway(ss, ts, done + [sid], after) && Total(after.counts) == Total(book.counts) + n
      ensures Within(after, from, clock.now)
    {
      hide BufferShard.Valid, BufferShard.State, BufferShard.Repr, Own, Sound, States, Share, Submitted, Total, Room,
        BatchSafe, BatchDone, Footprint, SharesSafe, Rooms;
      ghost var mid := States();
      NextShare(ss, ts, done, book, sid);
      InFootprint(sid);
      ghost var es;
      n, es := SubmitBatch(sid, batch);
      after := Ledger(book.envs[sid := es], book.counts[sid := n], book.left[sid := 0]);
      SubmittedMore(x, stdHash, ss, ts, done, book.envs, mid, book.counts, sid, es, States()[sid], n);
    }

    /** The shards take their shares in the given order. */
    method SubmitInOrder(order: seq<nat>, byShard: map<nat, seq<Trajectory>>,
                         ghost ss: seq<Shard>, ghost ts: seq<Trajectory>, ghost before: Ledger)
      returns (results: seq<nat>, ghost book: Ledger)
      requires |shards| > 0 && Underway(ss, ts, [], before) && Total(before.counts) == 0
      requires Within(before, clock.now, clock.now)
      requires IsPartition(stdHash, |shards|, ts, byShard) && IsOrder(order, byShard.Keys)
      modifies Footprint()
      ensures fresh(Footprint() - old(Footprint())) && clock.now >= old(clock.now)
      ensures Underway(ss, ts, order, book) && Total(book.counts) == Total(results)
      ensures Within(book, old(clock.now), clock.now)
    {
      hide *;
      results, book := [], before;
      NoResults();
      assert order[..0] == [];
      for k := 0 to |order|
        invariant fresh(Footprint() - old(Footprint())) && clock.now >= old(clock.now)
        invariant Underway(ss, ts, order[..k], book) && Total(results) == Total(book.counts)
        invariant Within(book, old(clock.now), clock.now)
      {
        NextKey(stdHash, |shards|, ts, byShard, order, k);
        ghost var footprint := Footprint();
        var n;
        label before:
        n, book := SubmitNext(order[k], byShard[order[k]], ss, ts, order[..k], book, old(clock.now));
        forall o | o in Footprint() && o !in old(Footprint())
          ensures fresh(o)
        {
          assert o in footprint - old(Footprint()) || fresh@before(o);
        }
        TotalSnoc(results, n);
        assert order[..k + 1] == order[..k] + [order[k]];
        results := results + [n];
      }
      assert order[..|order|] == order;
    }

    /** Every shard that has a share takes it; the shards come in any order. */
    method SubmitAll(ghost ts: seq<Trajectory>, byShard: map<nat, seq<Trajectory>>)
      returns (results: seq<nat>, ghost book: Ledger)
      requires Sound() && IsPartition(stdHash, |shards|, ts, byShard) && SharesSafe(States(), ts)
      requires counter.next + Total(Rooms(States(), ts)) <= TWO_63
      modifies Footprint()
      ensures Sound() && fresh(Footprint() - old(Footprint())) && clock.now >= old(clock.now)
      ensures SharesDone(x, stdHash, old(States()), ts, book.envs, States(), book.counts)
      ensures Total(book.counts) == Total(results) && Within(book, old(clock.now), clock.now)
    {
      assert |shards| > 0;
      EmptyBook(Rooms(States(), ts), clock.now);
      hide *;
      ghost var ss := States();
      var order := IterationOrder(byShard.Keys);
      NothingUnderway(ts);
      label submit:
      results, book := SubmitInOrder(order, byShard, ss, ts, Opened(Rooms(ss, ts)));
      forall o | o in Footprint() && o !in old(Footprint())
        ensures fresh(o)
      {
        assert fresh@submit(o);
      }
      AllUnderway(ss, ts, byShard, order, book);
    }

    /** The batch is split and every shard takes its share. */
    method TakeShares(ts: seq<Trajectory>) returns (results: seq<nat>, ghost book: Ledger)
      requires Sound() && SharesSafe(States(), ts)
      requires counter.next + Total(Rooms(States(), ts)) <= TWO_63
      modifies Footprint()
      ensures Sound() && fresh(Footprint() - old(Footprint())) && clock.now >= old(clock.now)
      ensures SharesDone(x, stdHash, old(States()), ts, book.envs, States(), book.counts)
      ensures Total(book.counts) == Total(results) && Within(book, old(clock.now), clock.now)
    {
      assert |shards| > 0;
      hide *;
      var byShard := Partition(ts);
      label submit:
      results, book := SubmitAll(ts, byShard);
      forall o | o in Footprint() && o !in old(Footprint())
        ensures fresh(o)
      {
        assert fresh@submit(o);
      }
    }

    /** Adding up touches no shard. */
    method AddUp(results: seq<nat>) returns (total: nat)
      ensures total == Total(results)
      ensures Sound() == old(Sound()) && States() == old(States()) && Footprint() == old(Footprint())
      ensures clock.now == old(clock.now)
    {
      hide *;
      total := Added(results);
    }

    /** The shards take their shares and the accepted writes are added up: the batch does what writing
        it one by one, in input order, does. */
    method BatchWrite(ts: seq<Trajectory>) returns (total: nat, ghost items: seq<Item>)
      requires Valid() && SharesSafe(States(), ts)
      requires counter.next + Total(Rooms(States(), ts)) <= TWO_63
      modifies Footprint()
      ensures Valid() && fresh(Footprint() - old(Footprint())) && clock.now >= old(clock.now)
      ensures Writes(items) == ts && ItemsServed(x, stdHash, old(States()), items)
      ensures forall item :: item in items ==> old(clock.now) <= item.env.now <= clock.now
      ensures (States(), total) == Serial(x, stdHash, old(States()), items)
    {
      assert |shards| > 0;
      hide BufferShard.Valid, BufferShard.State, BufferShard.Repr, Footprint, Own, Sound, States, Share, Total, Rooms,
        SharesSafe, SharesDone, Routed, IsPartition, Serial, Weave, ItemsServed, EnoughEnvs, Within, ShardFor, Writes;
      ghost var ss := States();
      var results;
      ghost var book;
      results, book := TakeShares(ts);
      BatchOutcome(x, stdHash, ss, ts, book, States(), old(clock.now), clock.now);
      items := Weave(stdHash, ts, book.envs);
      label add:
      total := AddUp(results);
      forall o | o in Footprint() && o !in old(Footprint())
        ensures fresh(o)
      {
        assert o in old@add(Footprint());
      }
    }

    // ---------- reads ----------

    /** One consuming read per shard, each with the full limit. */
    method ReadAllShards(max: int) returns (results: seq<seq<Group>>, ghost orders: seq<seq<string>>)
      requires Sound()
      modifies Footprint()
      ensures Sound() && fresh(Footprint() - old(Footprint()))
      ensures clock.now == old(clock.now) && counter.next == old(counter.next)
      ensures ReadSoFar(x, old(States()), max, |shards|, orders, results, States())
    {
      hide BufferShard.Valid, BufferShard.State, BufferShard.Repr, Footprint, Own, Sound, States, ReadSoFar, Read, Inv, IsOrder;
      results, orders := [], [];
      NothingRead(x, States(), max);
      for k := 0 to |shards|
        invariant Sound() && fresh(Footprint() - old(Footprint())) && |orders| == k
        invariant clock.now == old(clock.now) && counter.next == old(counter.next)
        invariant ReadSoFar(x, old(States()), max, k, orders, results, States())
      {
        ghost var mid := States();
        InFootprint(k);
        var result;
        ghost var order;
        label read:
        result, order := ReadShard(k, max);
        forall o | o in Footprint() && o !in old(Footprint())
          ensures fresh(o)
        {
          assert o in old@read(Footprint()) || fresh@read(o);
        }
        ReadOneShard(x, old(States()), max, orders, results, mid, order);
        results, orders := results + [result], orders + [order];
      }
    }

    /** The groups of all shards one after the other, cut to the limit; what is cut off is gone. */
    method ReadReadyGroups(max: int) returns (merged: seq<Group>, ghost orders: seq<seq<string>>, ghost results: seq<seq<Group>>)
      requires Valid()
      modifies Footprint()
      ensures Valid() && fresh(Footprint() - old(Footprint()))
      ensures clock.now == old(clock.now) && counter.next == old(counter.next)
      ensures ReadSoFar(x, old(States()), max, |shards|, orders, results, States())
      ensures merged == Truncated(Merged(results, |results|), max)
      ensures var ready := Ready(old(States()), |shards|); |merged| == if 0 < max < ready then max else ready
    {
      hide BufferShard.Valid, BufferShard.State, BufferShard.Repr, Footprint, Own, States, ReadSoFar, Merged, Ready,
        Routed, Faithful;
      ghost var ss := States();
      var perShard;
      perShard, orders := ReadAllShards(max);
      results := perShard;
      RoutedReads(x, stdHash, ss, max, orders, results, States());
      MergedIsExact(x, ss, max, orders, results, States());
      ResultsSize(x, ss, max, |shards|, orders, results, States());
      merged := MergeAll(perShard);
      if max > 0 && |merged| > max {
        merged := merged[..max];
      }
    }

    method HasReadyGroups() returns (ready: bool)
      requires |shards| > 0
      ensures ready <==> Ready(States(), |shards|) > 0
    {
      hide ReadyIds, States, Ready;
      ready := false;
      NoneReady(States());
      for k := 0 to |shards|
        invariant ready <==> Ready(States(), k) > 0
      {
        var r := shards[k].HasReadyGroups();
        ReadyMore(States(), k);
        ready := ready || r;
      }
    }

    // ---------- broadcasts ----------

    method Reset()
      requires Valid()
      modifies Footprint()
      ensures Valid() && fresh(Footprint() - old(Footprint()))
      ensures clock.now == old(clock.now) && counter.next == old(counter.next)
      ensures forall i :: 0 <= i < |shards| ==> States()[i] == Fresh(old(States())[i].cfg)
    {
      hide BufferShard.Valid, BufferShard.State, BufferShard.Repr, Footprint, Own, Sound, States;
      for k := 0 to |shards|
        invariant Sound() && fresh(Footprint() - old(Footprint()))
        invariant clock.now == old(clock.now) && counter.next == old(counter.next)
        invariant forall i :: 0 <= i < |shards| ==>
          States()[i] == if i < k then Fresh(old(States())[i].cfg) else old(States())[i]
      {
        InFootprint(k);
        label reset:
        ResetShard(k);
        forall o | o in Footprint() && o !in old(Footprint())
          ensures fresh(o)
        {
          assert o in old@reset(Footprint()) || fresh@reset(o);
        }
      }
      NothingHeld(stdHash, States());
    }

    /** The new configuration reaches every shard. */
    method UpdateConfig(config: Config)
      requires Valid()
      modifies Footprint()
      ensures Valid() && fresh(Footprint() - old(Footprint()))
      ensures clock.now == old(clock.now) && counter.next == old(counter.next)
      ensures forall i :: 0 <= i < |shards| ==> States()[i] == Reconfigure(old(States())[i], config)
    {
      hide BufferShard.Valid, BufferShard.State, BufferShard.Repr, Footprint, Own, Sound, States;
      for k := 0 to |shards|
        invariant Sound() && fresh(Footprint() - old(Footprint()))
        invariant clock.now == old(clock.now) && counter.next == old(counter.next)
        invariant forall i :: 0 <= i < |shards| ==>
          States()[i] == if i < k then Reconfigure(old(States())[i], config) else old(States())[i]
      {
        InFootprint(k);
        label configure:
        ConfigureShard(k, config);
        forall o | o in Footprint() && o !in old(Footprint())
          ensures fresh(o)
        {
          assert o in old@configure(Footprint()) || fresh@configure(o);
        }
      }
      SameIds(stdHash, old(States()), States());
    }

    // ---------- status ----------

    /** Sums the status of every shard. */
    method GetStatus() returns (status: Status)
      requires Valid()
      ensures status.totalTrajectories == SumSeq(TotalsOf(States())) && status.totalConsumed == SumSeq(ConsumedOf(States()))
      ensures status.memoryUsageBytes == SumSeq(MemoryOf(x, States())) && status.diskUsageBytes == SumSeq(DiskOf(States()))
      ensures status.pendingGroups == Ready(States(), |shards|)
      ensures status.pendingGroups + status.incompleteGroups == |LiveIds(States(), |shards|)|
    {
      hide BufferShard.Valid, BufferShard.State, BufferShard.Repr, Own, Sound, States, Aggregate, Ready, LiveIds, Routed;
      status := SumStatuses();
      AggregateCounts(x, States(), |shards|);
      AggregateSums(x, States(), |shards|);
      WholeSums(x, States());
      GroupCountIsLiveIds(stdHash, States(), |shards|);
    }

    method SumStatuses() returns (status: Status)
      requires Sound()
      ensures status == Aggregate(x, States(), |shards|)
    {
      hide BufferShard.Valid, BufferShard.State, BufferShard.Repr, Own, Sound, States, StatusOf;
      status := Status(0, 0, 0, 0, 0, 0);
      for k := 0 to |shards|
        invariant Sound() && status == Aggregate(x, States(), k)
      {
        var one := StatusOfShard(k);
        status := Plus(status, one);
      }
    }

    method StatusOfShard(k: nat) returns (status: Status)
      requires Sound() && k < |shards|
      ensures status == StatusOf(x, States()[k])
    {
      hide BufferShard.Valid, Inv, MemoryUsage, ReadyIds, OnDiskBytes;
      assert Own(k);
      status := shards[k].GetStatus();
    }

    // ---------- blocking reads ----------

    /** Anything other callers may do while a blocking read sleeps. */
    method OthersRun()
      requires Valid()
      modifies Footprint()
      ensures Valid() && fresh(Footprint() - old(Footprint())) && clock.now >= old(clock.now)
    {
      hide BufferShard.Valid, BufferShard.State, BufferShard.Repr, Footprint, Own, Sound, States, Valid;
      var n: nat :| true;
      for k := 0 to n
        invariant Valid() && fresh(Footprint() - old(Footprint())) && clock.now >= old(clock.now)
      {
        label other:
        OneRequest();
        forall o | o in Footprint() && o !in old(Footprint())
          ensures fresh(o)
        {
          assert o in old@other(Footprint()) || fresh@other(o);
        }
      }
    }

    method OneRequest()
      requires Valid()
      modifies Footprint()
      ensures Valid() && fresh(Footprint() - old(Footprint())) && clock.now >= old(clock.now)
    {
      hide BufferShard.Valid, BufferShard.State, BufferShard.Repr, Own, States, Footprint, Routed;
      var what: nat :| true;
      var max: int, id: string, t: Trajectory, config: Config := *, *, *, *;
      match what
      case 0 => WriteIfRoom(t);
      case 1 => var _, _, _ := ReadReadyGroups(max);
      case 2 => DeleteInstance(id);
      case 3 => Reset();
      case 4 => UpdateConfig(config);
      case _ =>
        if what - 5 < |shards| {
          InFootprint(what - 5);
          var _ := CheckTimeoutsOn(what - 5);
        }
    }

    method WriteIfRoom(t: Trajectory)
      requires Valid()
      modifies Footprint()
      ensures Valid() && fresh(Footprint() - old(Footprint())) && clock.now >= old(clock.now)
    {
      hide BufferShard.Valid, BufferShard.Repr, Footprint, Routed, WriteSafe;
      var sid := ShardFor(stdHash, |shards|, t.instanceId);
      assert Own(sid);
      var room := shards[sid].HasRoomFor(t);
      if room {
        label write:
        var _, _ := Write(t);
        forall o | o in Footprint() && o !in old(Footprint())
          ensures fresh(o)
        {
          assert fresh@write(o);
        }
      }
    }

    /** One round of the polling loop: done when some shard is ready or the deadline has passed,
        else a sleep of at least 10 ms. */
    method Poll(deadline: int) returns (done: bool)
      requires Valid() && deadline + POLL_INTERVAL < TWO_63
      modifies Footprint()
      ensures Valid() && fresh(Footprint() - old(Footprint()))
      ensures done ==> Ready(States(), |shards|) > 0 || clock.now >= deadline
      ensures done ==> States() == old(States()) && clock.now >= old(clock.now)
      ensures !done ==> Ready(old(States()), |shards|) == 0
      ensures !done ==> old(clock.now) < deadline && clock.now >= old(clock.now) + 10_000_000
    {
      hide BufferShard.Valid, BufferShard.State, BufferShard.Repr, Own, States, Footprint, Routed, Ready;
      var ready := HasReadyGroups();
      if ready {
        return true;
      }
      Separate();
      label reading:
      var t := clock.Read();
      Untouched@reading();
      Separate();
      if t >= deadline {
        return true;
      }
      label sleep:
      clock.Sleep(POLL_INTERVAL);
      Untouched@sleep();
      label asleep:
      OthersRun();
      forall o | o in Footprint() && o !in old(Footprint())
        ensures fresh(o)
      {
        assert fresh@asleep(o);
      }
      done := false;
    }

    /** The polling loop. `start` is the first clock reading. */
    method PollUntil(start: nat, timeoutMs: int) returns (ghost polls: nat)
      requires Valid() && clock.now <= start
      requires Deadline(start, if timeoutMs > 0 then timeoutMs else 0) + POLL_INTERVAL < TWO_63
      modifies Footprint()
      ensures Valid() && fresh(Footprint() - old(Footprint()))
      ensures polls == 1 || (polls >= 1 && (polls - 2) * 10 < timeoutMs)
      ensures clock.now >= start + (polls - 1) * 10_000_000
      ensures Ready(States(), |shards|) > 0 || clock.now >= start + timeoutMs * 1_000_000
    {
      hide BufferShard.Valid, BufferShard.State, BufferShard.Repr, Own, Sound, States, Footprint, Routed, Ready;
      Separate();
      clock.now := start;
      Untouched();
      var deadline := Deadline(start, timeoutMs);
      var done := false;
      polls := 0;
      while !done
        invariant Valid() && fresh(Footprint() - old(Footprint()))
        invariant done ==> Ready(States(), |shards|) > 0 || clock.now >= deadline
        invariant !done ==> clock.now >= start + polls * POLL_INTERVAL && (polls > 0 ==> polls + 1 <= MaxPolls(timeoutMs))
        invariant done ==> 1 <= polls <= MaxPolls(timeoutMs) && clock.now >= start + (polls - 1) * POLL_INTERVAL
        decreases MaxPolls(timeoutMs) - polls, !done
      {
        label poll:
        done := Poll(deadline);
        forall o | o in Footprint() && o !in old(Footprint())
          ensures fresh(o)
        {
          assert o in old@poll(Footprint()) || fresh@poll(o);
        }
        polls := polls + 1;
      }
    }

    /** Polls until some shard is ready or the deadline has passed, then reads. `seen` is the state the
        last poll saw, `mid` the state that is read; others may have run in between. */
    method ReadReadyGroupsBlocking(max: int, timeoutMs: int, start: nat)
      returns (merged: seq<Group>, ghost polls: nat, ghost seen: seq<Shard>, ghost mid: seq<Shard>,
               ghost orders: seq<seq<string>>, ghost results: seq<seq<Group>>)
      requires Valid() && clock.now <= start
      requires Deadline(start, if timeoutMs > 0 then timeoutMs else 0) + POLL_INTERVAL < TWO_63
      modifies Footprint()
      ensures Valid() && fresh(Footprint() - old(Footprint()))
      ensures |seen| == |mid| == |shards| && (polls == 1 || (polls >= 1 && (polls - 2) * 10 < timeoutMs))
      ensures clock.now >= start + (polls - 1) * 10_000_000
      ensures Ready(seen, |shards|) > 0 || clock.now >= start + timeoutMs * 1_000_000
      ensures ReadSoFar(x, mid, max, |shards|, orders, results, States())
      ensures merged == Truncated(Merged(results, |results|), max) && |merged| == Limit(max, Ready(mid, |shards|))
    {
      hide BufferShard.Valid, BufferShard.State, BufferShard.Repr, Own, Sound, States, Footprint, Routed, Ready,
        ReadSoFar, Merged, Truncated, Valid;
      polls := PollUntil(start, timeoutMs);
      seen := States();
      label others:
      OthersRun();
      forall o | o in Footprint() && o !in old(Footprint())
        ensures fresh(o)
      {
        assert o in old@others(Footprint()) || fresh@others(o);
      }
      mid := States();
      label read:
      merged, orders, results := ReadReadyGroups(max);
      forall o | o in Footprint() && o !in old(Footprint())
        ensures fresh(o)
      {
        assert o in old@read(Footprint()) || fresh@read(o);
      }
    }
  }

  lemma NoneReady(ss: seq<Shard>)
    ensures Ready(ss, 0) == 0
  {
  }

  lemma ReadyMore(ss: seq<Shard>, k: nat)
    requires k < |ss|
    ensures Ready(ss, k + 1) > 0 <==> Ready(ss, k) > 0 || ReadyIds(ss[k].groups) != {}
  {
    hide ReadyIds;
  }

  /** The books of a batch being handed out, by shard: environments, accepted writes, file names still reserved. */
  datatype Ledger = Ledger(envs: seq<seq<Env>>, counts: seq<nat>, left: seq<nat>)

  ghost function Opened(rooms: seq<nat>): Ledger {
    Ledger(seq(|rooms|, _ => []), seq(|rooms|, _ => 0), rooms)
  }

  lemma BatchOutcome(x: Fixed, stdHash: string -> nat, ss: seq<Shard>, ts: seq<Trajectory>, book: Ledger,
                     after: seq<Shard>, from: nat, to: nat)
    requires Routed(stdHash, ss) && SharesDone(x, stdHash, ss, ts, book.envs, after, book.counts) && Within(book, from, to)
    ensures EnoughEnvs(stdHash, ts, book.envs) && Routed(stdHash, after)
    ensures var items := Weave(stdHash, ts, book.envs);
            && Writes(items) == ts && ItemsServed(x, stdHash, ss, items)
            && Serial(x, stdHash, ss, items) == (after, Total(book.counts))
            && forall item :: item in items ==> from <= item.env.now <= to
  {
    SharesAreSerial(x, stdHash, ss, ts, book.envs, after, book.counts);
    RoutedBatch(x, stdHash, ss, ts, book.envs, after, book.counts);
    WeaveEnvs(stdHash, ts, book.envs);
    hide Routed, SharesDone, EnoughEnvs, Weave, Writes, ItemsServed, Serial, Total;
  }

  lemma EmptyBook(rooms: seq<nat>, now: nat)
    ensures Within(Opened(rooms), now, now)
  {
  }

  /** All clock readings lie between two points in time. */
  ghost predicate Within(book: Ledger, from: nat, to: nat) {
    forall i, e :: 0 <= i < |book.envs| && e in book.envs[i] ==> from <= e.now <= to
  }

  lemma NextKey(stdHash: string -> nat, shards: nat, ts: seq<Trajectory>, byShard: map<nat, seq<Trajectory>>,
                order: seq<nat>, k: nat)
    requires shards > 0 && IsPartition(stdHash, shards, ts, byShard) && IsOrder(order, byShard.Keys) && k < |order|
    ensures var sid := order[k];
            sid < shards && sid in byShard && byShard[sid] == Share(stdHash, shards, ts, sid) && sid !in order[..k]
  {
    assert order[k] in Elements(order);
  }

  method Added(results: seq<nat>) returns (total: nat)
    ensures total == Total(results)
  {
    total := 0;
    assert results[..0] == [];
    for k := 0 to |results|
      invariant total == Total(results[..k])
    {
      assert results[..k + 1] == results[..k] + [results[k]];
      TotalSnoc(results[..k], results[k]);
      total := total + results[k];
    }
    assert results[..|results|] == results;
  }

  method MergeAll(results: seq<seq<Group>>) returns (merged: seq<Group>)
    ensures merged == Merged(results, |results|)
  {
    merged := [];
    for i := 0 to |results|
      invariant merged == Merged(results, i)
    {
      assert results[i][..0] == [];
      for j := 0 to |results[i]|
        invariant merged == Merged(results, i) + results[i][..j]
      {
        merged := merged + [results[i][j]];
      }
      assert results[i][..|results[i]|] == results[i];
    }
  }

  lemma ResultsSize(x: Fixed, ss: seq<Shard>, max: int, k: nat, orders: seq<seq<string>>,
                    results: seq<seq<Group>>, after: seq<Shard>)
    requires ReadSoFar(x, ss, max, k, orders, results, after)
    ensures |results| == k
  {
  }

  ghost function StatusOf(x: Fixed, s: Shard): Status {
    ReadyIdsBelow(s.groups);
    var ready := |ReadyIds(s.groups)|;
    Status(s.total, s.consumed, ready, |s.groups| - ready, MemoryUsage(x, s), OnDiskBytes(s.groups))
  }

  function Plus(a: Status, b: Status): Status {
    Status(a.totalTrajectories + b.totalTrajectories, a.totalConsumed + b.totalConsumed,
           a.pendingGroups + b.pendingGroups, a.incompleteGroups + b.incompleteGroups,
           a.memoryUsageBytes + b.memoryUsageBytes, a.diskUsageBytes + b.diskUsageBytes)
  }

  ghost function Aggregate(x: Fixed, ss: seq<Shard>, k: nat): Status
    requires k <= |ss|
  {
    if k == 0 then Status(0, 0, 0, 0, 0, 0) else Plus(Aggregate(x, ss, k - 1), StatusOf(x, ss[k - 1]))
  }

  lemma ReadyIdsBelow(groups: Groups)
    ensures |ReadyIds(groups)| <= |groups|
  {
    SubsetSize(ReadyIds(groups), groups.Keys);
    assert |groups.Keys| == |groups|;
  }

  /** Every number of the aggregate is the sum of that number over the shards. */
  lemma {:induction false} AggregateSums(x: Fixed, ss: seq<Shard>, k: nat)
    requires k <= |ss|
    ensures Aggregate(x, ss, k).totalTrajectories == SumSeq(TotalsOf(ss)[..k])
    ensures Aggregate(x, ss, k).totalConsumed == SumSeq(ConsumedOf(ss)[..k])
    ensures Aggregate(x, ss, k).memoryUsageBytes == SumSeq(MemoryOf(x, ss)[..k])
    ensures Aggregate(x, ss, k).diskUsageBytes == SumSeq(DiskOf(ss)[..k])
  {
    hide MemoryUsage, OnDiskBytes, ReadyIds;
    if k > 0 {
      AggregateSums(x, ss, k - 1);
      PrefixMore(TotalsOf(ss), k - 1);
      PrefixMore(ConsumedOf(ss), k - 1);
      PrefixMore(MemoryOf(x, ss), k - 1);
      PrefixMore(DiskOf(ss), k - 1);
    }
  }

  lemma WholeSums(x: Fixed, ss: seq<Shard>)
    ensures TotalsOf(ss)[..|ss|] == TotalsOf(ss) && ConsumedOf(ss)[..|ss|] == ConsumedOf(ss)
    ensures MemoryOf(x, ss)[..|ss|] == MemoryOf(x, ss) && DiskOf(ss)[..|ss|] == DiskOf(ss)
  {
  }

  lemma {:induction false} AggregateCounts(x: Fixed, ss: seq<Shard>, k: nat)
    requires k <= |ss|
    ensures Aggregate(x, ss, k).pendingGroups == Ready(ss, k)
    ensures Aggregate(x, ss, k).pendingGroups + Aggregate(x, ss, k).incompleteGroups == GroupCount(ss, k)
  {
    hide ReadyIds;
    if k > 0 {
      AggregateCounts(x, ss, k - 1);
    }
  }

  lemma NothingHeld(stdHash: string -> nat, ss: seq<Shard>)
    requires |ss| > 0 && forall i :: 0 <= i < |ss| ==> ss[i].groups == map[]
    ensures Routed(stdHash, ss)
  {
  }

  lemma SameIds(stdHash: string -> nat, before: seq<Shard>, ss: seq<Shard>)
    requires Routed(stdHash, before) && |ss| == |before|
    requires forall i :: 0 <= i < |ss| ==> ss[i].groups == before[i].groups
    ensures Routed(stdHash, ss)
  {
    hide ShardFor;
  }

  lemma NoResults()
    ensures Total([]) == 0
  {
  }

  method StartAll(count: nat, config: Config, pb: Codec<Group>, clock: SteadyClock, counter: FileCounter,
                  stdHash: string -> nat, dedupMax: nat, bitCount: nat, numHashes: nat)
    returns (made: seq<BufferShard>)
    requires Faithful(pb) && bitCount > 0 && numHashes > 0 && clock.Valid() && counter.next == 0
    ensures |made| == count
    ensures forall i :: 0 <= i < count ==> fresh(made[i].Repr()) && allocated(made[i].Repr())
    ensures var x := Fixed(pb, if dedupMax > 1 then dedupMax else 1, bitCount / 8);
            forall i :: 0 <= i < count ==> Newborn(made[i], clock, counter, x, config)
    ensures forall i, j :: 0 <= i < j < count ==> made[i].Repr() !! made[j].Repr()
  {
    hide BufferShard.Valid, BufferShard.State, BufferShard.Repr, BufferShard.Params, Faithful;
    made := [];
    ghost var x := Fixed(pb, if dedupMax > 1 then dedupMax else 1, bitCount / 8);
    for k := 0 to count
      invariant |made| == k && clock.Valid() && counter.next == 0
      invariant forall i :: 0 <= i < k ==> Newborn(made[i], clock, counter, x, config)
      invariant forall i :: 0 <= i < k ==> fresh(made[i].Repr()) && allocated(made[i].Repr())
      invariant forall i, j :: 0 <= i < j < k ==> made[i].Repr() !! made[j].Repr()
    {
      label before:
      var s := StartShard(config, pb, clock, counter, stdHash, dedupMax, bitCount, numHashes);
      forall i | 0 <= i < k
        ensures made[i].Repr() == old@before(made[i].Repr()) && made[i].Repr() !! s.Repr()
        ensures Newborn(made[i], clock, counter, x, config)
      {
        assert old@before(Newborn(made[i], clock, counter, x, config));
        made[i].Untouched@before();
      }
      made := made + [s];
    }
  }

  method StartShard(config: Config, pb: Codec<Group>, clock: SteadyClock, counter: FileCounter,
                    stdHash: string -> nat, dedupMax: nat, bitCount: nat, numHashes: nat)
    returns (s: BufferShard)
    requires Faithful(pb) && bitCount > 0 && numHashes > 0 && clock.Valid() && counter.next == 0
    ensures fresh(s.Repr()) && allocated(s.Repr())
    ensures Newborn(s, clock, counter, Fixed(pb, if dedupMax > 1 then dedupMax else 1, bitCount / 8), config)
  {
    hide BufferShard.Valid, BufferShard.State, BufferShard.Repr, BufferShard.Params;
    s := new BufferShard(config, pb, clock, counter, stdHash, dedupMax, bitCount, numHashes);
  }

  ghost predicate Newborn(s: BufferShard, clock: SteadyClock, counter: FileCounter, x: Fixed, config: Config)
    reads *
  {
    && s.Valid() && s.State() == Fresh(config) && s.Params() == x
    && s.disk.clock == clock && s.disk.counter == counter && s.disk.lastClock == s.disk.lastCounter == 0
    && clock.Valid() && counter.next == 0
    && clock !in s.Repr() && counter !in s.Repr()
  }
}
