/** What the counters, the dedup filter and the completion flags mean over whole runs. */
module ShardAccounts {
  import opened Prelude
  import opened Protobuf
  import opened Trajectories
  import opened Lru
  import opened ShardModel
  import opened PlainQueue
  import opened ShardInvariant
  import opened ShardSteps
  import opened ShardHistory

  // ---------- counting on the plain queue ----------

  lemma PutCount(max: nat, q: Queue, t: Trajectory, now: nat)
    ensures HeldCount(Put(max, q, t, now).0) == HeldCount(q) + if Accepts(q, t) then 1 else 0
  {
    var q', id := Put(max, q, t, now).0, t.instanceId;
    var count := map k | k in q.held :: |q.held[k].group.trajectories|;
    var count' := map k | k in q'.held :: |q'.held[k].group.trajectories|;
    if Accepts(q, t) {
      assert count' == count[id := |HeldFor(q, id)| + 1];
      SumUpdate(count, id, |HeldFor(q, id)| + 1);
    } else {
      assert count' == count;
    }
  }

  lemma SealCount(q: Queue, ids: set<string>)
    ensures HeldCount(Seal(q, ids)) == HeldCount(q)
  {
    var q' := Seal(q, ids);
    assert (map k | k in q'.held :: |q'.held[k].group.trajectories|)
        == (map k | k in q.held :: |q.held[k].group.trajectories|);
  }

  lemma TimeoutsCount(q: Queue, now: nat)
    ensures HeldCount(Timeouts(q, now)) == HeldCount(q)
  {
    var q' := Timeouts(q, now);
    assert (map k | k in q'.held :: |q'.held[k].group.trajectories|)
        == (map k | k in q.held :: |q.held[k].group.trajectories|);
  }

  lemma DropCount(q: Queue, id: string)
    ensures HeldCount(Drop(q, {id})) == HeldCount(q) - |HeldFor(q, id)|
  {
    var q' := Drop(q, {id});
    var count := map k | k in q.held :: |q.held[k].group.trajectories|;
    var count' := map k | k in q'.held :: |q'.held[k].group.trajectories|;
    assert count' == count - {id};
    if id in q.held {
      SumRemove(count, id);
    } else {
      assert count - {id} == count;
    }
  }

  lemma {:induction false} DropAllCount(q: Queue, ids: seq<string>)
    requires Distinct(ids) && forall id :: id in ids ==> id in q.held
    ensures HeldCount(Drop(q, Elements(ids))) == HeldCount(q) - SizeOf(GroupsOf(q, ids))
  {
    if ids == [] {
      DropNone(q);
    } else {
      hide HeldCount, Drop;
      var init, last := ids[..|ids| - 1], ids[|ids| - 1];
      assert ids == init + [last] && last !in init && last in ids;
      DropAllCount(q, init);
      DropMore(q, init, last);
      DropCount(Drop(q, Elements(init)), last);
      DropOther(q, init, last);
      GroupsOfAppend(q, init, [last]);
      SizeSnoc(GroupsOf(q, init), q.held[last].group);
      assert GroupsOf(q, [last]) == [q.held[last].group];
    }
  }

  lemma DropOther(q: Queue, ids: seq<string>, id: string)
    requires id !in ids
    ensures HeldFor(Drop(q, Elements(ids)), id) == HeldFor(q, id)
  {
  }

  // ---------- counts since the last reset, read off the events ----------

  function Stored(events: seq<Event>): nat {
    if events == [] then 0
    else
      match events[|events| - 1]
      case Wrote(_, _, stored) => Stored(events[..|events| - 1]) + if stored then 1 else 0
      case WasReset => 0
      case _ => Stored(events[..|events| - 1])
  }

  function Consumed(events: seq<Event>): nat {
    if events == [] then 0
    else
      match events[|events| - 1]
      case Delivered(groups) => Consumed(events[..|events| - 1]) + SizeOf(groups)
      case WasReset => 0
      case _ => Consumed(events[..|events| - 1])
  }

  function Discarded(events: seq<Event>): nat {
    if events == [] then 0
    else
      match events[|events| - 1]
      case Deleted(id) => Discarded(events[..|events| - 1]) + |Pending(events[..|events| - 1], id)|
      case WasReset => 0
      case _ => Discarded(events[..|events| - 1])
  }

  /** What one step does to the counters. */
  lemma StepCounts(x: Fixed, s: Shard, op: Op)
    requires Faithful(x.pb) && Inv(x.pb, s) && Allowed(x, s, op) && !op.DoReset?
    ensures var (s', e) := Step(x, s, op);
            var q, q' := View(x.pb, s), View(x.pb, s');
            && s'.total == s.total + (if e.Wrote? && e.stored then 1 else 0)
            && s'.consumed == s.consumed + (if e.Delivered? then SizeOf(e.groups) else 0)
            && s'.total - s'.consumed - HeldCount(q')
               == s.total - s.consumed - HeldCount(q) + (if op.DoDelete? then |HeldFor(q, op.id)| else 0)
  {
    var q := View(x.pb, s);
    match op
    case DoWrite(t, now, c) => WriteCounts(x, s, t, now, c);
    case DoRead(max, order) => ReadCounts(x, s, max, order);
    case DoTimeouts(now) =>
      TimeoutsStep(x.pb, s, now);
      hide Inv, View, HeldCount, CheckTimeouts;
      TimeoutsCount(q, now);
      ViewFields(x.pb, s);
      ViewFields(x.pb, CheckTimeouts(s, now));
    case DoSpill(c) =>
      TrySpillStep(x, s, c);
      hide Inv, View, HeldCount, TrySpill;
      SealCount(q, Elements(Selected(x, s, c.order)));
      ViewFields(x.pb, s);
      ViewFields(x.pb, TrySpill(x, s, c));
    case DoSpillOf(ids, names) =>
      SpillGroupsStep(x.pb, s, ids, names);
      hide Inv, View, HeldCount, SpillGroups;
      SealCount(q, Elements(ids));
      ViewFields(x.pb, s);
      ViewFields(x.pb, SpillGroups(x.pb, s, ids, names));
    case DoDelete(id) =>
      RemoveStep(x.pb, s, id);
      hide Inv, View, HeldCount, Remove;
      DropCount(q, id);
      ViewFields(x.pb, s);
      ViewFields(x.pb, Remove(s, id));
    case DoConfigure(cfg) =>
      hide Inv;
      assert View(x.pb, Reconfigure(s, cfg)).held == q.held;
  }

  lemma WriteCounts(x: Fixed, s: Shard, t: Trajectory, now: nat, c: Choice)
    requires Faithful(x.pb) && Inv(x.pb, s) && WriteAllowed(x, s, t, now, c)
    ensures var s' := Write(x, s, t, now, c).0;
            var stored := if Stores(s, t) then 1 else 0;
            && s'.total == s.total + stored && s'.consumed == s.consumed
            && HeldCount(View(x.pb, s')) == HeldCount(View(x.pb, s)) + stored
  {
    WriteStep(x, s, t, now, c);
    AcceptsIsStores(x, s, t);
    ViewFields(x.pb, s);
    ViewFields(x.pb, Write(x, s, t, now, c).0);
    hide Inv, View, HeldCount, Write, SpilledBy, Stores;
    var q := Put(x.dedupMax, View(x.pb, s), t, now).0;
    PutCount(x.dedupMax, View(x.pb, s), t, now);
    SealCount(q, Elements(SpilledBy(x, s, t, now, c)));
  }

  lemma ReadCounts(x: Fixed, s: Shard, max: int, order: seq<string>)
    requires Inv(x.pb, s) && Distinct(order)
    ensures var (s', gs) := Read(x, s, max, order);
            && s'.total == s.total && s'.consumed == s.consumed + SizeOf(gs)
            && HeldCount(View(x.pb, s')) == HeldCount(View(x.pb, s)) - SizeOf(gs)
  {
    ReadStep(x, s, max, order);
    ViewFields(x.pb, s);
    ViewFields(x.pb, Read(x, s, max, order).0);
    var ids := DeliveryOrder(s.groups, Pick(s.groups, order, max, 0));
    DistinctFromMultiset(ids, Pick(s.groups, order, max, 0));
    hide Inv, View, HeldCount, Read, SizeOf, DeliveryOrder, Pick;
    DropAllCount(View(x.pb, s), ids);
    assert Elements(ids) == set id | id in ids;
    SameHeldCount(Take(View(x.pb, s), ids).0, Drop(View(x.pb, s), Elements(ids)));
  }

  lemma SameHeldCount(a: Queue, b: Queue)
    requires a.held == b.held
    ensures HeldCount(a) == HeldCount(b)
  {
  }

  /** What an event records of its operation. */
  lemma StepEvent(x: Fixed, s: Shard, op: Op)
    ensures var e := Step(x, s, op).1;
            && (op.DoWrite? <==> e.Wrote?) && (op.DoReset? <==> e.WasReset?)
            && (op.DoDelete? <==> e.Deleted?) && (op.DoRead? <==> e.Delivered?)
            && (op.DoDelete? ==> e.id == op.id)
            && (op.DoWrite? ==> e.t == op.t && e.stored == Stores(s, op.t) && e.answer == !Duplicate(s, op.t.uid))
  {
  }

  lemma ResetEffect(x: Fixed, s: Shard)
    requires Inv(x.pb, s)
    ensures Step(x, s, DoReset) == (Fresh(s.cfg), WasReset)
  {
    ResetStep(x.pb, s);
  }

  ghost predicate Balanced(pb: Codec<Group>, s: Shard, events: seq<Event>) {
    && s.total == Stored(events)
    && s.consumed == Consumed(events)
    && s.total == s.consumed + HeldCount(View(pb, s)) + Discarded(events)
  }

  lemma BalancedStep(x: Fixed, s: Shard, events: seq<Event>, op: Op)
    requires Faithful(x.pb) && Inv(x.pb, s) && Allowed(x, s, op) && Balanced(x.pb, s, events)
    requires op.DoDelete? ==> HeldFor(View(x.pb, s), op.id) == Pending(events, op.id)
    ensures var (s', e) := Step(x, s, op); Balanced(x.pb, s', events + [e])
  {
    StepEvent(x, s, op);
    hide Step, Allowed;
    var (s', e) := Step(x, s, op);
    assert (events + [e])[..|events|] == events;
    if op.DoReset? {
      ResetEffect(x, s);
      FreshBalanced(x.pb, s.cfg);
    } else {
      StepCounts(x, s, op);
      hide Inv, View, HeldCount, Pending;
    }
  }

  lemma FreshBalanced(pb: Codec<Group>, cfg: Config)
    ensures HeldCount(View(pb, Fresh(cfg))) == 0
  {
    FreshInv(pb, cfg);
    assert (map id | id in Empty(cfg).held :: |Empty(cfg).held[id].group.trajectories|) == map[];
  }

  lemma {:induction false} RunBalanced(x: Fixed, cfg: Config, ops: seq<Op>)
    requires Faithful(x.pb) && AllowedRun(x, Fresh(cfg), ops)
    ensures Balanced(x.pb, Run(x, Fresh(cfg), ops).0, Run(x, Fresh(cfg), ops).1)
  {
    FreshBalanced(x.pb, cfg);
    if ops != [] {
      hide Inv, Step, Balanced, Allowed, Pending, HeldFor;
      var init, op := ops[..|ops| - 1], ops[|ops| - 1];
      RunBalanced(x, cfg, init);
      FreshInv(x.pb, cfg);
      RunInv(x, Fresh(cfg), init);
      if op.DoDelete? {
        HeldIsHistory(x, cfg, init, op.id);
      }
      BalancedStep(x, Run(x, Fresh(cfg), init).0, Run(x, Fresh(cfg), init).1, op);
    }
  }

  /** total_trajectories counts the stored writes since the last reset, total_consumed the
      delivered ones, and the difference is what is buffered plus what was deleted. */
  lemma CountsAddUp(x: Fixed, cfg: Config, ops: seq<Op>)
    requires Faithful(x.pb) && AllowedRun(x, Fresh(cfg), ops)
    ensures var (s, events) := Run(x, Fresh(cfg), ops);
            && s.total == Stored(events)
            && s.consumed == Consumed(events)
            && s.total == s.consumed + Buffered(s.groups) + Discarded(events)
  {
    FreshInv(x.pb, cfg);
    RunInv(x, Fresh(cfg), ops);
    RunBalanced(x, cfg, ops);
    BufferedIsHeld(x.pb, Run(x, Fresh(cfg), ops).0);
  }

  lemma BufferedIsNat(pb: Codec<Group>, s: Shard)
    requires Inv(pb, s)
    ensures Buffered(s.groups) >= 0
  {
    BufferedIsHeld(pb, s);
    var q := View(pb, s);
    SumBound(map id | id in q.held :: |q.held[id].group.trajectories|);
  }

  /** Consumed never exceeds total, and `get_meta_info`'s total_samples is their difference
      exactly when nothing has been deleted since the last reset. */
  lemma SamplesAreUnconsumed(x: Fixed, cfg: Config, ops: seq<Op>)
    requires Faithful(x.pb) && AllowedRun(x, Fresh(cfg), ops)
    ensures var (s, events) := Run(x, Fresh(cfg), ops);
            && 0 <= s.consumed <= s.total
            && (Buffered(s.groups) == s.total - s.consumed <==> Discarded(events) == 0)
  {
    FreshInv(x.pb, cfg);
    RunInv(x, Fresh(cfg), ops);
    CountsAddUp(x, cfg, ops);
    BufferedIsNat(x.pb, Run(x, Fresh(cfg), ops).0);
  }

  // ---------- deduplication over runs ----------

  /** The uids offered since the last reset, stored or not. */
  function Offered(events: seq<Event>): seq<string> {
    if events == [] then []
    else
      match events[|events| - 1]
      case Wrote(t, _, _) => Offered(events[..|events| - 1]) + [t.uid]
      case WasReset => []
      case _ => Offered(events[..|events| - 1])
  }

  function StoredUids(events: seq<Event>): seq<string> {
    if events == [] then []
    else
      match events[|events| - 1]
      case Wrote(t, _, stored) =>
        if stored then StoredUids(events[..|events| - 1]) + [t.uid] else StoredUids(events[..|events| - 1])
      case WasReset => []
      case _ => StoredUids(events[..|events| - 1])
  }

  /** Deduplication was on for every write since the last reset. */
  ghost predicate DedupSinceReset(x: Fixed, s: Shard, ops: seq<Op>) {
    ops == [] ||
    match ops[|ops| - 1]
    case DoWrite(_, _, _) => DedupSinceReset(x, s, ops[..|ops| - 1]) && Run(x, s, ops[..|ops| - 1]).0.cfg.uidDedup
    case DoReset => true
    case _ => DedupSinceReset(x, s, ops[..|ops| - 1])
  }

  /** Only writes and resets touch the filter. */
  lemma StepLru(x: Fixed, s: Shard, op: Op)
    ensures var (s', e) := Step(x, s, op);
            && s'.lru == (if op.DoReset? then []
                          else if op.DoWrite? && s.cfg.uidDedup then Touch(s.lru, op.t.uid, x.dedupMax)
                          else s.lru)
            && s'.cfg == (if op.DoConfigure? then op.cfg else s.cfg)
  {
    hide TrySpill, Touch;
    match op
    case DoWrite(t, now, c) => TrySpillFrame(x, Store(Mark(x, s, t.uid), t, now), c);
    case DoRead(max, order) => RemoveAllFrame(s, Pick(s.groups, order, max, 0));
    case DoSpill(c) => TrySpillFrame(x, s, c);
    case DoSpillOf(ids, names) =>
      if |ids| == |names| {
        SpillGroupsFrame(x.pb, s, ids, names);
      }
    case _ =>
  }

  /** With deduplication on for the writes since the last reset, the exact set of the filter is the
      window of the uids they offered; what else happened, and how large the groups are, is irrelevant. */
  lemma {:induction false} LruIsHistory(x: Fixed, cfg: Config, ops: seq<Op>)
    requires DedupSinceReset(x, Fresh(cfg), ops) && x.dedupMax > 0
    ensures var (s, events) := Run(x, Fresh(cfg), ops);
            s.lru == Trim(Recency(Offered(events)), x.dedupMax)
  {
    NothingOffered(x.dedupMax);
    if ops != [] {
      hide Step, Touch, Trim, Recency;
      var init, op := ops[..|ops| - 1], ops[|ops| - 1];
      var (mid, before) := Run(x, Fresh(cfg), init);
      StepLru(x, mid, op);
      StepEvent(x, mid, op);
      var events := Run(x, Fresh(cfg), ops).1;
      assert events[..|ops| - 1] == before;
      if !op.DoReset? {
        LruIsHistory(x, cfg, init);
      }
      if op.DoWrite? {
        TouchExtendsHistory(Offered(before), op.t.uid, x.dedupMax);
      }
    }
  }

  lemma NothingOffered(max: nat)
    ensures Trim(Recency([]), max) == []
  {
  }

  /** A write is refused exactly when deduplication is on and its uid was offered before with fewer
      than `dedupMax` distinct other uids since. */
  lemma RefusedExactly(x: Fixed, cfg: Config, ops: seq<Op>, t: Trajectory, now: nat, c: Choice)
    requires DedupSinceReset(x, Fresh(cfg), ops) && x.dedupMax > 0
    ensures var (s, events) := Run(x, Fresh(cfg), ops);
            !Write(x, s, t, now, c).1 <==> s.cfg.uidDedup && InWindow(Offered(events), t.uid, x.dedupMax)
  {
    var (s, events) := Run(x, Fresh(cfg), ops);
    LruIsHistory(x, cfg, ops);
    WindowExact(Offered(events), t.uid, x.dedupMax);
    StepEvent(x, s, DoWrite(t, now, c));
  }

  /** As long as a shard has been offered at most `dedupMax` distinct uids since its last reset, no
      uid is stored twice: not for another instance, and not after its group was read or deleted. */
  lemma {:induction false} StoredAtMostOnce(x: Fixed, cfg: Config, ops: seq<Op>)
    requires DedupSinceReset(x, Fresh(cfg), ops) && x.dedupMax > 0
    requires |Elements(Offered(Run(x, Fresh(cfg), ops).1))| <= x.dedupMax
    ensures Distinct(StoredUids(Run(x, Fresh(cfg), ops).1))
    ensures Elements(StoredUids(Run(x, Fresh(cfg), ops).1)) <= Elements(Offered(Run(x, Fresh(cfg), ops).1))
  {
    if ops != [] {
      var init, op := ops[..|ops| - 1], ops[|ops| - 1];
      var (mid, before) := Run(x, Fresh(cfg), init);
      var events := Run(x, Fresh(cfg), ops).1;
      assert events[..|ops| - 1] == before;
      StepEvent(x, mid, op);
      hide Step, Trim, Recency;
      if op.DoWrite? {
        ElementsMore(Offered(before), op.t.uid);
        SubsetSize(Elements(Offered(before)), Elements(Offered(events)));
        StoredAtMostOnce(x, cfg, init);
        LruIsHistory(x, cfg, init);
        NotStoredTwice(Offered(before), StoredUids(before), mid.lru, op.t.uid, x.dedupMax);
      } else if !op.DoReset? {
        StoredAtMostOnce(x, cfg, init);
      }
    }
  }

  lemma NotStoredTwice(offered: seq<string>, stored: seq<string>, lru: seq<string>, uid: string, max: nat)
    requires Distinct(stored) && Elements(stored) <= Elements(offered) && |Elements(offered)| <= max
    requires lru == Trim(Recency(offered), max)
    ensures uid !in lru ==> Distinct(stored + [uid])
    ensures Elements(stored + [uid]) <= Elements(offered + [uid])
  {
    hide Trim, Recency;
    WholeWindow(offered, max);
    ElementsMore(offered, uid);
    ElementsMore(stored, uid);
    assert uid in stored ==> uid in Elements(stored);
    assert uid in lru <==> uid in Elements(lru);
  }

  lemma WholeWindow(history: seq<string>, max: nat)
    requires |Elements(history)| <= max
    ensures Elements(Trim(Recency(history), max)) == Elements(history)
  {
    RecencyDistinct(history);
    DistinctSize(Recency(history));
  }

  // ---------- completion ----------

  /** An incomplete group holds between one trajectory and one less than its size. */
  lemma IncompleteBounds(x: Fixed, cfg: Config, ops: seq<Op>, id: string)
    requires Faithful(x.pb) && AllowedRun(x, Fresh(cfg), ops)
    ensures var s := Run(x, Fresh(cfg), ops).0;
            id in s.groups && !s.groups[id].IsComplete() ==>
              s.groups[id].group.Some? && 1 <= s.groups[id].TrajectoriesSize() < s.groups[id].group.value.groupSize
  {
    FreshInv(x.pb, cfg);
    RunInv(x, Fresh(cfg), ops);
    var s := Run(x, Fresh(cfg), ops).0;
    assert id in s.groups ==> EntryOk(x.pb, s.files, s.groups[id], id);
  }

  /** Complete, if it is there at all. */
  ghost predicate Finished(q: Queue, id: string) {
    id in q.held ==> q.held[id].group.complete
  }

  lemma PutFinished(max: nat, q: Queue, t: Trajectory, now: nat, id: string)
    requires id in q.held && Finished(q, id)
    ensures Finished(Put(max, q, t, now).0, id)
  {
  }

  lemma DropFinished(q: Queue, ids: set<string>, delivered: seq<string>, now: nat, id: string)
    requires Finished(q, id)
    ensures Finished(Drop(q, ids), id) && Finished(Take(q, delivered).0, id) && Finished(Timeouts(q, now), id)
  {
  }

  lemma SealFinished(q: Queue, ids: set<string>, id: string)
    requires Finished(q, id)
    ensures Finished(Seal(q, ids), id)
  {
  }

  lemma FinishedInView(pb: Codec<Group>, s: Shard, id: string)
    requires Inv(pb, s)
    ensures id in s.groups <==> id in View(pb, s).held
    ensures id in s.groups ==> (s.groups[id].IsComplete() <==> View(pb, s).held[id].group.complete)
  {
    ViewAgrees(pb, s);
  }

  /** A complete group stays complete as long as it is there. */
  lemma CompleteStays(x: Fixed, s: Shard, op: Op, id: string)
    requires Faithful(x.pb) && Inv(x.pb, s) && Allowed(x, s, op)
    requires id in s.groups && s.groups[id].IsComplete()
    ensures var s' := Step(x, s, op).0; id in s'.groups ==> s'.groups[id].IsComplete()
  {
    hide Inv, View, Write, Read, TrySpill, CheckTimeouts, Remove, SpillGroups, SpilledBy, Selected, DeliveryOrder, Pick, Put, Seal,
      Take, Timeouts, Drop, WriteAllowed;
    var s', q := Step(x, s, op).0, View(x.pb, s);
    StepInv(x, s, op);
    FinishedInView(x.pb, s, id);
    FinishedInView(x.pb, s', id);
    match op
    case DoWrite(t, now, c) =>
      WriteStep(x, s, t, now, c);
      PutFinished(x.dedupMax, q, t, now, id);
      SealFinished(Put(x.dedupMax, q, t, now).0, Elements(SpilledBy(x, s, t, now, c)), id);
    case DoRead(max, order) =>
      ReadStep(x, s, max, order);
      DropFinished(q, {}, DeliveryOrder(s.groups, Pick(s.groups, order, max, 0)), 0, id);
    case DoTimeouts(now) =>
      TimeoutsStep(x.pb, s, now);
      DropFinished(q, {}, [], now, id);
    case DoSpill(c) =>
      TrySpillStep(x, s, c);
      SealFinished(q, Elements(Selected(x, s, c.order)), id);
    case DoSpillOf(ids, names) =>
      SpillGroupsStep(x.pb, s, ids, names);
      SealFinished(q, Elements(ids), id);
    case DoDelete(j) =>
      RemoveStep(x.pb, s, j);
      DropFinished(q, {j}, [], 0, id);
    case DoReset => ResetStep(x.pb, s);
    case DoConfigure(cfg) => assert s'.groups == s.groups;
  }

  // ---------- acknowledged writes that are lost ----------

  ghost function SpillsOf(x: Fixed, s: Shard, op: Op): seq<string> {
    match op
    case DoWrite(t, now, c) => SpilledBy(x, s, t, now, c)
    case DoSpill(c) => Selected(x, s, c.order)
    case DoSpillOf(ids, _) => ids
    case _ => []
  }

  predicate Removes(e: Event, id: string) {
    match e
    case Delivered(groups) => Delivers(groups, id)
    case Deleted(j) => j == id
    case WasReset => true
    case _ => false
  }

  /** The group of the id has been spilled since the id was last removed. */
  ghost predicate SpilledSince(x: Fixed, s: Shard, ops: seq<Op>, id: string) {
    ops != [] &&
    var init, op := ops[..|ops| - 1], ops[|ops| - 1];
    var mid := Run(x, s, init).0;
    !Removes(Step(x, mid, op).1, id) && (SpilledSince(x, s, init, id) || id in SpillsOf(x, mid, op))
  }

  ghost predicate SealedIn(q: Queue, id: string) {
    id in q.held && q.held[id].sealed
  }

  lemma SealedInView(pb: Codec<Group>, s: Shard, id: string)
    ensures SealedIn(View(pb, s), id) <==> Sealed(s, id)
  {
  }

  lemma SealSeals(q: Queue, ids: seq<string>, id: string)
    requires forall j :: j in ids ==> j in q.held
    ensures SealedIn(Seal(q, Elements(ids)), id) <==> SealedIn(q, id) || id in ids
  {
  }

  lemma KeepsSeals(max: nat, q: Queue, t: Trajectory, now: nat, id: string)
    ensures SealedIn(Put(max, q, t, now).0, id) <==> SealedIn(q, id)
  {
  }

  lemma DropSeals(q: Queue, ids: set<string>, id: string)
    ensures SealedIn(Drop(q, ids), id) <==> SealedIn(q, id) && id !in ids
  {
  }

  lemma ReadSeals(x: Fixed, s: Shard, max: int, order: seq<string>, id: string)
    requires Inv(x.pb, s) && Distinct(order)
    ensures var (s', gs) := Read(x, s, max, order);
            Sealed(s', id) <==> Sealed(s, id) && !Delivers(gs, id)
  {
    ReadStep(x, s, max, order);
    ViewFields(x.pb, s);
    SealedInView(x.pb, s, id);
    SealedInView(x.pb, Read(x, s, max, order).0, id);
    hide Inv, View, Read, Pick, DeliveryOrder, SealedIn, Sealed, HeldFor, After;
    var ids := DeliveryOrder(s.groups, Pick(s.groups, order, max, 0));
    TakeHeldFor(x.pb, s, ids, id);
    DropSeals(View(x.pb, s), (set j | j in ids), id);
    SameSeals(Take(View(x.pb, s), ids).0, Drop(View(x.pb, s), (set j | j in ids)), id);
  }

  lemma SameSeals(a: Queue, b: Queue, id: string)
    requires a.held == b.held
    ensures SealedIn(a, id) <==> SealedIn(b, id)
  {
  }

  lemma WriteSeals(x: Fixed, s: Shard, t: Trajectory, now: nat, c: Choice, id: string)
    requires Faithful(x.pb) && Inv(x.pb, s) && WriteAllowed(x, s, t, now, c)
    ensures Sealed(Write(x, s, t, now, c).0, id) <==> Sealed(s, id) || id in SpilledBy(x, s, t, now, c)
  {
    WriteStep(x, s, t, now, c);
    SealedInView(x.pb, s, id);
    SealedInView(x.pb, Write(x, s, t, now, c).0, id);
    hide Inv, View, Write, SpilledBy, Put, Seal, Sealed, SealedIn, WriteAllowed;
    KeepsSeals(x.dedupMax, View(x.pb, s), t, now, id);
    SealSeals(Put(x.dedupMax, View(x.pb, s), t, now).0, SpilledBy(x, s, t, now, c), id);
  }

  lemma SpillSeals(x: Fixed, s: Shard, ids: seq<string>, names: seq<nat>, id: string)
    requires Allowed(x, s, DoSpillOf(ids, names)) && Faithful(x.pb) && Inv(x.pb, s)
    ensures Sealed(SpillGroups(x.pb, s, ids, names), id) <==> Sealed(s, id) || id in ids
  {
    SpillGroupsStep(x.pb, s, ids, names);
    SealedInView(x.pb, s, id);
    SealedInView(x.pb, SpillGroups(x.pb, s, ids, names), id);
    ViewFields(x.pb, s);
    hide Inv, View, SpillGroups, Seal, Sealed, SealedIn;
    SealSeals(View(x.pb, s), ids, id);
  }

  lemma TimeoutSeals(s: Shard, now: nat, id: string)
    ensures Sealed(CheckTimeouts(s, now), id) <==> Sealed(s, id)
  {
  }

  /** An id becomes sealed by a spill of its group, and unsealed by being removed. */
  lemma StepSealed(x: Fixed, s: Shard, op: Op, id: string)
    requires Faithful(x.pb) && Inv(x.pb, s) && Allowed(x, s, op)
    ensures var (s', e) := Step(x, s, op);
            Sealed(s', id) <==> !Removes(e, id) && (Sealed(s, id) || id in SpillsOf(x, s, op))
  {
    hide Inv, Sealed, Write, Read, CheckTimeouts, TrySpill, SpillGroups, SpilledBy, WriteAllowed;
    match op
    case DoWrite(t, now, c) => WriteSeals(x, s, t, now, c, id);
    case DoRead(max, order) => ReadSeals(x, s, max, order, id);
    case DoTimeouts(now) => TimeoutSeals(s, now, id);
    case DoSpill(c) => TrySpillSeals(x, s, c, id);
    case DoSpillOf(ids, names) => SpillSeals(x, s, ids, names, id);
    case DoDelete(j) => DeleteSeals(s, j, id);
    case DoReset => DeleteSeals(s, id, id);
    case DoConfigure(cfg) => DeleteSeals(s, id, id);
  }

  lemma TrySpillSeals(x: Fixed, s: Shard, c: Choice, id: string)
    requires Faithful(x.pb) && Inv(x.pb, s) && Allowed(x, s, DoSpill(c))
    ensures Sealed(TrySpill(x, s, c), id) <==> Sealed(s, id) || id in Selected(x, s, c.order)
  {
    SelectedPlaces(x, s, c);
    var ids := Selected(x, s, c.order);
    hide Selected, Inv, SpillGroups, Sealed;
    FreshPrefix(s.files, c.names, |ids|);
    SpillSeals(x, s, ids, c.names[..|ids|], id);
  }

  lemma DeleteSeals(s: Shard, j: string, id: string)
    ensures Sealed(Remove(s, j), id) <==> Sealed(s, id) && j != id
    ensures !Sealed(Reset(s), id)
    ensures forall cfg :: Sealed(Reconfigure(s, cfg), id) <==> Sealed(s, id)
  {
  }

  lemma {:induction false} SealedIsHistory(x: Fixed, cfg: Config, ops: seq<Op>, id: string)
    requires Faithful(x.pb) && AllowedRun(x, Fresh(cfg), ops)
    ensures Sealed(Run(x, Fresh(cfg), ops).0, id) <==> SpilledSince(x, Fresh(cfg), ops, id)
  {
    if ops != [] {
      hide Inv, Step, Allowed, Sealed, SpillsOf, Removes;
      var init := ops[..|ops| - 1];
      SealedIsHistory(x, cfg, init, id);
      FreshInv(x.pb, cfg);
      RunInv(x, Fresh(cfg), init);
      StepSealed(x, Run(x, Fresh(cfg), init).0, ops[|ops| - 1], id);
    }
  }

  /** A write is acknowledged and lost exactly when its uid is not refused and the group of its id has
      been spilled and not removed since. */
  lemma LostExactly(x: Fixed, cfg: Config, ops: seq<Op>, t: Trajectory, now: nat, c: Choice)
    requires Faithful(x.pb) && AllowedRun(x, Fresh(cfg), ops)
    ensures var s := Run(x, Fresh(cfg), ops).0;
            var e := Step(x, s, DoWrite(t, now, c)).1;
            e.answer && !e.stored <==> !Duplicate(s, t.uid) && SpilledSince(x, Fresh(cfg), ops, t.instanceId)
  {
    SealedIsHistory(x, cfg, ops, t.instanceId);
    StepEvent(x, Run(x, Fresh(cfg), ops).0, DoWrite(t, now, c));
  }

  // ---------- spilling is invisible to readers ----------

  function Unsealed(q: Queue): Queue {
    q.(held := map id | id in q.held :: q.held[id].(sealed := false))
  }

  /** Two shards that differ only in what has been spilled deliver the same groups, up to order,
      and are left differing only in what has been spilled. */
  lemma ReadIgnoresSpill(x: Fixed, a: Shard, b: Shard, max: int, order: seq<string>)
    requires Inv(x.pb, a) && Inv(x.pb, b) && Distinct(order)
    requires Unsealed(View(x.pb, a)) == Unsealed(View(x.pb, b))
    ensures var (a', fromA) := Read(x, a, max, order);
            var (b', fromB) := Read(x, b, max, order);
            && multiset(fromA) == multiset(fromB)
            && Unsealed(View(x.pb, a')) == Unsealed(View(x.pb, b'))
  {
    SameCompleteness(x.pb, a, b);
    SamePicks(a.groups, b.groups, order, max, 0);
    ReadStep(x, a, max, order);
    ReadStep(x, b, max, order);
    var ids := Pick(a.groups, order, max, 0);
    hide Inv, View, Pick, DeliveryOrder, Read, Unsealed;
    TakeUnsealed(View(x.pb, a), View(x.pb, b), DeliveryOrder(a.groups, ids), DeliveryOrder(b.groups, ids));
  }

  lemma SameCompleteness(pb: Codec<Group>, a: Shard, b: Shard)
    requires Inv(pb, a) && Inv(pb, b) && Unsealed(View(pb, a)) == Unsealed(View(pb, b))
    ensures a.groups.Keys == b.groups.Keys
    ensures forall id :: id in a.groups ==> a.groups[id].IsComplete() == b.groups[id].IsComplete()
  {
    ViewAgrees(pb, a);
    ViewAgrees(pb, b);
    ViewFields(pb, a);
    ViewFields(pb, b);
    hide Inv, View;
    var p, q := View(pb, a), View(pb, b);
    assert Unsealed(p).held.Keys == p.held.Keys && Unsealed(q).held.Keys == q.held.Keys;
    forall id | id in a.groups
      ensures a.groups[id].IsComplete() == b.groups[id].IsComplete()
    {
      assert Unsealed(p).held[id] == Unsealed(q).held[id];
    }
  }

  lemma {:induction false} SamePicks(a: Groups, b: Groups, order: seq<string>, max: int, taken: nat)
    requires a.Keys == b.Keys && forall id :: id in a ==> a[id].IsComplete() == b[id].IsComplete()
    ensures Pick(a, order, max, taken) == Pick(b, order, max, taken)
  {
    if order != [] {
      assert order[0] in a <==> order[0] in a.Keys;
      assert order[0] in b <==> order[0] in b.Keys;
      SamePicks(a, b, order[1..], max, taken);
      SamePicks(a, b, order[1..], max, taken + 1);
    }
  }

  lemma TakeUnsealed(p: Queue, q: Queue, ids: seq<string>, jds: seq<string>)
    requires Unsealed(p) == Unsealed(q) && multiset(ids) == multiset(jds)
    ensures multiset(Take(p, ids).1) == multiset(Take(q, jds).1)
    ensures Unsealed(Take(p, ids).0) == Unsealed(Take(q, jds).0)
  {
    assert Unsealed(p).held.Keys == p.held.Keys && Unsealed(q).held.Keys == q.held.Keys;
    forall id | id in p.held
      ensures id in q.held && p.held[id].group == q.held[id].group
    {
      assert Unsealed(p).held[id] == Unsealed(q).held[id];
    }
    assert forall id :: id in q.held ==> id in p.held;
    forall i | 0 <= i < |ids|
      ensures GroupIn(p, ids[i]) == GroupIn(q, ids[i])
    {
    }
    assert GroupsOf(p, ids) == GroupsOf(q, ids);
    PermutedGroups(q, ids, jds);
    SameElements(ids, jds);
    SizeOfPermuted(GroupsOf(q, ids), GroupsOf(q, jds));
    var gone := set id | id in ids;
    assert gone == set id | id in jds;
    assert Unsealed(Drop(p, gone)).held == Unsealed(p).held - gone;
    assert Unsealed(Drop(q, gone)).held == Unsealed(q).held - gone;
  }

  lemma {:induction false} PermutedGroups(q: Queue, ids: seq<string>, jds: seq<string>)
    requires multiset(ids) == multiset(jds)
    ensures multiset(GroupsOf(q, ids)) == multiset(GroupsOf(q, jds))
    decreases |ids|
  {
    if ids == [] {
      assert |jds| == |multiset(jds)| == 0;
    } else {
      var init, last := ids[..|ids| - 1], ids[|ids| - 1];
      var k := SplitOff(ids, jds);
      var front, back := jds[..k], jds[k + 1..];
      PermutedGroups(q, init, front + back);
      assert ids == init + [last] && jds == front + [last] + back;
      GroupsOfAppend(q, init, [last]);
      GroupsOfAppend(q, front + [last], back);
      GroupsOfAppend(q, front, [last]);
      GroupsOfAppend(q, front, back);
    }
  }

  lemma {:induction false} SizeOfPermuted(a: seq<Group>, b: seq<Group>)
    requires multiset(a) == multiset(b)
    ensures SizeOf(a) == SizeOf(b)
    decreases |a|
  {
    if a == [] {
      assert |b| == |multiset(b)| == 0;
    } else {
      var init, last := a[..|a| - 1], a[|a| - 1];
      var k := SplitOff(a, b);
      var front, back := b[..k], b[k + 1..];
      SizeOfPermuted(init, front + back);
      assert a == init + [last] && b == front + [last] + back;
      SizeAppend(front + [last], back);
      SizeAppend(front, back);
      SizeSnoc(front, last);
    }
  }

}
