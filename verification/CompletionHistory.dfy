/** When a group is complete, read off the history alone. */
module CompletionHistory {
  import opened Prelude
  import opened Protobuf
  import opened Trajectories
  import opened ShardModel
  import opened PlainQueue
  import opened ShardInvariant
  import opened ShardSteps
  import opened ShardHistory
  import opened ShardAccounts

  // ---------- reference definitions ----------

  predicate StoredNow(e: Event, id: string) {
    e.Wrote? && e.stored && e.t.instanceId == id
  }

  /** The position of the first write stored for the id since it was last removed. */
  function FirstStored(events: seq<Event>, id: string): Option<nat> {
    if events == [] then None
    else
      var init, e := events[..|events| - 1], events[|events| - 1];
      if Removes(e, id) then None
      else if FirstStored(init, id).None? && StoredNow(e, id) then Some(|init|)
      else FirstStored(init, id)
  }

  /** The configuration in force after some operations. */
  function ConfigAt(cfg: Config, ops: seq<Op>): Config {
    if ops == [] then cfg
    else if ops[|ops| - 1].DoConfigure? then ops[|ops| - 1].cfg
    else ConfigAt(cfg, ops[..|ops| - 1])
  }

  /** Operation j is a timeout check whose clock reading is at least the timeout then configured past that
      of the write k. */
  predicate TimedOutBy(cfg: Config, ops: seq<Op>, k: nat, j: nat) {
    && k < j < |ops| && ops[k].DoWrite? && ops[j].DoTimeouts?
    && ops[j].now - ops[k].now >= ConfigAt(cfg, ops[..j]).timeoutSeconds * 1_000_000_000
  }

  // ---------- one step ----------

  /** What one operation does to the group of an id: creation, growth, completion, removal. */
  ghost predicate Changes(q: Queue, q': Queue, op: Op, e: Event, id: string) {
    if Removes(e, id) then id !in q'.held
    else if StoredNow(e, id) then
      && op.DoWrite? && id in q'.held
      && var h', g' := q'.held[id], q'.held[id].group;
         if id in q.held then
           var g := q.held[id].group;
           && h'.created == q.held[id].created && g'.groupSize == g.groupSize
           && |g'.trajectories| == |g.trajectories| + 1
           && (g'.complete <==> g.complete || |g.trajectories| + 1 >= g.groupSize)
         else
           && h'.created == op.now && g'.groupSize == q.cfg.groupSize && |g'.trajectories| == 1
           && (g'.complete <==> 1 >= q.cfg.groupSize)
    else
      && (id in q'.held <==> id in q.held)
      && (id in q.held ==>
            var h, h' := q.held[id], q'.held[id];
            && h'.created == h.created && h'.group.groupSize == h.group.groupSize
            && |h'.group.trajectories| == |h.group.trajectories|
            && (h'.group.complete <==>
                  h.group.complete || (op.DoTimeouts? && op.now - h.created >= q.cfg.timeoutSeconds * 1_000_000_000)))
  }

  lemma PutChanges(max: nat, q: Queue, t: Trajectory, now: nat, c: Choice, answer: bool, id: string)
    ensures Changes(q, Put(max, q, t, now).0, DoWrite(t, now, c), Wrote(t, answer, Accepts(q, t)), id)
  {
  }

  lemma SealChanges(q: Queue, q': Queue, ids: set<string>, op: Op, e: Event, id: string)
    requires Changes(q, q', op, e, id)
    ensures Changes(q, Seal(q', ids), op, e, id)
  {
  }

  lemma NoChanges(q: Queue, op: Op, id: string)
    requires !op.DoTimeouts?
    ensures Changes(q, q, op, Silent, id)
  {
  }

  lemma TimeoutsChanges(q: Queue, now: nat, id: string)
    ensures Changes(q, Timeouts(q, now), DoTimeouts(now), Silent, id)
  {
  }

  lemma TakeChanges(q: Queue, ids: seq<string>, gs: seq<Group>, op: Op, id: string)
    requires (id in ids <==> Delivers(gs, id)) && !op.DoTimeouts?
    ensures Changes(q, Take(q, ids).0, op, Delivered(gs), id)
  {
  }

  lemma DropChanges(q: Queue, j: string, op: Op, id: string)
    requires !op.DoTimeouts?
    ensures Changes(q, Drop(q, {j}), op, Deleted(j), id)
  {
  }

  lemma WriteChanges(x: Fixed, s: Shard, t: Trajectory, now: nat, c: Choice, id: string)
    requires Faithful(x.pb) && Inv(x.pb, s) && WriteAllowed(x, s, t, now, c)
    ensures var (s', ok) := Write(x, s, t, now, c);
            Changes(View(x.pb, s), View(x.pb, s'), DoWrite(t, now, c), Wrote(t, ok, Stores(s, t)), id)
  {
    hide Inv, View, Write, SpilledBy, Put, Seal, Changes, WriteAllowed, Accepts, Stores, Faithful;
    WriteStep(x, s, t, now, c);
    AcceptsIsStores(x, s, t);
    var (s', ok) := Write(x, s, t, now, c);
    PutChanges(x.dedupMax, View(x.pb, s), t, now, c, ok, id);
    SealChanges(View(x.pb, s), Put(x.dedupMax, View(x.pb, s), t, now).0, Elements(SpilledBy(x, s, t, now, c)),
                DoWrite(t, now, c), Wrote(t, ok, Stores(s, t)), id);
  }

  lemma ReadChanges(x: Fixed, s: Shard, max: int, order: seq<string>, id: string)
    requires Inv(x.pb, s) && Distinct(order)
    ensures var (s', gs) := Read(x, s, max, order);
            Changes(View(x.pb, s), View(x.pb, s'), DoRead(max, order), Delivered(gs), id)
  {
    hide Inv, View, Read, Take, Changes, DeliveryOrder, Pick;
    ReadStep(x, s, max, order);
    ViewFields(x.pb, s);
    var ids := DeliveryOrder(s.groups, Pick(s.groups, order, max, 0));
    TakeHeldFor(x.pb, s, ids, id);
    TakeChanges(View(x.pb, s), ids, Read(x, s, max, order).1, DoRead(max, order), id);
  }

  /** Every allowed operation changes the group of an id in just that way: a stored write completes it if
      and only if it then holds as many trajectories as its size, and a timeout check if and only if the
      timeout has passed since it was created. */
  lemma StepChanges(x: Fixed, s: Shard, op: Op, id: string)
    requires Faithful(x.pb) && Inv(x.pb, s) && Allowed(x, s, op)
    ensures var (s', e) := Step(x, s, op); Changes(View(x.pb, s), View(x.pb, s'), op, e, id)
  {
    hide Inv, View, Write, Read, CheckTimeouts, TrySpill, SpillGroups, Remove, Changes, Seal, Timeouts, Drop, SpilledBy,
      Selected, WriteAllowed, AllLoadable;
    var q := View(x.pb, s);
    match op
    case DoWrite(t, now, c) => WriteChanges(x, s, t, now, c, id);
    case DoRead(max, order) => ReadChanges(x, s, max, order, id);
    case DoTimeouts(now) =>
      TimeoutsStep(x.pb, s, now);
      TimeoutsChanges(q, now, id);
    case DoSpill(c) =>
      TrySpillStep(x, s, c);
      NoChanges(q, op, id);
      SealChanges(q, q, Elements(Selected(x, s, c.order)), op, Silent, id);
    case DoSpillOf(ids, names) =>
      SpillGroupsStep(x.pb, s, ids, names);
      NoChanges(q, op, id);
      SealChanges(q, q, Elements(ids), op, Silent, id);
    case DoDelete(j) =>
      RemoveStep(x.pb, s, j);
      DropChanges(q, j, op, id);
    case DoReset => ResetChanges(x.pb, s, id);
    case DoConfigure(cfg) => ConfigureChanges(x.pb, s, cfg, id);
  }

  lemma ResetChanges(pb: Codec<Group>, s: Shard, id: string)
    requires Inv(pb, s)
    ensures Changes(View(pb, s), View(pb, Reset(s)), DoReset, WasReset, id)
  {
    ResetStep(pb, s);
  }

  lemma ConfigureChanges(pb: Codec<Group>, s: Shard, cfg: Config, id: string)
    ensures Changes(View(pb, s), View(pb, Reconfigure(s, cfg)), DoConfigure(cfg), Silent, id)
  {
    assert View(pb, Reconfigure(s, cfg)).held == View(pb, s).held;
  }

  // ---------- whole runs ----------

  /** What the history says of an id, and what the queue holds for it. */
  ghost predicate Agrees(q: Queue, cfg: Config, ops: seq<Op>, events: seq<Event>, id: string) {
    && q.cfg == ConfigAt(cfg, ops)
    && match FirstStored(events, id)
       case None => id !in q.held
       case Some(k) =>
         && k < |ops| && ops[k].DoWrite? && id in q.held
         && var h := q.held[id];
            && h.created == ops[k].now && h.group.groupSize == ConfigAt(cfg, ops[..k]).groupSize
            && (h.group.complete <==>
                  |h.group.trajectories| >= h.group.groupSize || exists j :: TimedOutBy(cfg, ops, k, j))
  }

  lemma TimedOutSnoc(cfg: Config, ops: seq<Op>, op: Op, k: nat)
    requires k < |ops| && ops[k].DoWrite?
    ensures (exists j :: TimedOutBy(cfg, ops + [op], k, j)) <==>
              (exists j :: TimedOutBy(cfg, ops, k, j))
              || (op.DoTimeouts? && op.now - ops[k].now >= ConfigAt(cfg, ops).timeoutSeconds * 1_000_000_000)
  {
    hide ConfigAt;
    var more := ops + [op];
    assert more[..|ops|] == ops;
    forall j: nat | j < |ops|
      ensures TimedOutBy(cfg, more, k, j) <==> TimedOutBy(cfg, ops, k, j)
    {
      assert more[..j] == ops[..j];
    }
    if op.DoTimeouts? && op.now - ops[k].now >= ConfigAt(cfg, ops).timeoutSeconds * 1_000_000_000 {
      assert TimedOutBy(cfg, more, k, |ops|);
    }
    if j :| TimedOutBy(cfg, more, k, j) {
      assert j == |ops| || TimedOutBy(cfg, ops, k, j);
    }
    if j :| TimedOutBy(cfg, ops, k, j) {
      assert TimedOutBy(cfg, more, k, j);
    }
  }

  lemma FirstStoredSnoc(events: seq<Event>, e: Event, id: string)
    ensures FirstStored(events + [e], id)
            == if Removes(e, id) then None
               else if FirstStored(events, id).None? && StoredNow(e, id) then Some(|events|)
               else FirstStored(events, id)
  {
    assert (events + [e])[..|events|] == events;
  }

  lemma ConfigSnoc(cfg: Config, ops: seq<Op>, op: Op)
    ensures ConfigAt(cfg, ops + [op]) == if op.DoConfigure? then op.cfg else ConfigAt(cfg, ops)
  {
    assert (ops + [op])[..|ops|] == ops;
  }

  lemma NotTimedOutYet(cfg: Config, ops: seq<Op>, op: Op)
    ensures !exists j :: TimedOutBy(cfg, ops + [op], |ops|, j)
  {
  }

  lemma AgreesMore(q: Queue, q': Queue, cfg: Config, ops: seq<Op>, op: Op, events: seq<Event>, e: Event, id: string)
    requires |events| == |ops| && Agrees(q, cfg, ops, events, id) && Changes(q, q', op, e, id)
    requires q'.cfg == if op.DoConfigure? then op.cfg else q.cfg
    ensures Agrees(q', cfg, ops + [op], events + [e], id)
  {
    hide ConfigAt, FirstStored, TimedOutBy, Removes;
    var more := ops + [op];
    ConfigSnoc(cfg, ops, op);
    FirstStoredSnoc(events, e, id);
    match FirstStored(events, id)
    case None =>
      assert more[..|ops|] == ops;
      NotTimedOutYet(cfg, ops, op);
    case Some(k) =>
      assert more[..k] == ops[..k] && more[k] == ops[k];
      TimedOutSnoc(cfg, ops, op, k);
  }

  lemma {:induction false} RunAgrees(x: Fixed, cfg: Config, ops: seq<Op>, id: string)
    requires Faithful(x.pb) && AllowedRun(x, Fresh(cfg), ops)
    ensures var (s, events) := Run(x, Fresh(cfg), ops); Agrees(View(x.pb, s), cfg, ops, events, id)
  {
    hide Inv, View, Step, Allowed, Agrees, Changes;
    FreshInv(x.pb, cfg);
    if ops == [] {
      NothingYet(x.pb, cfg, id);
    } else {
      var init, op := ops[..|ops| - 1], ops[|ops| - 1];
      var (mid, before) := Run(x, Fresh(cfg), init);
      RunAgrees(x, cfg, init, id);
      RunInv(x, Fresh(cfg), init);
      StepChanges(x, mid, op, id);
      StepLru(x, mid, op);
      ViewFields(x.pb, mid);
      ViewFields(x.pb, Step(x, mid, op).0);
      AgreesMore(View(x.pb, mid), View(x.pb, Step(x, mid, op).0), cfg, init, op, before, Step(x, mid, op).1, id);
      assert ops == init + [op];
    }
  }

  lemma NothingYet(pb: Codec<Group>, cfg: Config, id: string)
    ensures Agrees(View(pb, Fresh(cfg)), cfg, [], [], id)
  {
  }

  /** After any run, a group that is there is complete if and only if the writes stored for its id since
      it was last removed are as many as the group size configured when the first of them was stored, or a
      timeout check read a clock at least the configured timeout past that first write. */
  lemma CompleteExactly(x: Fixed, cfg: Config, ops: seq<Op>, id: string)
    requires Faithful(x.pb) && AllowedRun(x, Fresh(cfg), ops)
    ensures var (s, events) := Run(x, Fresh(cfg), ops);
            var first := FirstStored(events, id);
            && (id in s.groups <==> first.Some?)
            && (first.Some? ==>
                  && first.value < |ops| && ops[first.value].DoWrite?
                  && var size := ConfigAt(cfg, ops[..first.value]).groupSize;
                     && View(x.pb, s).held[id].group.groupSize == size
                     && (s.groups[id].IsComplete() <==>
                           |Pending(events, id)| >= size || exists j :: TimedOutBy(cfg, ops, first.value, j)))
  {
    var (s, events) := Run(x, Fresh(cfg), ops);
    hide Inv, Run, AllowedRun, Pending, FirstStored, ConfigAt, TimedOutBy, View;
    RunAgrees(x, cfg, ops, id);
    FreshInv(x.pb, cfg);
    RunInv(x, Fresh(cfg), ops);
    HeldIsHistory(x, cfg, ops, id);
    ViewFields(x.pb, s);
    FinishedInView(x.pb, s, id);
  }

  /** A timeout check completes an incomplete group if and only if its clock reading is at least the
      configured timeout past the reading at the first write stored for the id since it was last removed. */
  lemma TimeoutExactly(x: Fixed, cfg: Config, ops: seq<Op>, id: string, now: nat)
    requires Faithful(x.pb) && AllowedRun(x, Fresh(cfg), ops)
    ensures var (s, events) := Run(x, Fresh(cfg), ops);
            id in s.groups && !s.groups[id].IsComplete() ==>
              && FirstStored(events, id).Some? && FirstStored(events, id).value < |ops|
              && var first := ops[FirstStored(events, id).value];
                 && first.DoWrite? && id in CheckTimeouts(s, now).groups
                 && (CheckTimeouts(s, now).groups[id].IsComplete() <==>
                       now - first.now >= ConfigAt(cfg, ops).timeoutSeconds * 1_000_000_000)
  {
    var (s, events) := Run(x, Fresh(cfg), ops);
    RunAgrees(x, cfg, ops, id);
    FreshInv(x.pb, cfg);
    RunInv(x, Fresh(cfg), ops);
    StepChanges(x, s, DoTimeouts(now), id);
    StepInv(x, s, DoTimeouts(now));
    hide Inv, Run, AllowedRun, FirstStored, ConfigAt, TimedOutBy, View;
    ViewFields(x.pb, s);
    ViewFields(x.pb, CheckTimeouts(s, now));
    FinishedInView(x.pb, s, id);
    FinishedInView(x.pb, CheckTimeouts(s, now), id);
  }
}
