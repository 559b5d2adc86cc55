/** Whole runs of a shard: what is held, delivered or gone is determined by the history of
    stored writes, and the counters add up. */
module ShardHistory {
  import opened Prelude
  import opened Protobuf
  import opened Trajectories
  import opened ShardModel
  import opened PlainQueue
  import opened ShardInvariant
  import opened ShardSteps

  datatype Op =
    | DoWrite(t: Trajectory, now: nat, c: Choice)
    | DoRead(max: int, order: seq<string>)
    | DoTimeouts(now: nat)
    | DoSpill(c: Choice)
    | DoSpillOf(ids: seq<string>, names: seq<nat>)   // a spill whose groups were chosen earlier
    | DoDelete(id: string)
    | DoReset
    | DoConfigure(cfg: Config)

  /** What a run shows: each write with the answer it got and whether it was stored, each delivery. */
  datatype Event =
    | Wrote(t: Trajectory, answer: bool, stored: bool)
    | Delivered(groups: seq<Group>)
    | Deleted(id: string)
    | WasReset
    | Silent

  ghost function Step(x: Fixed, s: Shard, op: Op): (Shard, Event) {
    match op
    case DoWrite(t, now, c) => var (s', ok) := Write(x, s, t, now, c); (s', Wrote(t, ok, Stores(s, t)))
    case DoRead(max, order) => var (s', gs) := Read(x, s, max, order); (s', Delivered(gs))
    case DoTimeouts(now) => (CheckTimeouts(s, now), Silent)
    case DoSpill(c) => (TrySpill(x, s, c), Silent)
    case DoSpillOf(ids, names) => (if |ids| == |names| then SpillGroups(x.pb, s, ids, names) else s, Silent)
    case DoDelete(id) => (Remove(s, id), Deleted(id))
    case DoReset => (Reset(s), WasReset)
    case DoConfigure(cfg) => (Reconfigure(s, cfg), Silent)
  }

  /** What the environment guarantees: traversals are in order, file names are unused, and the groups
      that happen to be spilled can be loaded again. */
  ghost predicate Allowed(x: Fixed, s: Shard, op: Op) {
    match op
    case DoWrite(t, now, c) => WriteAllowed(x, s, t, now, c)
    case DoRead(_, order) => IsOrder(order, s.groups.Keys)
    case DoSpill(c) => GoodChoice(s.files, c) && AllLoadable(x.pb, s.groups, Selected(x, s, c.order))
    case DoSpillOf(ids, names) =>
      |ids| == |names| && AllSpillable(s.groups, ids) && AllLoadable(x.pb, s.groups, ids) && FreshNames(s.files, names)
    case _ => true
  }

  ghost function Run(x: Fixed, s: Shard, ops: seq<Op>): (r: (Shard, seq<Event>))
    ensures |r.1| == |ops|
  {
    if ops == [] then (s, [])
    else
      var (mid, events) := Run(x, s, ops[..|ops| - 1]);
      var (s', e) := Step(x, mid, ops[|ops| - 1]);
      (s', events + [e])
  }

  ghost predicate AllowedRun(x: Fixed, s: Shard, ops: seq<Op>) {
    ops == [] ||
    (AllowedRun(x, s, ops[..|ops| - 1]) && Allowed(x, Run(x, s, ops[..|ops| - 1]).0, ops[|ops| - 1]))
  }

  // ---------- the history, read off the events alone ----------

  predicate Delivers(groups: seq<Group>, id: string) {
    exists i :: 0 <= i < |groups| && groups[i].instanceId == id
  }

  ghost predicate OncePerId(groups: seq<Group>) {
    forall i, j :: 0 <= i < j < |groups| ==> groups[i].instanceId != groups[j].instanceId
  }

  /** How one event changes the stored but not yet removed trajectories of an id. */
  function After(e: Event, id: string, pending: seq<Trajectory>): seq<Trajectory> {
    match e
    case Wrote(t, _, stored) => if stored && t.instanceId == id then pending + [t] else pending
    case Delivered(groups) => if Delivers(groups, id) then [] else pending
    case Deleted(j) => if j == id then [] else pending
    case WasReset => []
    case Silent => pending
  }

  /** The writes stored for an id since it was last removed, in write order. */
  function Pending(events: seq<Event>, id: string): seq<Trajectory> {
    if events == [] then []
    else After(events[|events| - 1], id, Pending(events[..|events| - 1], id))
  }

  /** What the queue holds for an id, wherever it is stored. */
  ghost function HeldFor(q: Queue, id: string): seq<Trajectory> {
    if id in q.held then q.held[id].group.trajectories else []
  }

  // ---------- one step ----------

  lemma FreshInv(pb: Codec<Group>, cfg: Config)
    ensures Inv(pb, Fresh(cfg)) && View(pb, Fresh(cfg)) == Empty(cfg)
  {
    assert (map id | id in Fresh(cfg).groups :: Fresh(cfg).groups[id].DiskBytes()) == map[];
    assert View(pb, Fresh(cfg)).held == map[];
  }

  lemma StepInv(x: Fixed, s: Shard, op: Op)
    requires Faithful(x.pb) && Inv(x.pb, s) && Allowed(x, s, op)
    ensures Inv(x.pb, Step(x, s, op).0)
  {
    match op
    case DoWrite(t, now, c) => WriteStep(x, s, t, now, c);
    case DoRead(max, order) => ReadStep(x, s, max, order);
    case DoTimeouts(now) => TimeoutsStep(x.pb, s, now);
    case DoSpill(c) => TrySpillStep(x, s, c);
    case DoSpillOf(ids, names) => SpillGroupsStep(x.pb, s, ids, names);
    case DoDelete(id) => RemoveStep(x.pb, s, id);
    case DoReset => ResetStep(x.pb, s); FreshInv(x.pb, s.cfg);
    case DoConfigure(cfg) =>
  }

  lemma {:induction false} RunInv(x: Fixed, s: Shard, ops: seq<Op>)
    requires Faithful(x.pb) && Inv(x.pb, s) && AllowedRun(x, s, ops)
    ensures Inv(x.pb, Run(x, s, ops).0)
  {
    hide Inv, Step, Allowed;
    if ops != [] {
      RunInv(x, s, ops[..|ops| - 1]);
      StepInv(x, Run(x, s, ops[..|ops| - 1]).0, ops[|ops| - 1]);
    }
  }

  lemma SealKeepsHeld(q: Queue, ids: set<string>, id: string)
    ensures HeldFor(Seal(q, ids), id) == HeldFor(q, id)
  {
  }

  lemma PutHeldFor(max: nat, q: Queue, t: Trajectory, now: nat, id: string)
    ensures HeldFor(Put(max, q, t, now).0, id)
            == if Accepts(q, t) && t.instanceId == id then HeldFor(q, id) + [t] else HeldFor(q, id)
  {
  }

  lemma TakeHeldFor(pb: Codec<Group>, s: Shard, ids: seq<string>, id: string)
    requires Inv(pb, s) && forall j :: j in ids ==> j in s.groups
    ensures var (q, gs) := Take(View(pb, s), ids);
            && HeldFor(q, id) == After(Delivered(gs), id, HeldFor(View(pb, s), id))
            && (id in ids <==> Delivers(gs, id))
  {
    var gs := Take(View(pb, s), ids).1;
    ViewFields(pb, s);
    forall i | 0 <= i < |ids|
      ensures gs[i].instanceId == ids[i]
    {
      assert ids[i] in s.groups;
      HeldInstance(pb, s, ids[i]);
    }
    hide Inv, View;
    if id in ids {
      var i :| 0 <= i < |ids| && ids[i] == id;
      assert gs[i].instanceId == id;
    }
  }

  lemma HeldInstance(pb: Codec<Group>, s: Shard, id: string)
    requires Inv(pb, s) && id in s.groups
    ensures GroupIn(View(pb, s), id).instanceId == id
  {
    assert EntryOk(pb, s.files, s.groups[id], id);
  }

  /** One step changes what is held for every id exactly as its event says. */
  lemma StepHeld(x: Fixed, s: Shard, op: Op, id: string)
    requires Faithful(x.pb) && Inv(x.pb, s) && Allowed(x, s, op)
    ensures var (s', e) := Step(x, s, op);
            HeldFor(View(x.pb, s'), id) == After(e, id, HeldFor(View(x.pb, s), id))
  {
    var q := View(x.pb, s);
    hide Inv, View, WriteAllowed, GoodChoice, HeldFor, Write, Read, CheckTimeouts, TrySpill, Remove, Timeouts, Seal, Drop;
    match op
    case DoWrite(t, now, c) => WriteHeld(x, s, t, now, c, id);
    case DoRead(max, order) => ReadHeld(x, s, max, order, id);
    case DoTimeouts(now) =>
      TimeoutsStep(x.pb, s, now);
      TimeoutsKeepHeld(q, now, id);
    case DoSpill(c) =>
      TrySpillStep(x, s, c);
      SealKeepsHeld(q, Elements(Selected(x, s, c.order)), id);
    case DoSpillOf(ids, names) =>
      SpillGroupsStep(x.pb, s, ids, names);
      hide SpillGroups, AllSpillable, FreshNames;
      SealKeepsHeld(q, Elements(ids), id);
    case DoDelete(j) =>
      RemoveStep(x.pb, s, j);
      DropHeldFor(q, j, id);
    case DoReset => ResetHeld(x.pb, s, id);
    case DoConfigure(cfg) => ConfigureHeld(x.pb, s, cfg, id);
  }

  lemma ResetHeld(pb: Codec<Group>, s: Shard, id: string)
    requires Inv(pb, s)
    ensures HeldFor(View(pb, Reset(s)), id) == []
  {
    ResetStep(pb, s);
  }

  lemma ConfigureHeld(pb: Codec<Group>, s: Shard, cfg: Config, id: string)
    ensures HeldFor(View(pb, Reconfigure(s, cfg)), id) == HeldFor(View(pb, s), id)
  {
  }

  lemma TimeoutsKeepHeld(q: Queue, now: nat, id: string)
    ensures HeldFor(Timeouts(q, now), id) == HeldFor(q, id)
  {
  }

  lemma DropHeldFor(q: Queue, j: string, id: string)
    ensures HeldFor(Drop(q, {j}), id) == if j == id then [] else HeldFor(q, id)
  {
  }

  lemma WriteHeld(x: Fixed, s: Shard, t: Trajectory, now: nat, c: Choice, id: string)
    requires Faithful(x.pb) && Inv(x.pb, s) && WriteAllowed(x, s, t, now, c)
    ensures var s' := Write(x, s, t, now, c).0;
            HeldFor(View(x.pb, s'), id)
            == if Stores(s, t) && t.instanceId == id then HeldFor(View(x.pb, s), id) + [t] else HeldFor(View(x.pb, s), id)
  {
    WriteStep(x, s, t, now, c);
    AcceptsIsStores(x, s, t);
    hide Inv, View, Put, Seal, HeldFor, Write, SpilledBy, Accepts, Stores;
    PutHeldFor(x.dedupMax, View(x.pb, s), t, now, id);
    SealKeepsHeld(Put(x.dedupMax, View(x.pb, s), t, now).0, Elements(SpilledBy(x, s, t, now, c)), id);
  }

  lemma ReadHeld(x: Fixed, s: Shard, max: int, order: seq<string>, id: string)
    requires Inv(x.pb, s) && Distinct(order)
    ensures var (s', gs) := Read(x, s, max, order);
            HeldFor(View(x.pb, s'), id) == After(Delivered(gs), id, HeldFor(View(x.pb, s), id))
  {
    ReadStep(x, s, max, order);
    ViewFields(x.pb, s);
    hide Inv, View, Read, Take, HeldFor, After, DeliveryOrder, Pick;
    TakeHeldFor(x.pb, s, DeliveryOrder(s.groups, Pick(s.groups, order, max, 0)), id);
  }

  // ---------- projection of history ----------

  /** After any run the group held for an id is exactly the writes stored for it since it was
      last removed, in write order, wherever the group lives; and it is absent when there are none. */
  lemma {:induction false} HeldIsHistory(x: Fixed, cfg: Config, ops: seq<Op>, id: string)
    requires Faithful(x.pb) && AllowedRun(x, Fresh(cfg), ops)
    ensures var (s, events) := Run(x, Fresh(cfg), ops);
            && HeldFor(View(x.pb, s), id) == Pending(events, id)
            && (id in s.groups <==> Pending(events, id) != [])
  {
    hide Inv, Step, Allowed, After;
    FreshInv(x.pb, cfg);
    var (s, events) := Run(x, Fresh(cfg), ops);
    if ops != [] {
      var init := ops[..|ops| - 1];
      var (mid, before) := Run(x, Fresh(cfg), init);
      HeldIsHistory(x, cfg, init, id);
      RunInv(x, Fresh(cfg), init);
      StepHeld(x, mid, ops[|ops| - 1], id);
      assert events[..|ops| - 1] == before;
    }
    RunInv(x, Fresh(cfg), ops);
    ViewFields(x.pb, s);
    ViewAgrees(x.pb, s);
  }

  /** Every delivered group is complete and carries exactly the writes stored for its id since
      the id was last removed; no id is delivered twice at once. */
  lemma DeliveredIsHistory(x: Fixed, cfg: Config, ops: seq<Op>, max: int, order: seq<string>)
    requires Faithful(x.pb) && AllowedRun(x, Fresh(cfg), ops) && Distinct(order)
    ensures var (s, events) := Run(x, Fresh(cfg), ops);
            var gs := Read(x, s, max, order).1;
            && (forall i :: 0 <= i < |gs| ==>
                  gs[i].complete && gs[i].trajectories == Pending(events, gs[i].instanceId) != [])
            && OncePerId(gs)
  {
    var (s, events) := Run(x, Fresh(cfg), ops);
    FreshInv(x.pb, cfg);
    RunInv(x, Fresh(cfg), ops);
    ReadStep(x, s, max, order);
    var ids := DeliveryOrder(s.groups, Pick(s.groups, order, max, 0));
    DistinctFromMultiset(ids, Pick(s.groups, order, max, 0));
    DeliveredGroups(x.pb, s, ids);
    var gs := Read(x, s, max, order).1;
    forall i | 0 <= i < |gs|
      ensures gs[i].complete && gs[i].trajectories == Pending(events, gs[i].instanceId) != []
    {
      HeldIsHistory(x, cfg, ops, gs[i].instanceId);
    }
  }

  lemma DeliveredGroups(pb: Codec<Group>, s: Shard, ids: seq<string>)
    requires Inv(pb, s) && forall id :: id in ids ==> id in View(pb, s).held && View(pb, s).held[id].group.complete
    ensures var gs := Take(View(pb, s), ids).1;
            forall i :: 0 <= i < |ids| ==>
              gs[i].instanceId == ids[i] && gs[i].complete && gs[i].trajectories == HeldFor(View(pb, s), ids[i])
  {
    ViewAgrees(pb, s);
    ViewFields(pb, s);
    forall i | 0 <= i < |ids|
      ensures var g := Take(View(pb, s), ids).1[i];
              g.instanceId == ids[i] && g.complete && g.trajectories == HeldFor(View(pb, s), ids[i])
    {
      assert ids[i] in s.groups;
    }
  }

  lemma {:induction false} DistinctFromMultiset(a: seq<string>, b: seq<string>)
    requires multiset(a) == multiset(b) && Distinct(b)
    ensures Distinct(a)
  {
    forall i, j | 0 <= i < j < |a|
      ensures a[i] != a[j]
    {
      if a[i] == a[j] {
        TwiceInMultiset(a, i, j);
        OnceInMultiset(b, a[i]);
      }
    }
  }

  lemma TwiceInMultiset(a: seq<string>, i: nat, j: nat)
    requires i < j < |a| && a[i] == a[j]
    ensures multiset(a)[a[i]] >= 2
  {
    assert a == a[..j] + a[j..];
    assert a[i] == a[..j][i] && a[j] == a[j..][0];
    assert a[i] in multiset(a[..j]) && a[i] in multiset(a[j..]);
    assert multiset(a) == multiset(a[..j]) + multiset(a[j..]);
  }

  lemma {:induction false} OnceInMultiset(b: seq<string>, id: string)
    requires Distinct(b)
    ensures multiset(b)[id] <= 1
  {
    if b != [] {
      var init, last := b[..|b| - 1], b[|b| - 1];
      OnceInMultiset(init, id);
      assert b == init + [last];
      assert multiset(b) == multiset(init) + multiset{last};
      assert last !in init;
      assert last !in multiset(init);
    }
  }

  // ---------- where every stored write went ----------

  datatype Fate = ToReader | ByDelete | ByReset

  /** A run of stored writes that left the queue together. */
  datatype Departure = Departure(fate: Fate, trajectories: seq<Trajectory>)

  function StoredFor(events: seq<Event>, id: string): seq<Trajectory> {
    if events == [] then []
    else
      var init := StoredFor(events[..|events| - 1], id);
      match events[|events| - 1]
      case Wrote(t, _, stored) => if stored && t.instanceId == id then init + [t] else init
      case _ => init
  }

  /** The first group of a delivery that carries the id. */
  function GroupFor(groups: seq<Group>, id: string): seq<Trajectory> {
    if groups == [] then []
    else if groups[0].instanceId == id then groups[0].trajectories
    else GroupFor(groups[1..], id)
  }

  /** The departure of an id that an event causes, if any. */
  function Leaves(events: seq<Event>, e: Event, id: string): seq<Departure> {
    match e
    case Delivered(groups) => if Delivers(groups, id) then [Departure(ToReader, GroupFor(groups, id))] else []
    case Deleted(j) => if j == id then [Departure(ByDelete, Pending(events, id))] else []
    case WasReset => [Departure(ByReset, Pending(events, id))]
    case _ => []
  }

  function Departures(events: seq<Event>, id: string): seq<Departure> {
    if events == [] then []
    else
      var init := events[..|events| - 1];
      Departures(init, id) + Leaves(init, events[|events| - 1], id)
  }

  function Gone(ds: seq<Departure>): seq<Trajectory> {
    if ds == [] then [] else Gone(ds[..|ds| - 1]) + ds[|ds| - 1].trajectories
  }

  function GoneBy(ds: seq<Departure>, fate: Fate): seq<Trajectory> {
    if ds == [] then []
    else
      var init := GoneBy(ds[..|ds| - 1], fate);
      if ds[|ds| - 1].fate == fate then init + ds[|ds| - 1].trajectories else init
  }

  lemma {:induction false} GroupForIs(groups: seq<Group>, id: string, i: nat)
    requires i < |groups| && groups[i].instanceId == id
    requires OncePerId(groups)
    ensures GroupFor(groups, id) == groups[i].trajectories
  {
    if i > 0 {
      GroupForIs(groups[1..], id, i - 1);
    }
  }

  lemma GoneSnoc(ds: seq<Departure>, d: Departure)
    ensures Gone(ds + [d]) == Gone(ds) + d.trajectories
    ensures forall f :: GoneBy(ds + [d], f) == if d.fate == f then GoneBy(ds, f) + d.trajectories else GoneBy(ds, f)
  {
    assert (ds + [d])[..|ds|] == ds;
  }

  lemma DeliveredPending(x: Fixed, cfg: Config, ops: seq<Op>, max: int, order: seq<string>, id: string)
    requires Faithful(x.pb) && AllowedRun(x, Fresh(cfg), ops) && Distinct(order)
    ensures var (s, events) := Run(x, Fresh(cfg), ops);
            var gs := Read(x, s, max, order).1;
            Delivers(gs, id) ==> GroupFor(gs, id) == Pending(events, id)
  {
    hide Read, Run, Pending, AllowedRun, GroupFor;
    var (s, events) := Run(x, Fresh(cfg), ops);
    var gs := Read(x, s, max, order).1;
    DeliveredIsHistory(x, cfg, ops, max, order);
    if Delivers(gs, id) {
      var i :| 0 <= i < |gs| && gs[i].instanceId == id;
      GroupForIs(gs, id, i);
    }
  }

  /** Nothing is lost, duplicated or reordered: the writes stored for an id are what left the
      queue, departure by departure in order, followed by what is still held. */
  lemma {:induction false} StoredIsGoneThenHeld(x: Fixed, cfg: Config, ops: seq<Op>, id: string)
    requires Faithful(x.pb) && AllowedRun(x, Fresh(cfg), ops)
    ensures var events := Run(x, Fresh(cfg), ops).1;
            StoredFor(events, id) == Gone(Departures(events, id)) + Pending(events, id)
  {
    hide StoredFor, Departures, Pending, Gone, Delivers, GroupFor, Inv, Step, Allowed, Faithful, Read;
    if ops == [] {
      NothingStored(id);
    } else {
      var init, op := ops[..|ops| - 1], ops[|ops| - 1];
      var (mid, before) := Run(x, Fresh(cfg), init);
      StoredIsGoneThenHeld(x, cfg, init, id);
      ReadsAreHistory(x, cfg, init, op, id);
      assert Run(x, Fresh(cfg), ops).1 == before + [Step(x, mid, op).1];
      StoredOneMore(before, Step(x, mid, op).1, id);
    }
  }

  lemma NothingStored(id: string)
    ensures StoredFor([], id) == Gone(Departures([], id)) + Pending([], id)
  {
  }

  lemma ReadsAreHistory(x: Fixed, cfg: Config, ops: seq<Op>, op: Op, id: string)
    requires Faithful(x.pb) && AllowedRun(x, Fresh(cfg), ops) && Allowed(x, Run(x, Fresh(cfg), ops).0, op)
    ensures var (s, events) := Run(x, Fresh(cfg), ops);
            var e := Step(x, s, op).1;
            e.Delivered? && Delivers(e.groups, id) ==> GroupFor(e.groups, id) == Pending(events, id)
  {
    hide Run, AllowedRun, Delivers, GroupFor, Pending, Faithful, Read, Write;
    if op.DoRead? {
      DeliveredPending(x, cfg, ops, op.max, op.order, id);
    }
  }

  /** What an event adds to the stored writes of an id. */
  function StoresOf(e: Event, id: string): seq<Trajectory> {
    if e.Wrote? && e.stored && e.t.instanceId == id then [e.t] else []
  }

  /** What was pending, and what is stored now, has left or is pending now. */
  lemma LeavesBalance(events: seq<Event>, e: Event, id: string)
    requires e.Delivered? && Delivers(e.groups, id) ==> GroupFor(e.groups, id) == Pending(events, id)
    ensures Pending(events, id) + StoresOf(e, id) == Gone(Leaves(events, e, id)) + After(e, id, Pending(events, id))
  {
    hide Pending, GroupFor, Delivers;
    GoneOne(Departure(ToReader, Pending(events, id)));
    GoneOne(Departure(ByDelete, Pending(events, id)));
    GoneOne(Departure(ByReset, Pending(events, id)));
  }

  lemma GoneOne(d: Departure)
    ensures Gone([d]) == d.trajectories && Gone([]) == []
  {
    assert [d][..0] == [];
    assert Gone([d][..0]) == [];
  }

  lemma {:induction false} GoneAppend(ds: seq<Departure>, more: seq<Departure>)
    ensures Gone(ds + more) == Gone(ds) + Gone(more)
  {
    if more == [] {
      assert ds + more == ds;
    } else {
      var init, last := more[..|more| - 1], more[|more| - 1];
      GoneAppend(ds, init);
      assert ds + more == (ds + init) + [last];
      GoneSnoc(ds + init, last);
    }
  }

  lemma HistorySnoc(events: seq<Event>, e: Event, id: string)
    ensures StoredFor(events + [e], id) == StoredFor(events, id) + StoresOf(e, id)
    ensures Departures(events + [e], id) == Departures(events, id) + Leaves(events, e, id)
    ensures Pending(events + [e], id) == After(e, id, Pending(events, id))
  {
    hide Leaves, After;
    assert (events + [e])[..|events|] == events;
  }

  lemma StoredOneMore(events: seq<Event>, e: Event, id: string)
    requires StoredFor(events, id) == Gone(Departures(events, id)) + Pending(events, id)
    requires e.Delivered? && Delivers(e.groups, id) ==> GroupFor(e.groups, id) == Pending(events, id)
    ensures StoredFor(events + [e], id) == Gone(Departures(events + [e], id)) + Pending(events + [e], id)
  {
    HistorySnoc(events, e, id);
    LeavesBalance(events, e, id);
    GoneAppend(Departures(events, id), Leaves(events, e, id));
    hide StoredFor, Departures, Pending, Gone, Leaves, After, StoresOf, Delivers, GroupFor;
    Regroup(Gone(Departures(events, id)), Pending(events, id), StoresOf(e, id),
            Gone(Leaves(events, e, id)), After(e, id, Pending(events, id)));
  }

  lemma Regroup<T>(a: seq<T>, b: seq<T>, c: seq<T>, d: seq<T>, e: seq<T>)
    requires b + c == d + e
    ensures a + b + c == a + d + e
  {
    assert a + b + c == a + (b + c);
    assert a + d + e == a + (d + e);
  }

  lemma {:induction false} NotInDelivery(gs: seq<Group>, id: string)
    requires !Delivers(gs, id)
    ensures GroupFor(gs, id) == []
  {
    if gs != [] {
      assert gs[0].instanceId != id;
      assert forall i :: 0 <= i < |gs| - 1 ==> gs[1..][i] == gs[i + 1];
      NotInDelivery(gs[1..], id);
    }
  }

  /** What an event takes away from an id, by fate. */
  function LeftBy(events: seq<Event>, e: Event, id: string, fate: Fate): seq<Trajectory> {
    match e
    case Delivered(groups) => if fate == ToReader then GroupFor(groups, id) else []
    case Deleted(j) => if fate == ByDelete && j == id then Pending(events, id) else []
    case WasReset => if fate == ByReset then Pending(events, id) else []
    case _ => []
  }

  lemma DepartureSnoc(events: seq<Event>, e: Event, id: string, fate: Fate)
    ensures GoneBy(Departures(events + [e], id), fate) == GoneBy(Departures(events, id), fate) + LeftBy(events, e, id, fate)
  {
    HistorySnoc(events, e, id);
    hide GroupFor, Pending, Delivers, GoneBy, Departures, StoredFor;
    var before := Departures(events, id);
    assert before + [] == before && GoneBy(before, fate) + [] == GoneBy(before, fate);
    match e
    case Delivered(groups) =>
      if Delivers(groups, id) {
        GoneSnoc(before, Departure(ToReader, GroupFor(groups, id)));
      } else {
        NotInDelivery(groups, id);
      }
    case Deleted(_) => GoneSnoc(before, Departure(ByDelete, Pending(events, id)));
    case WasReset => GoneSnoc(before, Departure(ByReset, Pending(events, id)));
    case _ =>
  }

  /** As multisets: every stored write is in exactly one of held, delivered, deleted, reset away. */
  lemma Conservation(x: Fixed, cfg: Config, ops: seq<Op>, id: string)
    requires Faithful(x.pb) && AllowedRun(x, Fresh(cfg), ops)
    ensures var (s, events) := Run(x, Fresh(cfg), ops);
            var ds := Departures(events, id);
            multiset(StoredFor(events, id))
            == multiset(GoneBy(ds, ToReader)) + multiset(GoneBy(ds, ByDelete)) + multiset(GoneBy(ds, ByReset))
               + multiset(HeldFor(View(x.pb, s), id))
  {
    var (s, events) := Run(x, Fresh(cfg), ops);
    StoredIsGoneThenHeld(x, cfg, ops, id);
    HeldIsHistory(x, cfg, ops, id);
    FatesPartition(Departures(events, id));
  }

  lemma {:induction false} FatesPartition(ds: seq<Departure>)
    ensures multiset(Gone(ds))
            == multiset(GoneBy(ds, ToReader)) + multiset(GoneBy(ds, ByDelete)) + multiset(GoneBy(ds, ByReset))
  {
    if ds != [] {
      FatesPartition(ds[..|ds| - 1]);
      var init, last := ds[..|ds| - 1], ds[|ds| - 1];
      assert multiset(Gone(ds)) == multiset(Gone(init)) + multiset(last.trajectories);
      assert multiset(GoneBy(init, last.fate) + last.trajectories)
          == multiset(GoneBy(init, last.fate)) + multiset(last.trajectories);
    }
  }
}
