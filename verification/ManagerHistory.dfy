/** Whole runs of the manager: where every stored write is, counting the groups a merged read cuts off. */
module ManagerHistory {
  import opened Prelude
  import opened Protobuf
  import opened Trajectories
  import opened ShardModel
  import opened ShardInvariant
  import opened ShardSteps
  import opened ShardHistory
  import opened ShardAccounts
  import opened Routing

  datatype ManagerOp =
    | WriteOne(t: Trajectory, env: Env)
    | ReadMerged(max: int, orders: seq<seq<string>>)
    | TimeoutsOn(sid: nat, now: nat)
    | DeleteOne(id: string)
    | ResetAll
    | ConfigureAll(cfg: Config)

  /** What a caller sees, and what no caller ever sees: the groups a merged read cut off. */
  datatype Outcome =
    | Answered(t: Trajectory, ok: bool, stored: bool)
    | Returned(groups: seq<Group>, cutOff: seq<Group>)
    | Done

  /** What an operation of the manager is to one shard. */
  function OnShardOp(stdHash: string -> nat, shards: nat, op: ManagerOp, i: nat): Option<Op>
    requires shards > 0
  {
    match op
    case WriteOne(t, env) => if ShardFor(stdHash, shards, t.instanceId) == i then Some(DoWrite(t, env.now, env.c)) else None
    case ReadMerged(max, orders) => Some(DoRead(max, if i < |orders| then orders[i] else []))
    case TimeoutsOn(sid, now) => if sid == i then Some(DoTimeouts(now)) else None
    case DeleteOne(id) => if ShardFor(stdHash, shards, id) == i then Some(DoDelete(id)) else None
    case ResetAll => Some(DoReset)
    case ConfigureAll(cfg) => Some(DoConfigure(cfg))
  }

  ghost function ShardAfter(x: Fixed, s: Shard, op: Option<Op>): Shard {
    if op.Some? then Step(x, s, op.value).0 else s
  }

  ghost function Results(x: Fixed, ss: seq<Shard>, max: int, orders: seq<seq<string>>): (results: seq<seq<Group>>)
    ensures |results| == |ss|
  {
    seq(|ss|, i requires 0 <= i < |ss| => Read(x, ss[i], max, if i < |orders| then orders[i] else []).1)
  }

  ghost function ManagerStep(x: Fixed, stdHash: string -> nat, ss: seq<Shard>, op: ManagerOp): (r: (seq<Shard>, Outcome))
    requires |ss| > 0
    ensures |r.0| == |ss|
  {
    var after := seq(|ss|, i requires 0 <= i < |ss| => ShardAfter(x, ss[i], OnShardOp(stdHash, |ss|, op, i)));
    (after,
     match op
     case WriteOne(t, env) =>
       var s := ss[ShardFor(stdHash, |ss|, t.instanceId)];
       Answered(t, Write(x, s, t, env.now, env.c).1, Stores(s, t))
     case ReadMerged(max, orders) =>
       var merged := Merged(Results(x, ss, max, orders), |ss|);
       var returned := Truncated(merged, max);
       Returned(returned, merged[|returned|..])
     case _ => Done)
  }

  ghost function ManagerRun(x: Fixed, stdHash: string -> nat, ss: seq<Shard>, ops: seq<ManagerOp>)
    : (r: (seq<Shard>, seq<Outcome>))
    requires |ss| > 0
    ensures |r.0| == |ss|
  {
    if ops == [] then (ss, [])
    else
      var (mid, outcomes) := ManagerRun(x, stdHash, ss, ops[..|ops| - 1]);
      var (after, outcome) := ManagerStep(x, stdHash, mid, ops[|ops| - 1]);
      (after, outcomes + [outcome])
  }

  ghost predicate AllowedStep(x: Fixed, stdHash: string -> nat, ss: seq<Shard>, op: ManagerOp)
    requires |ss| > 0
  {
    && (op.ReadMerged? ==> |op.orders| == |ss|)
    && forall i :: 0 <= i < |ss| ==>
         var o := OnShardOp(stdHash, |ss|, op, i); o.Some? ==> Allowed(x, ss[i], o.value)
  }

  ghost predicate AllowedManagerRun(x: Fixed, stdHash: string -> nat, ss: seq<Shard>, ops: seq<ManagerOp>)
    requires |ss| > 0
  {
    ops == [] ||
    (AllowedManagerRun(x, stdHash, ss, ops[..|ops| - 1])
     && AllowedStep(x, stdHash, ManagerRun(x, stdHash, ss, ops[..|ops| - 1]).0, ops[|ops| - 1]))
  }

  // ---------- the manager's run, shard by shard ----------

  function OpsOn(stdHash: string -> nat, shards: nat, ops: seq<ManagerOp>, i: nat): seq<Op>
    requires shards > 0
  {
    if ops == [] then []
    else
      var init, o := OpsOn(stdHash, shards, ops[..|ops| - 1], i), OnShardOp(stdHash, shards, ops[|ops| - 1], i);
      if o.Some? then init + [o.value] else init
  }

  ghost function EventsOn(x: Fixed, stdHash: string -> nat, shards: nat, cfg: Config, ops: seq<ManagerOp>, i: nat): seq<Event>
    requires shards > 0
  {
    Run(x, Fresh(cfg), OpsOn(stdHash, shards, ops, i)).1
  }

  function AllFresh(shards: nat, cfg: Config): (ss: seq<Shard>)
    ensures |ss| == shards
  {
    seq(shards, _ => Fresh(cfg))
  }

  lemma RunSnoc(x: Fixed, s: Shard, ops: seq<Op>, op: Op)
    ensures var (mid, events) := Run(x, s, ops);
            var (s', e) := Step(x, mid, op);
            Run(x, s, ops + [op]) == (s', events + [e])
            && (AllowedRun(x, s, ops + [op]) <==> AllowedRun(x, s, ops) && Allowed(x, mid, op))
  {
    hide Step, Allowed;
    assert (ops + [op])[..|ops|] == ops;
  }

  /** Every shard lives through its own run. */
  lemma {:induction false} RunOnShard(x: Fixed, stdHash: string -> nat, shards: nat, cfg: Config, ops: seq<ManagerOp>, i: nat)
    requires shards > 0 && i < shards && AllowedManagerRun(x, stdHash, AllFresh(shards, cfg), ops)
    ensures AllowedRun(x, Fresh(cfg), OpsOn(stdHash, shards, ops, i))
    ensures ManagerRun(x, stdHash, AllFresh(shards, cfg), ops).0[i] == Run(x, Fresh(cfg), OpsOn(stdHash, shards, ops, i)).0
  {
    if ops != [] {
      hide Step, Allowed, OnShardOp, ShardFor, Results, Merged, Truncated;
      var init, op := ops[..|ops| - 1], ops[|ops| - 1];
      RunOnShard(x, stdHash, shards, cfg, init, i);
      var o := OnShardOp(stdHash, shards, op, i);
      if o.Some? {
        RunSnoc(x, Fresh(cfg), OpsOn(stdHash, shards, init, i), o.value);
      }
    }
  }

  lemma StepOfShard(x: Fixed, stdHash: string -> nat, ss: seq<Shard>, op: ManagerOp, i: nat)
    requires i < |ss|
    ensures ManagerStep(x, stdHash, ss, op).0[i] == ShardAfter(x, ss[i], OnShardOp(stdHash, |ss|, op, i))
  {
  }

  /** In every reachable state of the manager an id lives only on the shard it routes to. */
  lemma {:induction false} RunIsRouted(x: Fixed, stdHash: string -> nat, shards: nat, cfg: Config, ops: seq<ManagerOp>)
    requires shards > 0
    ensures Routed(stdHash, ManagerRun(x, stdHash, AllFresh(shards, cfg), ops).0)
  {
    if ops != [] {
      hide ManagerStep, Routed;
      var init, op := ops[..|ops| - 1], ops[|ops| - 1];
      RunIsRouted(x, stdHash, shards, cfg, init);
      RoutedManagerStep(x, stdHash, ManagerRun(x, stdHash, AllFresh(shards, cfg), init).0, op);
    }
  }

  lemma RoutedManagerStep(x: Fixed, stdHash: string -> nat, ss: seq<Shard>, op: ManagerOp)
    requires Routed(stdHash, ss)
    ensures Routed(stdHash, ManagerStep(x, stdHash, ss, op).0)
  {
    hide Step, ManagerStep;
    var after := ManagerStep(x, stdHash, ss, op).0;
    forall i, id | 0 <= i < |ss| && id in after[i].groups
      ensures ShardFor(stdHash, |ss|, id) == i
    {
      StepOfShard(x, stdHash, ss, op, i);
      var o := OnShardOp(stdHash, |ss|, op, i);
      if o.Some? {
        StepIds(x, ss[i], o.value, id);
      }
    }
  }

  // ---------- a group in a merged delivery ----------

  function CountFor(groups: seq<Group>, id: string): nat {
    if groups == [] then 0 else CountFor(groups[1..], id) + if groups[0].instanceId == id then 1 else 0
  }

  lemma {:induction false} CountAppend(a: seq<Group>, b: seq<Group>, id: string)
    ensures CountFor(a + b, id) == CountFor(a, id) + CountFor(b, id)
    ensures GroupFor(a + b, id) == if CountFor(a, id) == 0 then GroupFor(b, id) else GroupFor(a, id)
  {
    if a == [] {
      assert a + b == b;
    } else {
      assert (a + b)[0] == a[0] && (a + b)[1..] == a[1..] + b;
      CountAppend(a[1..], b, id);
    }
  }

  lemma {:induction false} CountNone(groups: seq<Group>, id: string)
    ensures CountFor(groups, id) == 0 ==> GroupFor(groups, id) == []
  {
    if groups != [] {
      CountNone(groups[1..], id);
    }
  }

  lemma {:induction false} CountOnce(groups: seq<Group>, id: string)
    ensures OncePerId(groups) ==> CountFor(groups, id) <= 1
    ensures CountFor(groups, id) == 0 <==> !Delivers(groups, id)
  {
    if groups != [] {
      var rest := groups[1..];
      assert forall i :: 0 <= i < |rest| ==> rest[i] == groups[i + 1];
      CountOnce(rest, id);
      if OncePerId(groups) && groups[0].instanceId == id {
        assert !Delivers(rest, id);
      }
      if Delivers(groups, id) && groups[0].instanceId != id {
        var i :| 0 <= i < |groups| && groups[i].instanceId == id;
        assert rest[i - 1].instanceId == id;
      }
      if Delivers(rest, id) {
        var i :| 0 <= i < |rest| && rest[i].instanceId == id;
        assert groups[i + 1].instanceId == id;
      }
    }
  }

  /** Cutting a delivery that carries the id at most once cuts what it carries. */
  lemma CutFor(merged: seq<Group>, k: nat, id: string)
    requires k <= |merged| && CountFor(merged, id) <= 1
    ensures multiset(GroupFor(merged, id)) == multiset(GroupFor(merged[..k], id)) + multiset(GroupFor(merged[k..], id))
  {
    hide CountFor, GroupFor;
    assert merged == merged[..k] + merged[k..];
    CountAppend(merged[..k], merged[k..], id);
    CountNone(merged[..k], id);
    CountNone(merged[k..], id);
  }

  lemma {:induction false} MergedFor(results: seq<seq<Group>>, k: nat, sid: nat, id: string)
    requires k <= |results| && sid < |results|
    requires forall i :: 0 <= i < |results| && i != sid ==> CountFor(results[i], id) == 0
    ensures CountFor(Merged(results, k), id) == if sid < k then CountFor(results[sid], id) else 0
    ensures GroupFor(Merged(results, k), id) == if sid < k then GroupFor(results[sid], id) else []
  {
    hide CountFor, GroupFor, Merged;
    MergedStart(results, id);
    if k > 0 {
      MergedFor(results, k - 1, sid, id);
      MergedSnoc(results, k);
      CountAppend(Merged(results, k - 1), results[k - 1], id);
      CountNone(results[k - 1], id);
      CountNone(results[sid], id);
    }
  }

  lemma MergedStart(results: seq<seq<Group>>, id: string)
    ensures CountFor(Merged(results, 0), id) == 0 && GroupFor(Merged(results, 0), id) == []
  {
  }

  lemma MergedSnoc(results: seq<seq<Group>>, k: nat)
    requires 0 < k <= |results|
    ensures Merged(results, k) == Merged(results, k - 1) + results[k - 1]
  {
  }

  /** A read delivers only ids it holds, each once. */
  lemma ReadCounts(x: Fixed, cfg: Config, ops: seq<Op>, max: int, order: seq<string>, id: string)
    requires Faithful(x.pb) && AllowedRun(x, Fresh(cfg), ops) && Distinct(order)
    ensures var s := Run(x, Fresh(cfg), ops).0;
            var gs := Read(x, s, max, order).1;
            CountFor(gs, id) <= 1 && (id !in s.groups ==> CountFor(gs, id) == 0)
  {
    var s := Run(x, Fresh(cfg), ops).0;
    var gs := Read(x, s, max, order).1;
    DeliveredIsHistory(x, cfg, ops, max, order);
    HeldIsHistory(x, cfg, ops, id);
    hide Run, Read, AllowedRun, CountFor, Pending;
    CountOnce(gs, id);
  }

  /** Only the id's own shard delivers the id, once. */
  lemma ResultCounts(x: Fixed, stdHash: string -> nat, shards: nat, cfg: Config, ops: seq<ManagerOp>, op: ManagerOp,
                     id: string, i: nat)
    requires Faithful(x.pb) && i < shards && AllowedManagerRun(x, stdHash, AllFresh(shards, cfg), ops) && op.ReadMerged?
    requires AllowedStep(x, stdHash, ManagerRun(x, stdHash, AllFresh(shards, cfg), ops).0, op)
    ensures |op.orders| == shards
    ensures var ss := ManagerRun(x, stdHash, AllFresh(shards, cfg), ops).0;
            var gs := Read(x, ss[i], op.max, op.orders[i]).1;
            CountFor(gs, id) <= 1 && (i != ShardFor(stdHash, shards, id) ==> CountFor(gs, id) == 0)
  {
    var ss := ManagerRun(x, stdHash, AllFresh(shards, cfg), ops).0;
    assert Allowed(x, ss[i], OnShardOp(stdHash, shards, op, i).value);
    hide ManagerRun, AllowedManagerRun, Read, CountFor, ShardFor, OpsOn, AllowedRun, Run;
    RunIsRouted(x, stdHash, shards, cfg, ops);
    RunOnShard(x, stdHash, shards, cfg, ops, i);
    ReadCounts(x, cfg, OpsOn(stdHash, shards, ops, i), op.max, op.orders[i], id);
  }

  /** What the id's own shard gives up is what the caller gets and what is cut off. */
  lemma MergedDelivery(x: Fixed, stdHash: string -> nat, shards: nat, cfg: Config, ops: seq<ManagerOp>, op: ManagerOp, id: string)
    requires Faithful(x.pb) && shards > 0 && AllowedManagerRun(x, stdHash, AllFresh(shards, cfg), ops) && op.ReadMerged?
    requires AllowedStep(x, stdHash, ManagerRun(x, stdHash, AllFresh(shards, cfg), ops).0, op)
    ensures |op.orders| == shards
    ensures var ss, sid := ManagerRun(x, stdHash, AllFresh(shards, cfg), ops).0, ShardFor(stdHash, shards, id);
            var outcome := ManagerStep(x, stdHash, ss, op).1;
            multiset(GroupFor(Read(x, ss[sid], op.max, op.orders[sid]).1, id))
            == multiset(GroupFor(outcome.groups, id)) + multiset(GroupFor(outcome.cutOff, id))
  {
    hide ManagerRun, AllowedManagerRun, AllowedStep, Read, CountFor, GroupFor, ShardFor, AllFresh, Merged, OnShardOp, ShardAfter;
    var ss, sid := ManagerRun(x, stdHash, AllFresh(shards, cfg), ops).0, ShardFor(stdHash, shards, id);
    var results := Results(x, ss, op.max, op.orders);
    forall i | 0 <= i < shards
      ensures |op.orders| == shards && CountFor(results[i], id) <= 1 && (i != sid ==> CountFor(results[i], id) == 0)
    {
      ResultCounts(x, stdHash, shards, cfg, ops, op, id, i);
    }
    ResultCounts(x, stdHash, shards, cfg, ops, op, id, sid);
    MergedFor(results, shards, sid, id);
    var merged := Merged(results, shards);
    TruncatedPrefix(merged, op.max);
    CutFor(merged, |Truncated(merged, op.max)|, id);
  }

  lemma TruncatedPrefix(merged: seq<Group>, max: int)
    ensures Truncated(merged, max) <= merged && Truncated(merged, max) == merged[..|Truncated(merged, max)|]
  {
  }

  // ---------- conservation ----------

  function StoredIn(outcomes: seq<Outcome>, id: string): seq<Trajectory> {
    if outcomes == [] then []
    else
      var init := StoredIn(outcomes[..|outcomes| - 1], id);
      match outcomes[|outcomes| - 1]
      case Answered(t, _, stored) => if stored && t.instanceId == id then init + [t] else init
      case _ => init
  }

  /** What callers got of an id, and what merged reads cut off. */
  function ReturnedFor(outcomes: seq<Outcome>, id: string): multiset<Trajectory> {
    if outcomes == [] then multiset{}
    else
      ReturnedFor(outcomes[..|outcomes| - 1], id)
      + match outcomes[|outcomes| - 1]
        case Returned(groups, _) => multiset(GroupFor(groups, id))
        case _ => multiset{}
  }

  function CutOffFor(outcomes: seq<Outcome>, id: string): multiset<Trajectory> {
    if outcomes == [] then multiset{}
    else
      CutOffFor(outcomes[..|outcomes| - 1], id)
      + match outcomes[|outcomes| - 1]
        case Returned(_, cutOff) => multiset(GroupFor(cutOff, id))
        case _ => multiset{}
  }

  /** What the id's shard held whenever the id was deleted, or everything was reset. */
  ghost function DiscardedFor(x: Fixed, stdHash: string -> nat, ss: seq<Shard>, ops: seq<ManagerOp>, id: string, fate: Fate)
    : seq<Trajectory>
    requires |ss| > 0
  {
    if ops == [] then []
    else
      var init, op := ops[..|ops| - 1], ops[|ops| - 1];
      DiscardedFor(x, stdHash, ss, init, id, fate)
      + DiscardedBy(op, HeldFor(View(x.pb, ManagerRun(x, stdHash, ss, init).0[ShardFor(stdHash, |ss|, id)]), id), id, fate)
  }

  function DiscardedBy(op: ManagerOp, held: seq<Trajectory>, id: string, fate: Fate): seq<Trajectory> {
    if (fate == ByDelete && op == DeleteOne(id)) || (fate == ByReset && op == ResetAll) then held else []
  }

  /** The manager's outcomes and the events on the id's own shard tell the same story. */
  ghost predicate SameStory(outcomes: seq<Outcome>, events: seq<Event>, deleted: seq<Trajectory>, reset: seq<Trajectory>,
                            id: string) {
    var ds := Departures(events, id);
    && StoredIn(outcomes, id) == StoredFor(events, id)
    && multiset(GoneBy(ds, ToReader)) == ReturnedFor(outcomes, id) + CutOffFor(outcomes, id)
    && GoneBy(ds, ByDelete) == deleted && GoneBy(ds, ByReset) == reset
  }

  /** What one operation adds to the story. */
  ghost predicate Tells(outcome: Outcome, events: seq<Event>, e: Event, op: ManagerOp, id: string) {
    && (e.Wrote? && e.stored && e.t.instanceId == id <==> outcome.Answered? && outcome.stored && outcome.t.instanceId == id)
    && (e.Wrote? && outcome.Answered? ==> e.t == outcome.t)
    && multiset(LeftBy(events, e, id, ToReader))
       == (if outcome.Returned? then multiset(GroupFor(outcome.groups, id)) + multiset(GroupFor(outcome.cutOff, id))
           else multiset{})
    && (forall fate :: fate != ToReader ==> LeftBy(events, e, id, fate) == DiscardedBy(op, Pending(events, id), id, fate))
  }

  lemma FourOf<T>(a: multiset<T>, b: multiset<T>, c: multiset<T>, d: multiset<T>)
    ensures a + b + (c + d) == a + c + (b + d) && a + multiset{} == a
  {
  }

  lemma OutcomeSnoc(outcomes: seq<Outcome>, outcome: Outcome, id: string)
    ensures StoredIn(outcomes + [outcome], id)
            == if outcome.Answered? && outcome.stored && outcome.t.instanceId == id then StoredIn(outcomes, id) + [outcome.t]
               else StoredIn(outcomes, id)
    ensures ReturnedFor(outcomes + [outcome], id)
            == ReturnedFor(outcomes, id) + if outcome.Returned? then multiset(GroupFor(outcome.groups, id)) else multiset{}
    ensures CutOffFor(outcomes + [outcome], id)
            == CutOffFor(outcomes, id) + if outcome.Returned? then multiset(GroupFor(outcome.cutOff, id)) else multiset{}
  {
    hide GroupFor;
    assert (outcomes + [outcome])[..|outcomes|] == outcomes;
  }

  lemma StoredSnoc(events: seq<Event>, e: Event, id: string)
    ensures StoredFor(events + [e], id)
            == if e.Wrote? && e.stored && e.t.instanceId == id then StoredFor(events, id) + [e.t] else StoredFor(events, id)
  {
    assert (events + [e])[..|events|] == events;
  }

  lemma StoryGoesOn(outcomes: seq<Outcome>, outcome: Outcome, events: seq<Event>, e: Event,
                    deleted: seq<Trajectory>, reset: seq<Trajectory>, op: ManagerOp, id: string)
    requires SameStory(outcomes, events, deleted, reset, id) && Tells(outcome, events, e, op, id)
    ensures SameStory(outcomes + [outcome], events + [e], deleted + DiscardedBy(op, Pending(events, id), id, ByDelete),
                      reset + DiscardedBy(op, Pending(events, id), id, ByReset), id)
  {
    hide GroupFor, Departures, GoneBy, LeftBy, DiscardedBy, StoredIn, StoredFor, ReturnedFor, CutOffFor, Pending;
    OutcomeSnoc(outcomes, outcome, id);
    StoredSnoc(events, e, id);
    DepartureSnoc(events, e, id, ToReader);
    DepartureSnoc(events, e, id, ByDelete);
    DepartureSnoc(events, e, id, ByReset);
    var (a, b) := (ReturnedFor(outcomes, id), CutOffFor(outcomes, id));
    if outcome.Returned? {
      FourOf(a, b, multiset(GroupFor(outcome.groups, id)), multiset(GroupFor(outcome.cutOff, id)));
    } else {
      FourOf(a, multiset{}, multiset{}, multiset{});
      FourOf(b, multiset{}, multiset{}, multiset{});
      FourOf(a + b, multiset{}, multiset{}, multiset{});
    }
  }

  lemma StoryPauses(outcomes: seq<Outcome>, outcome: Outcome, events: seq<Event>,
                    deleted: seq<Trajectory>, reset: seq<Trajectory>, op: ManagerOp, id: string)
    requires SameStory(outcomes, events, deleted, reset, id)
    requires !outcome.Returned? && (outcome.Answered? ==> outcome.t.instanceId != id) && op != DeleteOne(id) && op != ResetAll
    ensures SameStory(outcomes + [outcome], events, deleted + DiscardedBy(op, Pending(events, id), id, ByDelete),
                      reset + DiscardedBy(op, Pending(events, id), id, ByReset), id)
  {
    hide GroupFor, Departures, GoneBy, StoredIn, StoredFor, ReturnedFor, CutOffFor, Pending;
    OutcomeSnoc(outcomes, outcome, id);
    var (a, b) := (ReturnedFor(outcomes, id), CutOffFor(outcomes, id));
    FourOf(a, multiset{}, multiset{}, multiset{});
    FourOf(b, multiset{}, multiset{}, multiset{});
    assert deleted + [] == deleted && reset + [] == reset;
  }

  /** The id's own shard shows what the manager shows of the id. */
  lemma ShardTells(x: Fixed, stdHash: string -> nat, shards: nat, cfg: Config, ops: seq<ManagerOp>, op: ManagerOp, id: string)
    requires Faithful(x.pb) && shards > 0 && AllowedManagerRun(x, stdHash, AllFresh(shards, cfg), ops)
    requires AllowedStep(x, stdHash, ManagerRun(x, stdHash, AllFresh(shards, cfg), ops).0, op)
    ensures var ss, sid := ManagerRun(x, stdHash, AllFresh(shards, cfg), ops).0, ShardFor(stdHash, shards, id);
            var outcome, o := ManagerStep(x, stdHash, ss, op).1, OnShardOp(stdHash, shards, op, sid);
            && (o.None? ==> !outcome.Returned? && (outcome.Answered? ==> outcome.t.instanceId != id)
                            && op != DeleteOne(id) && op != ResetAll)
            && (o.Some? ==> Tells(outcome, EventsOn(x, stdHash, shards, cfg, ops, sid), Step(x, ss[sid], o.value).1, op, id))
  {
    hide ManagerRun, AllowedManagerRun, AllowedStep, GroupFor, ShardFor, Write, Read, CheckTimeouts, EventsOn, Merged, Truncated,
      Results, Stores, Pending;
    if op.ReadMerged? {
      MergedDelivery(x, stdHash, shards, cfg, ops, op, id);
    }
  }

  ghost predicate StoryOf(x: Fixed, stdHash: string -> nat, shards: nat, cfg: Config, ops: seq<ManagerOp>, id: string)
    requires shards > 0
  {
    var ss := AllFresh(shards, cfg);
    SameStory(ManagerRun(x, stdHash, ss, ops).1, EventsOn(x, stdHash, shards, cfg, ops, ShardFor(stdHash, shards, id)),
              DiscardedFor(x, stdHash, ss, ops, id, ByDelete), DiscardedFor(x, stdHash, ss, ops, id, ByReset), id)
  }

  lemma RunOneMore(x: Fixed, stdHash: string -> nat, ss: seq<Shard>, ops: seq<ManagerOp>, op: ManagerOp)
    requires |ss| > 0
    ensures var (mid, outcomes) := ManagerRun(x, stdHash, ss, ops);
            var (after, outcome) := ManagerStep(x, stdHash, mid, op);
            ManagerRun(x, stdHash, ss, ops + [op]) == (after, outcomes + [outcome])
    ensures AllowedManagerRun(x, stdHash, ss, ops + [op])
            <==> AllowedManagerRun(x, stdHash, ss, ops) && AllowedStep(x, stdHash, ManagerRun(x, stdHash, ss, ops).0, op)
  {
    hide ManagerStep, AllowedStep;
    assert (ops + [op])[..|ops|] == ops;
  }

  lemma OpsOneMore(stdHash: string -> nat, shards: nat, ops: seq<ManagerOp>, op: ManagerOp, i: nat)
    requires shards > 0
    ensures var o := OnShardOp(stdHash, shards, op, i);
            OpsOn(stdHash, shards, ops + [op], i)
            == if o.Some? then OpsOn(stdHash, shards, ops, i) + [o.value] else OpsOn(stdHash, shards, ops, i)
  {
    hide OnShardOp;
    assert (ops + [op])[..|ops|] == ops;
  }

  lemma EventsOneMore(x: Fixed, stdHash: string -> nat, shards: nat, cfg: Config, ops: seq<ManagerOp>, op: ManagerOp, i: nat)
    requires i < shards && AllowedManagerRun(x, stdHash, AllFresh(shards, cfg), ops)
    ensures var mid := ManagerRun(x, stdHash, AllFresh(shards, cfg), ops).0;
            var events, o := EventsOn(x, stdHash, shards, cfg, ops, i), OnShardOp(stdHash, shards, op, i);
            EventsOn(x, stdHash, shards, cfg, ops + [op], i)
            == if o.Some? then events + [Step(x, mid[i], o.value).1] else events
  {
    hide Step, Run, AllowedRun, OnShardOp, OpsOn, ManagerRun, AllowedManagerRun, AllFresh;
    RunOnShard(x, stdHash, shards, cfg, ops, i);
    OpsOneMore(stdHash, shards, ops, op, i);
    var o := OnShardOp(stdHash, shards, op, i);
    if o.Some? {
      RunSnoc(x, Fresh(cfg), OpsOn(stdHash, shards, ops, i), o.value);
    }
  }

  lemma HeldIsPending(x: Fixed, stdHash: string -> nat, shards: nat, cfg: Config, ops: seq<ManagerOp>, id: string)
    requires Faithful(x.pb) && shards > 0 && AllowedManagerRun(x, stdHash, AllFresh(shards, cfg), ops)
    ensures var sid := ShardFor(stdHash, shards, id);
            HeldFor(View(x.pb, ManagerRun(x, stdHash, AllFresh(shards, cfg), ops).0[sid]), id)
            == Pending(EventsOn(x, stdHash, shards, cfg, ops, sid), id)
  {
    hide Run, AllowedRun, OpsOn, ManagerRun, AllowedManagerRun, HeldFor, View, Pending, ShardFor;
    var sid := ShardFor(stdHash, shards, id);
    RunOnShard(x, stdHash, shards, cfg, ops, sid);
    HeldIsHistory(x, cfg, OpsOn(stdHash, shards, ops, sid), id);
  }

  lemma DiscardedOneMore(x: Fixed, stdHash: string -> nat, shards: nat, cfg: Config, ops: seq<ManagerOp>, op: ManagerOp,
                         id: string, fate: Fate)
    requires Faithful(x.pb) && shards > 0 && AllowedManagerRun(x, stdHash, AllFresh(shards, cfg), ops)
    ensures var events := EventsOn(x, stdHash, shards, cfg, ops, ShardFor(stdHash, shards, id));
            DiscardedFor(x, stdHash, AllFresh(shards, cfg), ops + [op], id, fate)
            == DiscardedFor(x, stdHash, AllFresh(shards, cfg), ops, id, fate) + DiscardedBy(op, Pending(events, id), id, fate)
  {
    assert (ops + [op])[..|ops|] == ops;
    hide ManagerRun, AllowedManagerRun, HeldFor, View, Pending, ShardFor, AllFresh, EventsOn, DiscardedBy;
    HeldIsPending(x, stdHash, shards, cfg, ops, id);
    AllFreshSize(shards, cfg);
  }

  lemma AllFreshSize(shards: nat, cfg: Config)
    ensures |AllFresh(shards, cfg)| == shards
  {
  }

  lemma {:induction false} StoryIsTold(x: Fixed, stdHash: string -> nat, shards: nat, cfg: Config, ops: seq<ManagerOp>,
                                       id: string)
    requires Faithful(x.pb) && shards > 0 && AllowedManagerRun(x, stdHash, AllFresh(shards, cfg), ops)
    ensures StoryOf(x, stdHash, shards, cfg, ops, id)
  {
    hide AllowedManagerRun, AllowedStep, ManagerRun, ManagerStep, EventsOn, DiscardedFor, DiscardedBy, StoryOf, Step, Pending,
      OnShardOp, ShardFor, AllFresh, Faithful;
    if ops == [] {
      StoryStarts(x, stdHash, shards, cfg, id);
    } else {
      var init, op := ops[..|ops| - 1], ops[|ops| - 1];
      assert ops == init + [op];
      AllFreshSize(shards, cfg);
      RunOneMore(x, stdHash, AllFresh(shards, cfg), init, op);
      StoryIsTold(x, stdHash, shards, cfg, init, id);
      StoryOneMore(x, stdHash, shards, cfg, init, op, id);
    }
  }

  lemma StoryStarts(x: Fixed, stdHash: string -> nat, shards: nat, cfg: Config, id: string)
    requires shards > 0
    ensures StoryOf(x, stdHash, shards, cfg, [], id)
  {
  }

  lemma StoryOneMore(x: Fixed, stdHash: string -> nat, shards: nat, cfg: Config, ops: seq<ManagerOp>, op: ManagerOp, id: string)
    requires Faithful(x.pb) && shards > 0 && AllowedManagerRun(x, stdHash, AllFresh(shards, cfg), ops)
    requires AllowedStep(x, stdHash, ManagerRun(x, stdHash, AllFresh(shards, cfg), ops).0, op)
    requires StoryOf(x, stdHash, shards, cfg, ops, id)
    ensures StoryOf(x, stdHash, shards, cfg, ops + [op], id)
  {
    hide AllowedManagerRun, AllowedStep, ManagerRun, ManagerStep, EventsOn, DiscardedFor, DiscardedBy, SameStory, Tells, Step,
      Pending, OnShardOp, ShardFor, AllFresh, Faithful;
    var ss, sid := AllFresh(shards, cfg), ShardFor(stdHash, shards, id);
    RunOneMore(x, stdHash, ss, ops, op);
    EventsOneMore(x, stdHash, shards, cfg, ops, op, sid);
    DiscardedOneMore(x, stdHash, shards, cfg, ops, op, id, ByDelete);
    DiscardedOneMore(x, stdHash, shards, cfg, ops, op, id, ByReset);
    ShardTells(x, stdHash, shards, cfg, ops, op, id);
    var (mid, outcomes) := ManagerRun(x, stdHash, ss, ops);
    var outcome, o := ManagerStep(x, stdHash, mid, op).1, OnShardOp(stdHash, shards, op, sid);
    var events := EventsOn(x, stdHash, shards, cfg, ops, sid);
    var deleted, reset := DiscardedFor(x, stdHash, ss, ops, id, ByDelete), DiscardedFor(x, stdHash, ss, ops, id, ByReset);
    if o.Some? {
      StoryGoesOn(outcomes, outcome, events, Step(x, mid[sid], o.value).1, deleted, reset, op, id);
    } else {
      StoryPauses(outcomes, outcome, events, deleted, reset, op, id);
    }
  }

  /** Conservation over runs of the manager: every write stored for an id is in exactly one of what
      callers got, what merged reads cut off, what deletes and resets discarded, and what the id's own shard
      holds; no other shard holds the id. */
  lemma ManagerConservation(x: Fixed, stdHash: string -> nat, shards: nat, cfg: Config, ops: seq<ManagerOp>, id: string)
    requires Faithful(x.pb) && shards > 0 && AllowedManagerRun(x, stdHash, AllFresh(shards, cfg), ops)
    ensures var ss, sid := AllFresh(shards, cfg), ShardFor(stdHash, shards, id);
            var (after, outcomes) := ManagerRun(x, stdHash, ss, ops);
            && multiset(StoredIn(outcomes, id))
               == ReturnedFor(outcomes, id) + CutOffFor(outcomes, id)
                  + multiset(DiscardedFor(x, stdHash, ss, ops, id, ByDelete))
                  + multiset(DiscardedFor(x, stdHash, ss, ops, id, ByReset))
                  + multiset(HeldFor(View(x.pb, after[sid]), id))
            && forall i :: 0 <= i < shards && id in after[i].groups ==> i == sid
  {
    var sid := ShardFor(stdHash, shards, id);
    StoryIsTold(x, stdHash, shards, cfg, ops, id);
    RunIsRouted(x, stdHash, shards, cfg, ops);
    RunOnShard(x, stdHash, shards, cfg, ops, sid);
    Conservation(x, cfg, OpsOn(stdHash, shards, ops, sid), id);
    hide AllowedManagerRun, ManagerRun, DiscardedFor, Departures, GoneBy, StoredFor, StoredIn, ReturnedFor, CutOffFor, Run,
      AllowedRun, HeldFor, View, OpsOn, Inv, Faithful, ShardFor, AllFresh;
  }

  // ---------- the counters over runs ----------

  /** Stored writes since the last reset. */
  function StoredCount(ops: seq<ManagerOp>, outcomes: seq<Outcome>): nat
    requires |ops| == |outcomes|
  {
    if ops == [] then 0
    else
      var n := |ops| - 1;
      if ops[n] == ResetAll then 0
      else StoredCount(ops[..n], outcomes[..n]) + if outcomes[n].Answered? && outcomes[n].stored then 1 else 0
  }

  /** Trajectories given up by merged reads since the last reset, cut off or not. */
  function GivenUpCount(ops: seq<ManagerOp>, outcomes: seq<Outcome>): nat
    requires |ops| == |outcomes|
  {
    if ops == [] then 0
    else
      var n := |ops| - 1;
      if ops[n] == ResetAll then 0
      else
        GivenUpCount(ops[..n], outcomes[..n])
        + if outcomes[n].Returned? then SizeOf(outcomes[n].groups) + SizeOf(outcomes[n].cutOff) else 0
  }

  lemma StepCounters(x: Fixed, s: Shard, op: Op)
    ensures var (s', e) := Step(x, s, op);
            && s'.total == (if op.DoReset? then 0 else s.total + if e.Wrote? && e.stored then 1 else 0)
            && s'.consumed == (if op.DoReset? then 0 else s.consumed + if e.Delivered? then SizeOf(e.groups) else 0)
  {
    hide TrySpill, SpillGroups, RemoveAll, SizeOf, ShardModel.Delivered;
    match op
    case DoWrite(t, now, c) => TrySpillFrame(x, Store(Mark(x, s, t.uid), t, now), c);
    case DoRead(max, order) => RemoveAllFrame(s, Pick(s.groups, order, max, 0));
    case DoSpill(c) => TrySpillFrame(x, s, c);
    case DoSpillOf(ids, names) =>
      if |ids| == |names| {
        SpillGroupsFrame(x.pb, s, ids, names);
      }
    case _ =>
  }

  lemma {:induction false} MergedTotal(results: seq<seq<Group>>, sizes: seq<int>, k: nat)
    requires k <= |results| == |sizes| && forall i :: 0 <= i < |results| ==> sizes[i] == SizeOf(results[i])
    ensures SizeOf(Merged(results, k)) == SumSeq(sizes[..k])
  {
    hide SizeOf;
    if k > 0 {
      MergedTotal(results, sizes, k - 1);
      SizeAppend(Merged(results, k - 1), results[k - 1]);
      PrefixMore(sizes, k - 1);
    } else {
      NoSize();
    }
  }

  lemma NoSize()
    ensures SizeOf([]) == 0
  {
  }

  /** What the shards of a merged read give up is what is returned and what is cut off. */
  lemma GivenUp(x: Fixed, ss: seq<Shard>, max: int, orders: seq<seq<string>>, sizes: seq<int>)
    requires |sizes| == |ss| && forall i :: 0 <= i < |ss| ==> sizes[i] == SizeOf(Results(x, ss, max, orders)[i])
    ensures var merged := Merged(Results(x, ss, max, orders), |ss|);
            var returned := Truncated(merged, max);
            SumSeq(sizes) == SizeOf(returned) + SizeOf(merged[|returned|..])
  {
    hide Results, SizeOf, Truncated;
    var merged := Merged(Results(x, ss, max, orders), |ss|);
    MergedTotal(Results(x, ss, max, orders), sizes, |ss|);
    hide Merged;
    WholeSeq(sizes);
    TruncatedPrefix(merged, max);
    var n := |Truncated(merged, max)|;
    assert merged == merged[..n] + merged[n..];
    SizeAppend(merged[..n], merged[n..]);
  }

  lemma StepTotals(x: Fixed, stdHash: string -> nat, ss: seq<Shard>, op: ManagerOp)
    requires |ss| > 0
    ensures var (after, outcome) := ManagerStep(x, stdHash, ss, op);
            SumSeq(TotalsOf(after))
            == if op == ResetAll then 0
               else SumSeq(TotalsOf(ss)) + if outcome.Answered? && outcome.stored then 1 else 0
  {
    hide Step, SumSeq, Write, Read, Results, Merged, Truncated, ShardFor;
    var after := ManagerStep(x, stdHash, ss, op).0;
    forall i | 0 <= i < |ss|
      ensures after[i].total
              == match OnShardOp(stdHash, |ss|, op, i)
                 case None => ss[i].total
                 case Some(o) =>
                   var e := Step(x, ss[i], o).1;
                   if o.DoReset? then 0 else ss[i].total + if e.Wrote? && e.stored then 1 else 0
    {
      StepOfShard(x, stdHash, ss, op, i);
      if OnShardOp(stdHash, |ss|, op, i).Some? {
        StepCounters(x, ss[i], OnShardOp(stdHash, |ss|, op, i).value);
      }
    }
    match op
    case WriteOne(t, env) =>
      var sid := ShardFor(stdHash, |ss|, t.instanceId);
      StepEvent(x, ss[sid], DoWrite(t, env.now, env.c));
      var v := ss[sid].total + if Stores(ss[sid], t) then 1 else 0;
      SumSeqUpdate(TotalsOf(ss), sid, v);
      assert TotalsOf(after) == TotalsOf(ss)[sid := v];
    case ResetAll => SumSeqZero(TotalsOf(after));
    case _ =>
      Silence(x, stdHash, ss, op);
      assert TotalsOf(after) == TotalsOf(ss);
  }

  lemma Silence(x: Fixed, stdHash: string -> nat, ss: seq<Shard>, op: ManagerOp)
    requires |ss| > 0 && !op.WriteOne? && !op.ResetAll?
    ensures forall i :: 0 <= i < |ss| && OnShardOp(stdHash, |ss|, op, i).Some? ==>
      var o := OnShardOp(stdHash, |ss|, op, i).value; !Step(x, ss[i], o).1.Wrote? && !o.DoReset?
  {
  }

  lemma StepConsumed(x: Fixed, stdHash: string -> nat, ss: seq<Shard>, op: ManagerOp)
    requires |ss| > 0
    ensures var (after, outcome) := ManagerStep(x, stdHash, ss, op);
            SumSeq(ConsumedOf(after))
            == if op == ResetAll then 0
               else SumSeq(ConsumedOf(ss))
                    + if outcome.Returned? then SizeOf(outcome.groups) + SizeOf(outcome.cutOff) else 0
  {
    hide Step, SumSeq, Write, Read, Merged, Truncated, ShardFor, SizeOf;
    var after := ManagerStep(x, stdHash, ss, op).0;
    forall i | 0 <= i < |ss|
      ensures after[i].consumed
              == match OnShardOp(stdHash, |ss|, op, i)
                 case None => ss[i].consumed
                 case Some(o) =>
                   var e := Step(x, ss[i], o).1;
                   if o.DoReset? then 0 else ss[i].consumed + if e.Delivered? then SizeOf(e.groups) else 0
    {
      StepOfShard(x, stdHash, ss, op, i);
      if OnShardOp(stdHash, |ss|, op, i).Some? {
        StepCounters(x, ss[i], OnShardOp(stdHash, |ss|, op, i).value);
      }
    }
    match op
    case ReadMerged(max, orders) =>
      DeliversResults(x, stdHash, ss, max, orders);
      var sizes := seq(|ss|, i requires 0 <= i < |ss| => SizeOf(Results(x, ss, max, orders)[i]));
      GivenUp(x, ss, max, orders, sizes);
      SumSeqPlus(ConsumedOf(ss), sizes, ConsumedOf(after));
    case ResetAll => SumSeqZero(ConsumedOf(after));
    case _ =>
      NoDelivery(x, stdHash, ss, op);
      assert ConsumedOf(after) == ConsumedOf(ss);
  }

  lemma DeliversResults(x: Fixed, stdHash: string -> nat, ss: seq<Shard>, max: int, orders: seq<seq<string>>)
    requires |ss| > 0
    ensures forall i :: 0 <= i < |ss| ==>
      Step(x, ss[i], OnShardOp(stdHash, |ss|, ReadMerged(max, orders), i).value).1 == Delivered(Results(x, ss, max, orders)[i])
  {
  }

  lemma NoDelivery(x: Fixed, stdHash: string -> nat, ss: seq<Shard>, op: ManagerOp)
    requires |ss| > 0 && !op.ReadMerged? && !op.ResetAll?
    ensures forall i :: 0 <= i < |ss| && OnShardOp(stdHash, |ss|, op, i).Some? ==>
      var o := OnShardOp(stdHash, |ss|, op, i).value; !Step(x, ss[i], o).1.Delivered? && !o.DoReset?
  {
  }

  lemma RunSize(x: Fixed, stdHash: string -> nat, ss: seq<Shard>, ops: seq<ManagerOp>)
    requires |ss| > 0
    ensures |ManagerRun(x, stdHash, ss, ops).1| == |ops|
    decreases |ops|
  {
    hide ManagerStep;
    if ops != [] {
      RunSize(x, stdHash, ss, ops[..|ops| - 1]);
    }
  }

  lemma CountsSnoc(ops: seq<ManagerOp>, outcomes: seq<Outcome>, op: ManagerOp, outcome: Outcome)
    requires |ops| == |outcomes|
    ensures StoredCount(ops + [op], outcomes + [outcome])
            == if op == ResetAll then 0
               else StoredCount(ops, outcomes) + if outcome.Answered? && outcome.stored then 1 else 0
    ensures GivenUpCount(ops + [op], outcomes + [outcome])
            == if op == ResetAll then 0
               else GivenUpCount(ops, outcomes)
                    + if outcome.Returned? then SizeOf(outcome.groups) + SizeOf(outcome.cutOff) else 0
  {
    hide SizeOf;
    assert (ops + [op])[..|ops|] == ops && (outcomes + [outcome])[..|ops|] == outcomes;
  }

  /** Over any run of the manager the total reported by a status, summed over the shards, is the number of
      writes stored since the last reset, and the consumed number that of the trajectories reads gave up. */
  lemma {:induction false} TotalsAreHistory(x: Fixed, stdHash: string -> nat, shards: nat, cfg: Config, ops: seq<ManagerOp>)
    requires shards > 0
    ensures var (after, outcomes) := ManagerRun(x, stdHash, AllFresh(shards, cfg), ops);
            && |outcomes| == |ops|
            && SumSeq(TotalsOf(after)) == StoredCount(ops, outcomes)
            && SumSeq(ConsumedOf(after)) == GivenUpCount(ops, outcomes)
  {
    hide ManagerStep, StoredCount, GivenUpCount, SumSeq, TotalsOf, ConsumedOf, AllFresh, AllowedManagerRun, ManagerRun;
    AllFreshSize(shards, cfg);
    RunSize(x, stdHash, AllFresh(shards, cfg), ops);
    if ops == [] {
      NoTotals(x, stdHash, shards, cfg);
    } else {
      var init, op := ops[..|ops| - 1], ops[|ops| - 1];
      assert ops == init + [op];
      TotalsAreHistory(x, stdHash, shards, cfg, init);
      RunOneMore(x, stdHash, AllFresh(shards, cfg), init, op);
      var (mid, outcomes) := ManagerRun(x, stdHash, AllFresh(shards, cfg), init);
      StepTotals(x, stdHash, mid, op);
      StepConsumed(x, stdHash, mid, op);
      CountsSnoc(init, outcomes, op, ManagerStep(x, stdHash, mid, op).1);
    }
  }

  lemma NoTotals(x: Fixed, stdHash: string -> nat, shards: nat, cfg: Config)
    requires shards > 0
    ensures var (after, outcomes) := ManagerRun(x, stdHash, AllFresh(shards, cfg), []);
            && SumSeq(TotalsOf(after)) == StoredCount([], []) && SumSeq(ConsumedOf(after)) == GivenUpCount([], [])
            && outcomes == []
  {
    SumSeqZero(TotalsOf(AllFresh(shards, cfg)));
    SumSeqZero(ConsumedOf(AllFresh(shards, cfg)));
  }
}
