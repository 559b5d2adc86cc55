/** The queue without a disk: every instance id maps to one group. A sealed group is one
    that no longer takes writes; sealing is all that a spill means to a client. */
module PlainQueue {
  import opened Prelude
  import opened Trajectories
  import opened Lru
  import opened ShardModel

  datatype Held = Held(group: Group, created: nat, sealed: bool)

  datatype Queue = Queue(cfg: Config, held: map<string, Held>, total: int, consumed: int, lru: seq<string>)

  predicate Accepts(q: Queue, t: Trajectory) {
    && !(q.cfg.uidDedup && t.uid in q.lru)
    && !(t.instanceId in q.held && q.held[t.instanceId].sealed)
  }

  function Remember(max: nat, q: Queue, uid: string): Queue {
    if q.cfg.uidDedup then q.(lru := Touch(q.lru, uid, max)) else q
  }

  /** A write to a sealed group is acknowledged and stores nothing. */
  function Put(max: nat, q: Queue, t: Trajectory, now: nat): (Queue, bool) {
    var q' := Remember(max, q, t.uid);
    if q.cfg.uidDedup && t.uid in q.lru then (q', false)
    else if !Accepts(q, t) then (q', true)
    else
      var id := t.instanceId;
      var h := if id in q.held then q.held[id] else Held(Group(id, [], q.cfg.groupSize, false), now, false);
      (q'.(held := q.held[id := h.(group := Append(h.group, t))], total := q.total + 1), true)
  }

  function Seal(q: Queue, ids: set<string>): Queue {
    q.(held := map id | id in q.held ::
         if id in ids then q.held[id].(sealed := true) else q.held[id])
  }

  function Drop(q: Queue, ids: set<string>): Queue {
    q.(held := q.held - ids)
  }

  /** The group held for an id; an id that is not held has none. */
  function GroupIn(q: Queue, id: string): Group {
    if id in q.held then q.held[id].group else Group(id, [], 0, false)
  }

  function GroupsOf(q: Queue, ids: seq<string>): (gs: seq<Group>)
    ensures |gs| == |ids|
  {
    seq(|ids|, i requires 0 <= i < |ids| => GroupIn(q, ids[i]))
  }

  /** Deliver the named groups, in that order. */
  function Take(q: Queue, ids: seq<string>): (Queue, seq<Group>) {
    var gs := GroupsOf(q, ids);
    (Drop(q, set id | id in ids).(consumed := q.consumed + SizeOf(gs)), gs)
  }

  predicate TimedOut(q: Queue, h: Held, now: nat) {
    !h.group.complete && now - h.created >= q.cfg.timeoutSeconds * NANOS_PER_SECOND
  }

  function Timeouts(q: Queue, now: nat): Queue {
    q.(held := map id | id in q.held ::
         if TimedOut(q, q.held[id], now) then q.held[id].(group := q.held[id].group.(complete := true))
         else q.held[id])
  }

  /** Trajectories held. */
  ghost function HeldCount(q: Queue): int {
    Sum(map id | id in q.held :: |q.held[id].group.trajectories|)
  }

  function Empty(cfg: Config): Queue {
    Queue(cfg, map[], 0, 0, [])
  }
}
