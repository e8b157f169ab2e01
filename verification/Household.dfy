/** One household as a step machine: what a single arrival does to the node registry, the
    reload pool, the pending causes, the activity log and the listeners. The class in
    Coordinator.dfy does the same in place and is proved to agree with `Step`. */
module Household {
  import opened Json
  import opened Models

  /** Identity of a lock event, for de-duplication. */
  datatype Key = Key(stamp: Option<string>, current: int, source: LockSource)

  function KeyOf(c: LockChange): Key {
    Key(c.timestamp, c.current, c.source)
  }

  datatype NodeRecord = NodeRecord(
    name: string, role: string, state: string, generation: Option<int>, firmware: Option<string>,
    online: bool, lwtOnline: Option<bool>, lastSeen: Option<real>, health: Option<NodeHealth>,
    security: Option<SecurityState>, backupStatus: Option<BackupOutcome>,
    backup: Option<BackupRecord>, lastAuth: Option<LastAuth>, guest: Option<GuestState>,
    lockChange: Option<LockChange>, changeIsFresh: bool, attributed: Option<Key>)
  {
    /** An event decides the lock state until the next snapshot does. */
    function LockState(): LockState {
      if changeIsFresh && lockChange.Some? then LockStateOf(lockChange.value.current)
      else if health.None? || health.value.lockCurrent.None? then Unknown
      else LockStateOf(health.value.lockCurrent.value)
    }

    predicate Available() {
      online && lwtOnline != Some(false)
    }
  }

  /** A node known by its id alone. */
  function NewNode(id: string): NodeRecord {
    NodeRecord(id, "other", "UNKNOWN", None, None, false, None, None, None, None, None, None, None,
               None, None, false, None)
  }

  datatype Actor = Person(name: string) | Mechanism(source: LockSource)

  /** Which of the two attribution paths found a cause. */
  datatype Via = Event | Fallback

  /** A cause about to be written to the activity log. */
  datatype Cause = Cause(
    node: string, name: string, state: LockState, actor: Actor, source: LockSource,
    stamp: Option<string>, current: int, via: Via)

  /** A log entry: a cause and the context it shares with the state change. */
  datatype Entry = Entry(cause: Cause, context: nat)

  /** What the listeners see when they are notified after the update of node `about`. */
  datatype Notice = Notice(about: string, ids: set<string>, pending: map<string, nat>)

  datatype House = House(
    nodes: map<string, NodeRecord>, pool: map<string, NodeRecord>, pending: map<string, nat>,
    log: seq<Entry>, notices: seq<Notice>, contexts: nat)

  const EMPTY: House := House(map[], map[], map[], [], [], 0)

  /** A coordinator built over pooled state. */
  function Reattached(pool: map<string, NodeRecord>): House {
    House(pool, pool, map[], [], [], 0)
  }

  function NodeOf(s: House, n: string): NodeRecord {
    if n in s.nodes then s.nodes[n] else NewNode(n)
  }

  // ---- attribution ----

  /** 2001-09-09T00:00:00Z as epoch seconds. */
  const WALL_CLOCK_FLOOR: real := 999993600.0

  const LOCK_EVENT_MAX_AGE: real := 300.0

  /** An impossible date raises, and what raises is not announced. */
  predicate IsRecent(env: Env, stamp: Option<string>, now: real) {
    if stamp.None? then true
    else
      match env.parse(stamp.value)
      case NotADate => true
      case Impossible => false
      case Epoch(seconds) => seconds < WALL_CLOCK_FLOOR || now - seconds <= LOCK_EVENT_MAX_AGE
  }

  function ActorFor(node: NodeRecord, source: LockSource, stamp: Option<string>): Actor {
    if source == HomeKey && node.lastAuth.Some?
       && node.lastAuth.value.issuer.Some? && node.lastAuth.value.issuer.value != ""
       && node.lastAuth.value.timestamp.Some? && node.lastAuth.value.timestamp == stamp
    then Person(node.lastAuth.value.issuer.value)
    else Mechanism(source)
  }

  function CauseOf(id: string, node: NodeRecord, current: int, c: LockChange, via: Via): Cause {
    Cause(id, node.name, LockStateOf(current), ActorFor(node, c.source, c.timestamp), c.source,
          c.timestamp, current, via)
  }

  /** The event path: a device-initiated, recent event not already announced. */
  predicate EventAnnounces(env: Env, node: NodeRecord, c: LockChange, at: Moment) {
    DeviceInitiated(c.source) && node.attributed != Some(KeyOf(c)) && IsRecent(env, c.timestamp, at.now) && at.Decides()
  }

  /** The snapshot fallback: a change between two known readings that the latest event explains
      and that the event path has not already announced. */
  predicate FallbackAnnounces(node: NodeRecord, h: NodeHealth) {
    && node.health.Some? && node.health.value.lockCurrent.Some? && h.lockCurrent.Some?
    && h.lockCurrent != node.health.value.lockCurrent
    && node.lockChange.Some? && Some(node.lockChange.value.current) == h.lockCurrent
    && node.attributed != Some(KeyOf(node.lockChange.value))
    && DeviceInitiated(node.lockChange.value.source)
  }

  function CauseFor(env: Env, id: string, node: NodeRecord, r: Report, at: Moment): Option<Cause> {
    match r
    case Change(c) =>
      if EventAnnounces(env, node, c, at) then Some(CauseOf(id, node, c.current, c, Event)) else None
    case Snapshot(h) =>
      if FallbackAnnounces(node, h) && at.Decides()
      then Some(CauseOf(id, node, h.lockCurrent.value, node.lockChange.value, Fallback)) else None
    case _ => None
  }

  // ---- one step ----

  /** The node after an accepted report. */
  function Merge(env: Env, node: NodeRecord, r: Report, at: Moment): NodeRecord {
    match r
    case Online(up) => node.(online := up, lastSeen := Some(at.now))
    case Will(alive) => node.(lwtOnline := Some(alive), lastSeen := if alive then Some(at.now) else node.lastSeen)
    case Identity(st) =>
      node.(name := st.name, role := st.role, state := st.state,
            generation := if st.generation.Some? then st.generation else node.generation,
            firmware := if st.firmware.Some? then st.firmware else node.firmware)
    case Snapshot(h) => node.(health := Some(h), changeIsFresh := false)
    case Change(c) =>
      node.(lockChange := Some(c), changeIsFresh := true,
            attributed := if EventAnnounces(env, node, c, at) then Some(KeyOf(c)) else node.attributed)
    case SecurityWas(v) => node.(security := Some(v))
    case BackupWas(v) => node.(backupStatus := Some(v))
    case Backup(v) => node.(backup := Some(v))
    case Auth(v) => node.(lastAuth := Some(v))
    case Guest(v) => node.(guest := Some(v))
  }

  function Register(s: House, n: string): House {
    if n in s.nodes then s else s.(nodes := s.nodes[n := NewNode(n)])
  }

  /** Attach a cause to the update: a new context, and a log entry when the logbook takes one. */
  function Attribute(s: House, cause: Option<Cause>, logs: bool): House {
    if cause.None? then s
    else
      s.(pending := s.pending[cause.value.node := s.contexts],
         log := if logs then s.log + [Entry(cause.value, s.contexts)] else s.log,
         contexts := s.contexts + 1)
  }

  /** Pool the registry, notify the listeners, drop the causes. */
  function Publish(s: House, about: string): House {
    s.(pool := s.nodes, notices := s.notices + [Notice(about, s.nodes.Keys, s.pending)], pending := map[])
  }

  function Update(env: Env, s: House, n: string, r: Report, at: Moment): House {
    if r.Will? && n !in s.nodes then s
    else
      Attribute(s.(nodes := s.nodes[n := Merge(env, NodeOf(s, n), r, at)]),
                CauseFor(env, n, NodeOf(s, n), r, at), at.Logs())
  }

  function Step(env: Env, s: House, a: Arrival): House {
    match a
    case Ignored => s
    case Refused(None) => s
    case Refused(Some(n)) => Register(s, n)
    case Accepted(n, r, at) => Publish(Update(env, s, n, r, at), n)
  }

  function Run(env: Env, s: House, tape: seq<Arrival>): House {
    if tape == [] then s
    else Step(env, Run(env, s, tape[..|tape| - 1]), tape[|tape| - 1])
  }

  function ReadAll(env: Env, ds: seq<Delivery>): (tape: seq<Arrival>)
    ensures |tape| == |ds|
    ensures forall i :: 0 <= i < |ds| ==> tape[i] == Read(env, ds[i])
  {
    seq(|ds|, i requires 0 <= i < |ds| => Read(env, ds[i]))
  }

  /** Every delivery of a run, handled in order. */
  function HandleAll(env: Env, s: House, ds: seq<Delivery>): House {
    Run(env, s, ReadAll(env, ds))
  }

  predicate About(a: Arrival, n: string) {
    (a.Accepted? && a.node == n) || a == Refused(Some(n))
  }

  predicate Registers(a: Arrival, n: string) {
    a == Refused(Some(n)) || (a.Accepted? && a.node == n && !a.report.Will?)
  }

  /** An arrival that changes the record of node `n`. */
  predicate Touches(s: House, a: Arrival, n: string) {
    a.Accepted? && a.node == n && (a.report.Will? ==> n in s.nodes)
  }

  lemma StepNode(env: Env, s: House, a: Arrival, n: string)
    ensures NodeOf(Step(env, s, a), n)
         == if Touches(s, a, n) then Merge(env, NodeOf(s, n), a.report, a.at) else NodeOf(s, n)
    ensures n in Step(env, s, a).nodes <==> n in s.nodes || Registers(a, n)
  {
  }
}
