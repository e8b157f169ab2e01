/** The coordinator in place: node objects updated field by field, a registry and a pool that
    share them, and the per-topic handlers. Each method is proved against the step machine. */
module Coordinator {
  import opened Json
  import opened Models
  import opened Household

  class Node {
    const id: string
    var name: string
    var role: string
    var state: string
    var generation: Option<int>
    var firmware: Option<string>
    var online: bool
    var lwtOnline: Option<bool>
    var lastSeen: Option<real>
    var health: Option<NodeHealth>
    var security: Option<SecurityState>
    var backupStatus: Option<BackupOutcome>
    var backup: Option<BackupRecord>
    var lastAuth: Option<LastAuth>
    var guest: Option<GuestState>
    var lockChange: Option<LockChange>
    var changeIsFresh: bool
    var attributed: Option<Key>

    constructor (id: string)
      ensures this.id == id && Record() == NewNode(id)
    {
      this.id, name, role, state := id, id, "other", "UNKNOWN";
      generation, firmware, online, lwtOnline, lastSeen := None, None, false, None, None;
      health, security, backupStatus, backup, lastAuth, guest := None, None, None, None, None, None;
      lockChange, changeIsFresh, attributed := None, false, None;
    }

    /** A node built from a state document alone. */
    constructor FromState(id: string, st: NodeState)
      ensures this.id == id && Record() == NewNode(id).(
        name := st.name, role := st.role, state := st.state, generation := st.generation, firmware := st.firmware)
    {
      this.id, name, role, state := id, st.name, st.role, st.state;
      generation, firmware, online, lwtOnline, lastSeen := st.generation, st.firmware, false, None, None;
      health, security, backupStatus, backup, lastAuth, guest := None, None, None, None, None, None;
      lockChange, changeIsFresh, attributed := None, false, None;
    }

    method SetStatus(up: bool, now: real)
      modifies this
      ensures Record() == old(Record()).(online := up, lastSeen := Some(now))
    {
      online := up;
      lastSeen := Some(now);
    }

    /** A stored snapshot outranks whatever event came before it. */
    method StoreSnapshot(h: NodeHealth)
      modifies this
      ensures Record() == old(Record()).(health := Some(h), changeIsFresh := false)
    {
      health := Some(h);
      changeIsFresh := false;
    }

    method StoreSecurity(value: SecurityState)
      modifies this`security
      ensures Record() == old(Record()).(security := Some(value))
    {
      security := Some(value);
    }

    method StoreBackupStatus(value: BackupOutcome)
      modifies this`backupStatus
      ensures Record() == old(Record()).(backupStatus := Some(value))
    {
      backupStatus := Some(value);
    }

    method StoreBackup(value: BackupRecord)
      modifies this`backup
      ensures Record() == old(Record()).(backup := Some(value))
    {
      backup := Some(value);
    }

    method StoreAuth(value: LastAuth)
      modifies this`lastAuth
      ensures Record() == old(Record()).(lastAuth := Some(value))
    {
      lastAuth := Some(value);
    }

    method StoreGuest(value: GuestState)
      modifies this`guest
      ensures Record() == old(Record()).(guest := Some(value))
    {
      guest := Some(value);
    }

    method StoreEvent(c: LockChange)
      modifies this
      ensures Record() == old(Record()).(lockChange := Some(c), changeIsFresh := true)
    {
      lockChange := Some(c);
      changeIsFresh := true;
    }

    /** Take the identity of a node built from a state document, preserving every other field. */
    method TakeIdentity(incoming: Node)
      requires incoming != this
      modifies this
      ensures Record() == old(Record()).(
        name := incoming.name, role := incoming.role, state := incoming.state,
        generation := if incoming.generation.Some? then incoming.generation else old(generation),
        firmware := if incoming.firmware.Some? then incoming.firmware else old(firmware))
    {
      name := incoming.name;
      role := incoming.role;
      state := incoming.state;
      if incoming.generation.Some? {
        generation := incoming.generation;
      }
      if incoming.firmware.Some? {
        firmware := incoming.firmware;
      }
    }

    function Record(): NodeRecord
      reads this
    {
      NodeRecord(name, role, state, generation, firmware, online, lwtOnline, lastSeen, health, security,
                 backupStatus, backup, lastAuth, guest, lockChange, changeIsFresh, attributed)
    }
  }

  function StateOf(node: NodeRecord): NodeState {
    NodeState(node.name, node.role, node.state, node.generation, node.firmware)
  }

  /** The cause a stored snapshot finds, given the reading it replaced. */
  function FallbackCause(id: string, node: NodeRecord, previous: Option<int>, h: NodeHealth): Option<Cause> {
    if previous.Some? && h.lockCurrent.Some? && h.lockCurrent != previous
       && node.lockChange.Some? && Some(node.lockChange.value.current) == h.lockCurrent
       && node.attributed != Some(KeyOf(node.lockChange.value)) && DeviceInitiated(node.lockChange.value.source)
    then Some(CauseOf(id, node, h.lockCurrent.value, node.lockChange.value, Fallback))
    else None
  }

  lemma StoredSnapshot(env: Env, id: string, before: NodeRecord, h: NodeHealth, at: Moment)
    ensures var stored := before.(health := Some(h), changeIsFresh := false);
            var previous := if before.health.Some? then before.health.value.lockCurrent else None;
            && stored == Merge(env, before, Snapshot(h), at)
            && (if at.Decides() then FallbackCause(id, stored, previous, h) else None) ==
                CauseFor(env, id, before, Snapshot(h), at)
  {
  }

  lemma StoredEvent(env: Env, id: string, before: NodeRecord, c: LockChange, at: Moment)
    ensures var stored := before.(lockChange := Some(c), changeIsFresh := true);
            var announced := EventAnnounces(env, stored, c, at);
            && stored.(attributed := if announced then Some(KeyOf(c)) else before.attributed) ==
                Merge(env, before, Change(c), at)
            && (if announced then Some(CauseOf(id, stored, c.current, c, Event)) else None)
               == CauseFor(env, id, before, Change(c), at)
  {
  }

  /** Registering a node first makes no difference to the update that follows. */
  lemma RegisterThenUpdate(env: Env, s: House, n: string, r: Report, at: Moment)
    requires !r.Will?
    ensures Update(env, Register(s, n), n, r, at) == Update(env, s, n, r, at)
  {
    assert NodeOf(Register(s, n), n) == NodeOf(s, n);
    var node := Merge(env, NodeOf(s, n), r, at);
    assert Register(s, n).nodes[n := node] == s.nodes[n := node];
  }

  lemma RegisterThenStep(env: Env, s: House, n: string, r: Report, at: Moment)
    requires !r.Will?
    ensures Step(env, Register(s, n), Accepted(n, r, at)) == Step(env, s, Accepted(n, r, at))
  {
    RegisterThenUpdate(env, s, n, r, at);
  }

  class Coordinator {
    const env: Env
    var nodes: map<string, Node>
    var pool: map<string, Node>
    var pending: map<string, nat>
    var log: seq<Entry>
    var notices: seq<Notice>
    var contexts: nat

    ghost predicate Valid()
      reads this, nodes.Values
    {
      && (forall n :: n in nodes ==> nodes[n].id == n)
      && (forall n :: n in pool ==> n in nodes && pool[n] == nodes[n])
    }

    ghost function Records(registry: map<string, Node>): map<string, NodeRecord>
      reads registry.Values
    {
      map n | n in registry :: registry[n].Record()
    }

    ghost function Model(): House
      reads this, nodes.Values, pool.Values
    {
      House(Records(nodes), Records(pool), pending, log, notices, contexts)
    }

    /** Built over pooled nodes, which it shares. */
    constructor (env: Env, pooled: map<string, Node>)
      requires forall n :: n in pooled ==> pooled[n].id == n
      ensures Valid() && this.env == env && nodes == pooled
      ensures Model() == Reattached(Records(pooled))
    {
      this.env := env;
      nodes, pool, pending := pooled, pooled, map[];
      log, notices, contexts := [], [], 0;
    }

    ghost function Nodes(): map<string, NodeRecord>
      reads this, nodes.Values
    {
      Records(nodes)
    }

    /** The record node `n` had, or a new node's. */
    twostate function Before(n: string): NodeRecord
    {
      if n in old(nodes) then old(nodes[n].Record()) else NewNode(n)
    }

    /** Nodes are registered, never replaced or removed. */
    twostate predicate Grown()
      reads this
    {
      && (forall m :: m in old(nodes) ==> m in nodes && nodes[m] == old(nodes[m]))
      && (forall m :: m in nodes && m !in old(nodes) ==> fresh(nodes[m]))
    }

    /** Only node `n` can have changed, and it is registered. */
    twostate predicate Kept(n: string)
      reads this, nodes.Values
    {
      && Valid() && pool == old(pool)
      && nodes.Keys == old(nodes).Keys + {n}
      && (forall m :: m in old(nodes) ==> nodes[m] == old(nodes[m]))
      && (n !in old(nodes) ==> fresh(nodes[n]))
      && (forall m :: m in old(nodes) && m != n ==> unchanged(nodes[m]))
    }

    twostate lemma KeptIsUpdate(n: string)
      requires old(Valid()) && Kept(n)
      ensures Nodes() == old(Nodes())[n := nodes[n].Record()]
    {
      forall m | m in nodes && m != n
        ensures m in old(nodes) && nodes[m].Record() == old(nodes[m].Record())
      {
        assert m in old(nodes);
        assert unchanged(nodes[m]);
      }
      assert Nodes().Keys == old(Nodes())[n := nodes[n].Record()].Keys;
    }

    /** Nothing at all changed among the nodes. */
    twostate predicate Untouched()
      reads this, nodes.Values
    {
      nodes == old(nodes) && forall m :: m in nodes ==> unchanged(nodes[m])
    }

    /** A cause, if any, was attached to the update and offered to the logbook. */
    twostate predicate Attributed(new cause: Option<Cause>, logs: bool)
      reads this
    {
      if cause.None? then pending == old(pending) && log == old(log) && contexts == old(contexts)
      else
        && pending == old(pending)[cause.value.node := old(contexts)] && contexts == old(contexts) + 1
        && log == if logs then old(log) + [Entry(cause.value, old(contexts))] else old(log)
    }

    /** What handling a report about node `n` leaves, before it is published. */
    twostate predicate Took(n: string, new r: Report, new at: Moment)
      reads this, nodes.Values
    {
      if r.Will? && n !in old(nodes) then Untouched() && Attributed(None, at.Logs())
      else
        && Kept(n) && nodes[n].Record() == Merge(env, Before(n), r, at)
        && Attributed(CauseFor(env, n, Before(n), r, at), at.Logs())
    }

    // ---- node lifecycle ----

    method EnsureNode(n: string) returns (node: Node)
      requires Valid()
      modifies this`nodes
      ensures Kept(n) && node == nodes[n] && node.Record() == Before(n)
      ensures n in old(nodes) ==> nodes == old(nodes)
    {
      if n !in nodes {
        node := new Node(n);
        nodes := nodes[n := node];
      } else {
        node := nodes[n];
      }
    }

    /** Merge a state document into the registry, preserving every other field. */
    method MergeNode(incoming: Node, ghost at: Moment)
      requires Valid() && incoming !in nodes.Values
      modifies this`nodes, nodes.Values
      ensures incoming.id in old(nodes) ==>
        nodes == old(nodes) && Kept(incoming.id)
        && nodes[incoming.id].Record() == Merge(env, Before(incoming.id), Identity(StateOf(incoming.Record())), at)
      ensures incoming.id !in old(nodes) ==>
        nodes == old(nodes)[incoming.id := incoming] && forall m :: m in old(nodes) ==> unchanged(nodes[m])
      ensures unchanged(incoming)
    {
      var n := incoming.id;
      if n !in nodes {
        nodes := nodes[n := incoming];
        return;
      }
      nodes[n].TakeIdentity(incoming);
    }

    method HandleState(n: string, state: NodeState, ghost at: Moment)
      requires Valid()
      modifies this`nodes, nodes.Values
      ensures Took(n, Identity(state), at)
    {
      var incoming := new Node.FromState(n, state);
      MergeNode(incoming, at);
    }

    // ---- per-topic handlers, given a validated payload ----

    method HandleNodeStatus(n: string, up: bool, at: Moment)
      requires Valid()
      modifies this`nodes, nodes.Values
      ensures Took(n, Online(up), at)
    {
      var node := EnsureNode(n);
      node.SetStatus(up, at.now);
    }

    /** The broker's will creates nothing: it carries no household identity. */
    method HandleLegacyStatus(n: string, alive: bool, at: Moment)
      requires Valid()
      modifies nodes.Values
      ensures Valid() && Took(n, Will(alive), at)
    {
      if n in nodes {
        var node := nodes[n];
        node.lwtOnline := Some(alive);
        if alive {
          node.lastSeen := Some(at.now);
        }
      }
    }

    method HandleSecurity(n: string, value: SecurityState, ghost at: Moment)
      requires Valid()
      modifies this`nodes, nodes.Values
      ensures Took(n, SecurityWas(value), at)
    {
      var node := EnsureNode(n);
      node.StoreSecurity(value);
    }

    method HandleBackupStatus(n: string, value: BackupOutcome, ghost at: Moment)
      requires Valid()
      modifies this`nodes, nodes.Values
      ensures Took(n, BackupWas(value), at)
    {
      var node := EnsureNode(n);
      node.StoreBackupStatus(value);
    }

    method HandleBackupLast(n: string, value: BackupRecord, ghost at: Moment)
      requires Valid()
      modifies this`nodes, nodes.Values
      ensures Took(n, Backup(value), at)
    {
      var node := EnsureNode(n);
      node.StoreBackup(value);
    }

    method HandleLastAuth(n: string, value: LastAuth, ghost at: Moment)
      requires Valid()
      modifies this`nodes, nodes.Values
      ensures Took(n, Auth(value), at)
    {
      var node := EnsureNode(n);
      node.StoreAuth(value);
    }

    method HandleGuest(n: string, value: GuestState, ghost at: Moment)
      requires Valid()
      modifies this`nodes, nodes.Values
      ensures Took(n, Guest(value), at)
    {
      var node := EnsureNode(n);
      node.StoreGuest(value);
    }

    // ---- attributing a lock change to its cause ----

    /** Record a cause: a context the entities will write with, and a log entry sharing it. */
    method LogLockCause(node: Node, current: int, c: LockChange, via: Via, logs: bool)
      modifies this`pending, this`log, this`contexts
      ensures Attributed(Some(CauseOf(node.id, node.Record(), current, c, via)), logs)
    {
      var context := contexts;
      contexts := contexts + 1;
      pending := pending[node.id := context];
      if logs {
        log := log + [Entry(CauseOf(node.id, node.Record(), current, c, via), context)];
      }
    }

    /** The snapshot path, after the snapshot has been stored. */
    method AttributeLockChange(node: Node, previous: Option<int>, health: NodeHealth, at: Moment)
      modifies this`pending, this`log, this`contexts
      ensures Attributed(if at.Decides() then FallbackCause(node.id, node.Record(), previous, health) else None,
          at.Logs())
    {
      var current := health.lockCurrent;
      if previous.None? || current.None? || current == previous {
        return;
      }
      if node.lockChange.None? || Some(node.lockChange.value.current) != current {
        return;
      }
      if node.attributed.Some? && node.attributed == Some(KeyOf(node.lockChange.value)) {
        return;
      }
      if !DeviceInitiated(node.lockChange.value.source) {
        return;
      }
      if !at.Decides() {
        return;
      }
      LogLockCause(node, current.value, node.lockChange.value, Fallback, at.Logs());
    }

    /** The event path, after the event has been stored. */
    method AttributeLockEvent(node: Node, change: LockChange, at: Moment)
      requires node.lockChange == Some(change)
      modifies this`pending, this`log, this`contexts, node`attributed
      ensures node.Record() == old(node.Record()).(
        attributed := if EventAnnounces(env, old(node.Record()), change, at) then Some(KeyOf(change))
            else old(node.attributed))
      ensures Attributed(
        if EventAnnounces(env, old(node.Record()), change, at)
        then Some(CauseOf(node.id, old(node.Record()), change.current, change, Event)) else None, at.Logs())
    {
      if !DeviceInitiated(change.source) {
        return;
      }
      var key := KeyOf(change);
      if node.attributed == Some(key) {
        return;
      }
      if !IsRecent(env, change.timestamp, at.now) || !at.Decides() {
        return;
      }
      node.attributed := Some(key);
      LogLockCause(node, change.current, change, Event, at.Logs());
    }

    method HandleHealth(n: string, health: NodeHealth, at: Moment)
      requires Valid() && n in nodes
      modifies this, nodes[n]
      ensures Took(n, Snapshot(health), at) && nodes == old(nodes) && notices == old(notices)
    {
      var node := nodes[n];
      var previous := if node.health.Some? then node.health.value.lockCurrent else None;
      node.StoreSnapshot(health);
      StoredSnapshot(env, n, Before(n), health, at);
      AttributeLockChange(node, previous, health, at);
    }

    method HandleLockLast(n: string, change: LockChange, at: Moment)
      requires Valid() && n in nodes
      modifies this, nodes[n]
      ensures Took(n, Change(change), at) && nodes == old(nodes) && notices == old(notices)
    {
      var node := nodes[n];
      node.StoreEvent(change);
      StoredEvent(env, n, Before(n), change, at);
      AttributeLockEvent(node, change, at);
    }

    // ---- dispatch ----

    /** Everything but health and lock events. */
    method ApplyField(n: string, r: Report, at: Moment)
      requires Valid() && !r.Snapshot? && !r.Change?
      modifies this`nodes, nodes.Values
      ensures Valid() && Took(n, r, at)
    {
      match r
      case Online(up) => HandleNodeStatus(n, up, at);
      case Will(alive) => HandleLegacyStatus(n, alive, at);
      case Identity(state) => HandleState(n, state, at);
      case SecurityWas(value) => HandleSecurity(n, value, at);
      case BackupWas(value) => HandleBackupStatus(n, value, at);
      case Backup(value) => HandleBackupLast(n, value, at);
      case Auth(value) => HandleLastAuth(n, value, at);
      case Guest(value) => HandleGuest(n, value, at);
    }

    /** The same against the step machine: everything but the pool and the listeners is updated. */
    twostate predicate Updated(n: string, new r: Report, new at: Moment)
      reads this, nodes.Values
    {
      var u := Update(env, old(Model()), n, r, at);
      Nodes() == u.nodes && pending == u.pending && log == u.log && contexts == u.contexts && u.notices == old(notices)
    }

    twostate lemma TookIsUpdate(n: string, new r: Report, new at: Moment)
      requires old(Valid()) && Took(n, r, at)
      ensures Updated(n, r, at)
    {
      assert old(Nodes()) == old(Model()).nodes;
      assert NodeOf(old(Model()), n) == Before(n);
      if !(r.Will? && n !in old(nodes)) {
        KeptIsUpdate(n);
      } else {
        assert forall m :: m in nodes ==> nodes[m].Record() == old(nodes[m].Record());
      }
    }

    /** What the registry kept, the pool kept. */
    twostate lemma PoolIsKept(n: string)
      requires old(Valid()) && Kept(n) && (n in old(nodes) ==> nodes[n].Record() == Before(n))
      ensures Records(pool) == old(Records(pool))
    {
      forall m | m in pool ensures pool[m].Record() == old(pool[m].Record()) {
        if m != n {
          assert unchanged(nodes[m]);
        }
      }
    }

    /** A refusal: at most a new default node, which shows nowhere else. */
    twostate lemma RegisteredIsDefault(n: string)
      requires old(Valid()) && Kept(n) && nodes[n].Record() == Before(n)
      requires pending == old(pending) && log == old(log) && contexts == old(contexts)
      ensures Nodes() == Register(old(Model()), n).nodes && Records(pool) == old(Records(pool))
    {
      KeptIsUpdate(n);
      PoolIsKept(n);
      assert old(Nodes()) == old(Model()).nodes;
    }

    method Apply(n: string, r: Report, at: Moment)
      requires Valid() && (r.Snapshot? || r.Change? ==> n in nodes)
      modifies this, nodes.Values
      ensures Valid() && Grown() && pool == old(pool) && notices == old(notices)
      ensures Updated(n, r, at)
    {
      if r.Snapshot? {
        HandleHealth(n, r.health, at);
      } else if r.Change? {
        HandleLockLast(n, r.change, at);
      } else {
        ApplyField(n, r, at);
      }
      TookIsUpdate(n, r, at);
    }

    /** Pool the registry, notify the listeners, drop the causes: `u` is the household as updated. */
    method PublishUpdate(about: string, ghost u: House)
      requires Valid() && Nodes() == u.nodes && pending == u.pending && log == u.log
      requires contexts == u.contexts && notices == u.notices
      modifies this`pool, this`notices, this`pending
      ensures Valid() && Model() == Publish(u, about)
    {
      pool := nodes;
      notices := notices + [Notice(about, nodes.Keys, pending)];
      pending := map[];
      assert Nodes().Keys == nodes.Keys;
    }

    method Accept(n: string, r: Report, at: Moment)
      requires Valid() && (r.Snapshot? || r.Change? ==> n in nodes)
      modifies this, nodes.Values
      ensures Valid() && Grown()
      ensures Model() == Step(env, old(Model()), Accepted(n, r, at))
    {
      ghost var updated := Update(env, Model(), n, r, at);
      Apply(n, r, at);
      PublishUpdate(n, updated);
    }

    method RegisterFirst(n: string)
      requires Valid()
      modifies this`nodes
      ensures Valid() && Grown() && n in nodes && Model() == Register(old(Model()), n)
    {
      var node := EnsureNode(n);
      RegisteredIsDefault(n);
    }

    /** Health and lock events register their node before they are validated. */
    method DispatchLock(t: Subtopic, n: string, payload: Json, at: Moment)
      requires Valid() && (t.Health? || t.LockLast?)
      modifies this, nodes.Values
      ensures Valid() && Grown()
      ensures var r := ParseReport(env, t, Document(payload), n);
              Model() == Step(env, old(Model()), if r.Ok? then Accepted(n, r.value, at) else Refused(Some(n)))
    {
      RegisterFirst(n);
      var r := ParseReport(env, t, Document(payload), n);
      if r.Ok? {
        RegisterThenStep(env, old(Model()), n, r.value, at);
        Accept(n, r.value, at);
      }
    }

    method DispatchField(t: Subtopic, n: string, payload: Payload, at: Moment)
      requires Valid() && !t.Other? && !t.Health? && !t.LockLast? && (IsJsonTopic(t) ==> payload.Document?)
      modifies this, nodes.Values
      ensures Valid() && Grown()
      ensures var r := ParseReport(env, t, payload, n);
              Model() == Step(env, old(Model()), if r.Ok? then Accepted(n, r.value, at) else Refused(None))
    {
      var r := ParseReport(env, t, payload, n);
      if r.Ok? {
        Accept(n, r.value, at);
      }
    }

    /** Handle one message: exactly one step of the household machine. */
    method HandleMessage(m: Message, at: Moment)
      requires Valid()
      modifies this, nodes.Values
      ensures Valid() && Grown()
      ensures Model() == Step(env, old(Model()), Read(env, Delivery(m, at)))
    {
      if m.household != env.household {
        return;
      }
      if IsJsonTopic(m.subtopic) && m.payload.Text? {
        return;
      }
      if m.subtopic.Other? || m.node.None? || m.node == Some("") {
        return;
      }
      if m.subtopic.Health? || m.subtopic.LockLast? {
        DispatchLock(m.subtopic, m.node.value, m.payload.json, at);
      } else {
        DispatchField(m.subtopic, m.node.value, m.payload, at);
      }
    }
  }
}
