/** What every step of the coordinator keeps: rejections are harmless, the pool follows the
    registry, causes never outlive their update, and the logbook gates nothing. */
module Invariants {
  import opened Json
  import opened Models
  import opened Household
  import opened Attribution

  /** Between messages: no cause is pending, and the pool is the registry less the default nodes
      that rejected payloads registered since the last update. */
  predicate Settled(s: House) {
    && s.pending == map[]
    && (forall n :: n in s.pool ==> n in s.nodes && s.pool[n] == s.nodes[n])
    && (forall n :: n in s.nodes && n !in s.pool ==> s.nodes[n] == NewNode(n))
    && (forall e :: e in s.log ==> e.context < s.contexts)
  }

  lemma StepSettled(env: Env, s: House, a: Arrival)
    requires Settled(s)
    ensures Settled(Step(env, s, a))
    ensures s.nodes.Keys <= Step(env, s, a).nodes.Keys
    ensures a.Accepted? ==> Step(env, s, a).pool == Step(env, s, a).nodes
  {
  }

  lemma {:induction false} RunSettled(env: Env, s: House, tape: seq<Arrival>)
    requires Settled(s)
    ensures Settled(Run(env, s, tape)) && s.nodes.Keys <= Run(env, s, tape).nodes.Keys
    ensures tape != [] && tape[|tape| - 1].Accepted? ==> Run(env, s, tape).pool == Run(env, s, tape).nodes
  {
    if tape != [] {
      RunSettled(env, s, tape[..|tape| - 1]);
      StepSettled(env, Run(env, s, tape[..|tape| - 1]), tape[|tape| - 1]);
    }
  }

  /** A delivery that fails validation changes no existing node, logs nothing, notifies nobody and
      leaves the pool alone. Its one possible effect is registering the node it names with default
      values, exactly when it is a decodable health or lock/last document for an unknown node. */
  lemma RejectionIsHarmless(env: Env, s: House, d: Delivery)
    requires Read(env, d).Refused?
    ensures var t := Step(env, s, Read(env, d));
            var m := d.message;
            && t == s.(nodes := t.nodes)
            && t.nodes
               == if (m.subtopic.Health? || m.subtopic.LockLast?) && m.payload.Document?
                     && m.node.Some? && m.node.value !in s.nodes
                  then s.nodes[m.node.value := NewNode(m.node.value)] else s.nodes
  {
  }

  // ---- the contexts entities see ----

  /** What the entities are shown over a run: at each notification, the cause of the node it is about. */
  function Shown(notices: seq<Notice>): seq<(string, nat)> {
    if notices == [] then []
    else
      var last := notices[|notices| - 1];
      Shown(notices[..|notices| - 1])
      + (if last.about in last.pending then [(last.about, last.pending[last.about])] else [])
  }

  function Logged(log: seq<Entry>): seq<(string, nat)> {
    seq(|log|, i requires 0 <= i < |log| => (log[i].cause.node, log[i].context))
  }

  /** During a notification only the node named by the message can have a cause, and contexts are
      never reused. */
  predicate Attributable(s: House) {
    && (forall i :: 0 <= i < |s.notices| ==> s.notices[i].pending.Keys <= {s.notices[i].about})
    && (forall i, j :: 0 <= i < j < |s.log| ==> s.log[i].context < s.log[j].context)
  }

  /** An update told in one notice: its cause, if it has one, under the next context. */
  predicate ToldOf(s: House, t: House, n: string, cause: Option<Cause>, logs: bool) {
    var pending: map<string, nat> := if cause.Some? then map[n := s.contexts] else map[];
    && t.notices == s.notices + [Notice(n, t.nodes.Keys, pending)] && (cause.Some? ==> cause.value.node == n)
    && t.log == if cause.Some? && logs then s.log + [Entry(cause.value, s.contexts)] else s.log
  }

  lemma ShowsTold(s: House, t: House, n: string, cause: Option<Cause>, logs: bool)
    requires Settled(s) && Attributable(s) && ToldOf(s, t, n, cause, logs)
    ensures Attributable(t)
    ensures logs && Shown(s.notices) == Logged(s.log) ==> Shown(t.notices) == Logged(t.log)
  {
    assert t.notices[..|t.notices| - 1] == s.notices;
  }

  lemma AcceptedIsTold(env: Env, s: House, n: string, r: Report, at: Moment)
    requires s.pending == map[]
    ensures ToldOf(s, Step(env, s, Accepted(n, r, at)), n, CauseFor(env, n, NodeOf(s, n), r, at), at.Logs())
  {
  }

  lemma StepShows(env: Env, s: House, a: Arrival)
    requires Settled(s) && Attributable(s)
    ensures Attributable(Step(env, s, a))
    ensures (a.Accepted? ==> a.at.Logs()) && Shown(s.notices) == Logged(s.log)
       ==> Shown(Step(env, s, a).notices) == Logged(Step(env, s, a).log)
  {
    if a.Accepted? {
      AcceptedIsTold(env, s, a.node, a.report, a.at);
      ShowsTold(s, Step(env, s, a), a.node, CauseFor(env, a.node, NodeOf(s, a.node), a.report, a.at), a.at.Logs());
    }
  }

  /** When no explanation raises, the contexts entities are shown and the log entries
      are in one-to-one correspondence, in order, over every run. */
  lemma {:induction false} ContextsJoinTheLog(env: Env, tape: seq<Arrival>)
    ensures Settled(Run(env, EMPTY, tape)) && Attributable(Run(env, EMPTY, tape))
    ensures (forall i :: 0 <= i < |tape| && tape[i].Accepted? ==> tape[i].at.Logs())
       ==> Shown(Run(env, EMPTY, tape).notices) == Logged(Run(env, EMPTY, tape).log)
  {
    if tape != [] {
      var front := tape[..|tape| - 1];
      ContextsJoinTheLog(env, front);
      StepShows(env, Run(env, EMPTY, front), tape[|tape| - 1]);
      StepSettled(env, Run(env, EMPTY, front), tape[|tape| - 1]);
    }
  }

  // ---- an explanation that raises ----

  /** A node but for the key of the event last announced for it. */
  function Unexplained(node: NodeRecord): NodeRecord {
    node.(attributed := None)
  }

  ghost predicate SameNodes(a: map<string, NodeRecord>, b: map<string, NodeRecord>) {
    a.Keys == b.Keys && forall n :: n in a ==> Unexplained(a[n]) == Unexplained(b[n])
  }

  /** The same registry, pool and notifications, but for keys and causes. */
  ghost predicate SameState(s: House, t: House) {
    && SameNodes(s.nodes, t.nodes) && SameNodes(s.pool, t.pool) && |s.notices| == |t.notices|
    && forall i :: 0 <= i < |s.notices| ==>
         s.notices[i].about == t.notices[i].about && s.notices[i].ids == t.notices[i].ids
  }

  /** Two arrivals that differ at most in what befalls the explanation. */
  predicate Twin(a: Arrival, b: Arrival) {
    a == b || (a.Accepted? && b.Accepted? && b == a.(at := a.at.(fault := b.at.fault)))
  }

  lemma TwinMerge(env: Env, a: NodeRecord, b: NodeRecord, r: Report, at: Moment, other: Moment)
    requires Unexplained(a) == Unexplained(b) && at.now == other.now
    ensures Unexplained(Merge(env, a, r, at)) == Unexplained(Merge(env, b, r, other))
  {
  }

  lemma UpdatedNodes(env: Env, s: House, n: string, r: Report, at: Moment)
    ensures var u := Update(env, s, n, r, at);
            && u.notices == s.notices
            && u.nodes == if r.Will? && n !in s.nodes then s.nodes else s.nodes[n := Merge(env, NodeOf(s, n), r, at)]
  {
  }

  lemma TwinNodes(env: Env, s: House, t: House, n: string, r: Report, at: Moment, other: Moment)
    requires SameNodes(s.nodes, t.nodes) && at.now == other.now
    ensures SameNodes(Update(env, s, n, r, at).nodes, Update(env, t, n, r, other).nodes)
  {
    UpdatedNodes(env, s, n, r, at);
    UpdatedNodes(env, t, n, r, other);
    TwinMerge(env, NodeOf(s, n), NodeOf(t, n), r, at, other);
  }

  lemma TwinPublish(s: House, t: House, n: string)
    requires SameState(s.(pool := s.nodes), t.(pool := t.nodes))
    ensures SameState(Publish(s, n), Publish(t, n))
  {
  }

  lemma TwinUpdate(env: Env, s: House, t: House, n: string, r: Report, at: Moment, other: Moment)
    requires SameState(s, t) && at.now == other.now
    ensures var u, v := Update(env, s, n, r, at), Update(env, t, n, r, other);
            SameState(u.(pool := u.nodes), v.(pool := v.nodes))
  {
    TwinNodes(env, s, t, n, r, at, other);
    UpdatedNodes(env, s, n, r, at);
    UpdatedNodes(env, t, n, r, other);
  }

  lemma TwinStep(env: Env, s: House, t: House, a: Arrival, b: Arrival)
    requires SameState(s, t) && Twin(a, b)
    ensures SameState(Step(env, s, a), Step(env, t, b))
  {
    if a.Accepted? {
      TwinUpdate(env, s, t, a.node, a.report, a.at, b.at);
      TwinPublish(Update(env, s, a.node, a.report, a.at), Update(env, t, a.node, a.report, b.at), a.node);
    } else if a.Refused? && a.registers.Some? {
      TwinRegister(s, t, a.registers.value);
    }
  }

  lemma TwinRegister(s: House, t: House, n: string)
    requires SameState(s, t)
    ensures SameState(Register(s, n), Register(t, n))
  {
  }

  /** Explaining a change never gates it: wherever explanations raise, and whenever, the registry,
      the pool and the notifications of a run are the same. */
  lemma {:induction false} FaultsNeverGateState(env: Env, s: House, a: seq<Arrival>, b: seq<Arrival>)
    requires |a| == |b| && forall i :: 0 <= i < |a| ==> Twin(a[i], b[i])
    ensures SameState(Run(env, s, a), Run(env, s, b))
  {
    if a != [] {
      var k := |a| - 1;
      FaultsNeverGateState(env, s, a[..k], b[..k]);
      TwinStep(env, Run(env, s, a[..k]), Run(env, s, b[..k]), a[k], b[k]);
    }
  }

  /** Raising in the logbook changes neither what is merged nor the cause; raising earlier leaves the
      announced key alone and finds no cause. */
  lemma FaultsMerge(env: Env, n: string, node: NodeRecord, r: Report, now: real)
    ensures Merge(env, node, r, Moment(now, LogFault)) == Merge(env, node, r, Moment(now, NoFault))
    ensures CauseFor(env, n, node, r, Moment(now, LogFault)) == CauseFor(env, n, node, r, Moment(now, NoFault))
    ensures Merge(env, node, r, Moment(now, EarlyFault))
         == Merge(env, node, r, Moment(now, NoFault)).(attributed := node.attributed)
    ensures CauseFor(env, n, node, r, Moment(now, EarlyFault)) == None
  {
  }

  lemma UnloggedKeeps(s: House, cause: Option<Cause>)
    ensures Attribute(s, cause, false) == Attribute(s, cause, true).(log := s.log)
  {
  }

  /** What an explanation that raises leaves behind: in the logbook, the context and the announced
      key but no entry; before that, none of the three. */
  lemma WhatSurvivesAFault(env: Env, s: House, n: string, r: Report, now: real)
    ensures var well := Update(env, s, n, r, Moment(now, NoFault));
            var unlogged := Update(env, s, n, r, Moment(now, LogFault));
            var early := Update(env, s, n, r, Moment(now, EarlyFault));
            && unlogged == well.(log := s.log)
            && early == if r.Will? && n !in s.nodes then s
                        else s.(nodes := s.nodes[n := well.nodes[n].(attributed := NodeOf(s, n).attributed)])
  {
    var node := NodeOf(s, n);
    FaultsMerge(env, n, node, r, now);
    if !(r.Will? && n !in s.nodes) {
      var merged := s.(nodes := s.nodes[n := Merge(env, node, r, Moment(now, NoFault))]);
      UnloggedKeeps(merged, CauseFor(env, n, node, r, Moment(now, NoFault)));
    }
  }

  // ---- reattaching pooled state ----

  lemma StepNodes(env: Env, s: House, t: House, a: Arrival)
    requires s.nodes == t.nodes
    ensures Step(env, s, a).nodes == Step(env, t, a).nodes
  {
  }

  /** Households with one registry log the same causes. */
  lemma StepTellsAlike(env: Env, s: House, t: House, a: Arrival, told: seq<Cause>)
    requires s.nodes == t.nodes && Causes(s.log) == told + Causes(t.log)
    ensures Causes(Step(env, s, a).log) == told + Causes(Step(env, t, a).log)
  {
    StepLog(env, s, a);
    StepLog(env, t, a);
    if a.Accepted? {
      assert NodeOf(s, a.node) == NodeOf(t, a.node);
    }
  }

  /** A coordinator built over the pool right after an accepted update carries on exactly where
      the old one stopped: on every continuation it has the same registry and logs the same causes. */
  lemma {:induction false} ReattachResumes(env: Env, s: House, tape: seq<Arrival>)
    requires s.pool == s.nodes
    ensures Run(env, Reattached(s.pool), tape).nodes == Run(env, s, tape).nodes
    ensures Causes(Run(env, s, tape).log) == Causes(s.log) + Causes(Run(env, Reattached(s.pool), tape).log)
  {
    if tape != [] {
      var front := tape[..|tape| - 1];
      var before, after := Run(env, s, front), Run(env, Reattached(s.pool), front);
      ReattachResumes(env, s, front);
      StepNodes(env, after, before, tape[|tape| - 1]);
      StepTellsAlike(env, before, after, tape[|tape| - 1], Causes(s.log));
    }
  }
}
