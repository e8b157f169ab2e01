/** What one direct poll does to the household: at most one log entry, a second delivery of the
    same response changes only the last-seen time, and a well-formed response is taken whole. */
module Polling {
  import opened Json
  import opened Models
  import opened Household
  import opened Isolation
  import opened Direct

  /** Slots as a poll of node `n` builds them: each holds its own subtopic, addressed to `n`. */
  predicate PollSlots(env: Env, slots: seq<Option<Message>>, n: string) {
    && |slots| == SLOTS && slots[0] == Some(Message(env.household, Some(n), Status, Text("online")))
    && forall k :: 0 < k < SLOTS && slots[k].Some? ==>
         && slots[k].value.household == env.household && slots[k].value.node == Some(n)
         && slots[k].value.subtopic == SlotTopic(k)
         && (IsJsonTopic(SlotTopic(k)) ==> slots[k].value.payload.Document?)
  }

  function SlotTopic(k: nat): Subtopic {
    match k
    case 0 => Status
    case 1 => LockLast
    case 2 => State
    case 3 => Health
    case 4 => Security
    case 5 => BackupStatus
    case 6 => LastAuthTopic
    case _ => GuestStatus
  }

  lemma SlotIsPollSlot(state: Doc, info: Doc, guest: Option<Json>, h: string, n: string, k: nat)
    requires k < SLOTS && SlotAt(state, info, guest, h, n, k).Some?
    ensures var m := SlotAt(state, info, guest, h, n, k).value;
            && m.household == h && m.node == Some(n) && m.subtopic == SlotTopic(k)
            && (IsJsonTopic(SlotTopic(k)) ==> m.payload.Document?)
  {
  }

  lemma SlotsArePollSlots(env: Env, state: Doc, info: Doc, guest: Option<Json>, n: string)
    requires Slots(state, info, guest, env.household, n).Some?
    ensures PollSlots(env, Slots(state, info, guest, env.household, n).value, n)
  {
    forall k | 0 <= k < SLOTS && SlotAt(state, info, guest, env.household, n, k).Some? {
      SlotIsPollSlot(state, info, guest, env.household, n, k);
    }
  }

  /** What slot `k` reports, when it is sent and accepted. */
  function SlotReport(env: Env, slots: seq<Option<Message>>, n: string, k: nat): Option<Report>
    requires k < |slots|
  {
    if slots[k].None? then None
    else ParseReport(env, SlotTopic(k), slots[k].value.payload, n).ToOption()
  }

  predicate KindOf(r: Report, t: Subtopic) {
    match t
    case Status => r.Online?
    case State => r.Identity?
    case Health => r.Snapshot?
    case LockLast => r.Change?
    case Security => r.SecurityWas?
    case BackupStatus => r.BackupWas?
    case BackupLast => r.Backup?
    case LastAuthTopic => r.Auth?
    case GuestStatus => r.Guest?
    case LegacyStatus => r.Will?
    case Other(_) => false
  }

  lemma ReportsMatchTopics(env: Env, t: Subtopic, p: Payload, n: string)
    requires !t.Other? && ParseReport(env, t, p, n).Ok?
    ensures KindOf(ParseReport(env, t, p, n).value, t)
  {
  }

  lemma OnlineWord(env: Env, n: string)
    ensures ParseReport(env, Status, Text("online"), n) == Ok(Online(true))
  {
    assert Strip("online") == "online";
    assert Lower("online") == "online";
  }

  function ReportsOf(env: Env, slots: seq<Option<Message>>, n: string): seq<Option<Report>> {
    seq(|slots|, k requires 0 <= k < |slots| => SlotReport(env, slots, n, k))
  }

  /** Reports in the slots of a poll: the node is up, and each slot reports its own kind. */
  predicate PollReports(rs: seq<Option<Report>>) {
    |rs| == SLOTS && rs[0] == Some(Online(true))
    && forall k :: 0 < k < SLOTS && rs[k].Some? ==> KindOf(rs[k].value, SlotTopic(k))
  }

  lemma ReportsArePollReports(env: Env, slots: seq<Option<Message>>, n: string)
    requires PollSlots(env, slots, n)
    ensures PollReports(ReportsOf(env, slots, n))
  {
    OnlineWord(env, n);
    forall k | 0 < k < SLOTS && SlotReport(env, slots, n, k).Some?
      ensures KindOf(SlotReport(env, slots, n, k).value, SlotTopic(k))
    {
      ReportsMatchTopics(env, SlotTopic(k), slots[k].value.payload, n);
    }
  }

  // ---- one node through a poll ----

  function Put(env: Env, node: NodeRecord, r: Option<Report>, at: Moment): NodeRecord {
    if r.Some? then Merge(env, node, r.value, at) else node
  }

  function Fold(env: Env, node: NodeRecord, rs: seq<Option<Report>>, clock: nat -> Moment, k: nat): NodeRecord
    requires k <= |rs|
  {
    if k == 0 then node else Put(env, Fold(env, node, rs, clock, k - 1), rs[k - 1], clock(k - 1))
  }

  function CauseAt(env: Env, n: string, node: NodeRecord, rs: seq<Option<Report>>, clock: nat -> Moment,
                   k: nat): Option<Cause>
    requires k < |rs|
  {
    if rs[k].Some? then CauseFor(env, n, Fold(env, node, rs, clock, k), rs[k].value, clock(k)) else None
  }

  /** How many causes the first `k` slots find. */
  function CausesFound(env: Env, n: string, node: NodeRecord, rs: seq<Option<Report>>, clock: nat -> Moment,
                       k: nat): nat
    requires k <= |rs|
  {
    if k == 0 then 0
    else CausesFound(env, n, node, rs, clock, k - 1) + (if CauseAt(env, n, node, rs, clock, k - 1).Some? then 1 else 0)
  }

  /** The node after the first four slots: presence, event, identity, snapshot. */
  function HalfPolled(env: Env, node: NodeRecord, rs: seq<Option<Report>>, clock: nat -> Moment): NodeRecord
    requires PollReports(rs)
  {
    var changed := Put(env, node, rs[1], clock(1));
    var named := Put(env, changed, rs[2], clock(2));
    named.(
      online := true, lastSeen := Some(clock(0).now),
      health := if rs[3].Some? then Some(rs[3].value.health) else node.health,
      changeIsFresh := if rs[3].Some? then false else changed.changeIsFresh)
  }

  /** The node after a poll, in closed form. */
  function Polled(env: Env, node: NodeRecord, rs: seq<Option<Report>>, clock: nat -> Moment): NodeRecord
    requires PollReports(rs)
  {
    HalfPolled(env, node, rs, clock).(
      security := if rs[4].Some? then Some(rs[4].value.security) else node.security,
      backupStatus := if rs[5].Some? then Some(rs[5].value.outcome) else node.backupStatus,
      lastAuth := if rs[6].Some? then Some(rs[6].value.auth) else node.lastAuth,
      guest := if rs[7].Some? then Some(rs[7].value.guest) else node.guest)
  }

  lemma FoldIsHalfPolled(env: Env, node: NodeRecord, rs: seq<Option<Report>>, clock: nat -> Moment)
    requires PollReports(rs)
    ensures Fold(env, node, rs, clock, 4) == HalfPolled(env, node, rs, clock)
  {
    var f1 := Put(env, node, rs[0], clock(0));
    var f2 := Put(env, f1, rs[1], clock(1));
    var f3 := Put(env, f2, rs[2], clock(2));
    assert Fold(env, node, rs, clock, 1) == f1;
    assert Fold(env, node, rs, clock, 2) == f2;
    assert Fold(env, node, rs, clock, 3) == f3;
  }

  lemma FoldFinishes(env: Env, node: NodeRecord, rs: seq<Option<Report>>, clock: nat -> Moment)
    requires PollReports(rs)
    ensures var half := Fold(env, node, rs, clock, 4);
            Fold(env, node, rs, clock, 6) ==
            half.(security := if rs[4].Some? then Some(rs[4].value.security) else half.security,
                  backupStatus := if rs[5].Some? then Some(rs[5].value.outcome) else half.backupStatus)
  {
    var half := Fold(env, node, rs, clock, 4);
    assert Fold(env, node, rs, clock, 5) == Put(env, half, rs[4], clock(4));
    assert rs[4].Some? ==> KindOf(rs[4].value, Security);
    assert rs[5].Some? ==> KindOf(rs[5].value, BackupStatus);
  }

  lemma FoldEnds(env: Env, node: NodeRecord, rs: seq<Option<Report>>, clock: nat -> Moment)
    requires PollReports(rs)
    ensures var most := Fold(env, node, rs, clock, 6);
            Fold(env, node, rs, clock, SLOTS) ==
            most.(lastAuth := if rs[6].Some? then Some(rs[6].value.auth) else most.lastAuth,
                  guest := if rs[7].Some? then Some(rs[7].value.guest) else most.guest)
  {
    var most := Fold(env, node, rs, clock, 6);
    assert Fold(env, node, rs, clock, 7) == Put(env, most, rs[6], clock(6));
    assert rs[6].Some? ==> KindOf(rs[6].value, LastAuthTopic);
    assert rs[7].Some? ==> KindOf(rs[7].value, GuestStatus);
  }

  lemma FoldIsPolled(env: Env, node: NodeRecord, rs: seq<Option<Report>>, clock: nat -> Moment)
    requires PollReports(rs)
    ensures Fold(env, node, rs, clock, SLOTS) == Polled(env, node, rs, clock)
  {
    FoldIsHalfPolled(env, node, rs, clock);
    FoldFinishes(env, node, rs, clock);
    FoldEnds(env, node, rs, clock);
    var half := HalfPolled(env, node, rs, clock);
    assert half.lastAuth == node.lastAuth && half.guest == node.guest;
    assert half.security == node.security && half.backupStatus == node.backupStatus;
  }

  // ---- causes ----

  /** Only the event and the snapshot can find a cause, and not both: a snapshot is silent about
      an event announced a moment earlier. */
  lemma AtMostOneCause(env: Env, n: string, node: NodeRecord, rs: seq<Option<Report>>, clock: nat -> Moment)
    requires PollReports(rs)
    ensures CausesFound(env, n, node, rs, clock, SLOTS) <= 1
  {
    FoldStarts(env, node, rs, clock);
    var f1, f3 := Fold(env, node, rs, clock, 1), Fold(env, node, rs, clock, 3);
    assert rs[2].Some? ==> KindOf(rs[2].value, State);
    OnlyTwoSlotsFind(env, n, node, rs, clock);
    if rs[1].Some? && EventAnnounces(env, f1, rs[1].value.change, clock(1)) {
      assert f3.attributed == Some(KeyOf(f3.lockChange.value));
      assert rs[3].Some? ==> KindOf(rs[3].value, Health);
    }
  }

  lemma OnlyTwoSlotsFind(env: Env, n: string, node: NodeRecord, rs: seq<Option<Report>>, clock: nat -> Moment)
    requires PollReports(rs)
    ensures CausesFound(env, n, node, rs, clock, SLOTS)
         == (if CauseAt(env, n, node, rs, clock, 1).Some? then 1 else 0)
          + (if CauseAt(env, n, node, rs, clock, 3).Some? then 1 else 0)
  {
    forall k | 0 <= k < SLOTS && k != 1 && k != 3
      ensures CausesFound(env, n, node, rs, clock, k + 1) == CausesFound(env, n, node, rs, clock, k)
    {
      assert rs[k].Some? ==> KindOf(rs[k].value, SlotTopic(k));
    }
    FoundStep(env, n, node, rs, clock, 1);
    FoundStep(env, n, node, rs, clock, 3);
    assert CausesFound(env, n, node, rs, clock, 0 + 1) == 0;
    assert CausesFound(env, n, node, rs, clock, 2 + 1) == CausesFound(env, n, node, rs, clock, 2);
    assert CausesFound(env, n, node, rs, clock, 4 + 1) == CausesFound(env, n, node, rs, clock, 4);
    assert CausesFound(env, n, node, rs, clock, 5 + 1) == CausesFound(env, n, node, rs, clock, 5);
    assert CausesFound(env, n, node, rs, clock, 6 + 1) == CausesFound(env, n, node, rs, clock, 6);
    assert CausesFound(env, n, node, rs, clock, 7 + 1) == CausesFound(env, n, node, rs, clock, 7);
  }

  lemma FoundStep(env: Env, n: string, node: NodeRecord, rs: seq<Option<Report>>, clock: nat -> Moment, k: nat)
    requires k < |rs|
    ensures CausesFound(env, n, node, rs, clock, k + 1)
         == CausesFound(env, n, node, rs, clock, k) + (if CauseAt(env, n, node, rs, clock, k).Some? then 1 else 0)
  {
  }

  /** The node after the event slot, and after the identity slot, of a poll. */
  lemma FoldStarts(env: Env, node: NodeRecord, rs: seq<Option<Report>>, clock: nat -> Moment)
    requires PollReports(rs)
    ensures Fold(env, node, rs, clock, 1) == node.(online := true, lastSeen := Some(clock(0).now))
    ensures Fold(env, node, rs, clock, 2) == Put(env, Fold(env, node, rs, clock, 1), rs[1], clock(1))
    ensures Fold(env, node, rs, clock, 3) == Put(env, Fold(env, node, rs, clock, 2), rs[2], clock(2))
  {
    assert Fold(env, node, rs, clock, 0) == node;
  }

  /** No earlier, and an explanation that raises early at the first moment does so at the second. */
  predicate NoSooner(first: Moment, second: Moment) {
    first.now <= second.now && (second.Decides() ==> first.Decides())
  }

  /** Whatever a poll's event did, the same event is not news right after it. */
  lemma EventIsSpent(env: Env, node: NodeRecord, rs: seq<Option<Report>>, clock: nat -> Moment, at: Moment)
    requires PollReports(rs) && rs[1].Some? && NoSooner(clock(1), at)
    ensures !EventAnnounces(env, Polled(env, node, rs, clock), rs[1].value.change, at)
  {
    assert KindOf(rs[1].value, LockLast);
    var c := rs[1].value.change;
    assert Polled(env, node, rs, clock).attributed
        == if EventAnnounces(env, node, c, clock(1)) then Some(KeyOf(c)) else node.attributed;
  }

  lemma HalfPolledAgain(env: Env, node: NodeRecord, rs: seq<Option<Report>>, clock: nat -> Moment, later: nat -> Moment)
    requires PollReports(rs) && NoSooner(clock(1), later(1))
    ensures var once := Polled(env, node, rs, clock);
            HalfPolled(env, once, rs, later) == once.(lastSeen := Some(later(0).now))
  {
    assert rs[1].Some? ==> KindOf(rs[1].value, LockLast);
    assert rs[2].Some? ==> KindOf(rs[2].value, State);
    if rs[1].Some? {
      EventIsSpent(env, node, rs, clock, later(1));
    }
  }

  /** The same reports on a node that has just taken them: only the last-seen time moves. */
  lemma PolledAgain(env: Env, node: NodeRecord, rs: seq<Option<Report>>, clock: nat -> Moment, later: nat -> Moment)
    requires PollReports(rs) && NoSooner(clock(1), later(1))
    ensures var once := Polled(env, node, rs, clock);
            Polled(env, once, rs, later) == once.(lastSeen := Some(later(0).now))
  {
    HalfPolledAgain(env, node, rs, clock, later);
  }

  lemma NothingIsNewsAgain(env: Env, n: string, node: NodeRecord, rs: seq<Option<Report>>,
                           clock: nat -> Moment, later: nat -> Moment)
    requires PollReports(rs) && NoSooner(clock(1), later(1))
    ensures CausesFound(env, n, Polled(env, node, rs, clock), rs, later, SLOTS) == 0
  {
    var once := Polled(env, node, rs, clock);
    OnlyTwoSlotsFind(env, n, once, rs, later);
    FoldStarts(env, once, rs, later);
    if rs[1].Some? {
      EventIsSpent(env, node, rs, clock, later(1));
    }
    assert rs[2].Some? ==> KindOf(rs[2].value, State);
    assert Fold(env, once, rs, later, 3).health == once.health;
    assert rs[3].Some? ==> KindOf(rs[3].value, Health);
  }

  // ---- the household through a poll ----

  function PollHouse(env: Env, s: House, slots: seq<Option<Message>>, clock: nat -> Moment, k: nat): House
    requires k <= |slots|
  {
    HandleAll(env, s, Stamped(slots, clock, k))
  }

  /** A sent slot reads as its report, or as a refusal, for the node it is addressed to. */
  lemma SlotArrives(env: Env, slots: seq<Option<Message>>, n: string, k: nat, at: Moment)
    requires PollSlots(env, slots, n) && k < SLOTS && slots[k].Some? && n != ""
    ensures var a := Read(env, Delivery(slots[k].value, at));
            if ReportsOf(env, slots, n)[k].Some? then a == Accepted(n, ReportsOf(env, slots, n)[k].value, at)
            else a.Refused? && (a == Refused(Some(n)) || a == Refused(None))
  {
    if k == 0 {
      OnlineWord(env, n);
    }
  }

  lemma SlotStep(env: Env, s: House, slots: seq<Option<Message>>, clock: nat -> Moment, k: nat)
    requires k < |slots|
    ensures PollHouse(env, s, slots, clock, k + 1)
         == if slots[k].None? then PollHouse(env, s, slots, clock, k)
            else Step(env, PollHouse(env, s, slots, clock, k), Read(env, Delivery(slots[k].value, clock(k))))
  {
    var before := Stamped(slots, clock, k);
    if slots[k].Some? {
      HandleLast(env, s, before, Delivery(slots[k].value, clock(k)));
    } else {
      assert before + [] == before;
    }
  }

  /** `t` is `s` with node `n` registered as `node`, and every other node as it was. */
  ghost predicate OnlyNode(s: House, t: House, n: string, node: NodeRecord) {
    && NodeOf(t, n) == node
    && forall m :: m != n ==> (m in t.nodes <==> m in s.nodes) && NodeOf(t, m) == NodeOf(s, m)
  }

  lemma OnlyNodeStep(env: Env, s: House, t: House, n: string, a: Arrival)
    requires OnlyNode(s, t, n, NodeOf(t, n))
    requires a.Accepted? ==> a.node == n && !a.report.Will?
    requires a.Refused? ==> a == Refused(Some(n)) || a == Refused(None)
    ensures var u := Step(env, t, a);
            OnlyNode(s, u, n, if a.Accepted? then Merge(env, NodeOf(t, n), a.report, a.at) else NodeOf(t, n))
    ensures n in t.nodes || a.Accepted? ==> n in Step(env, t, a).nodes
  {
    StepNode(env, t, a, n);
    forall m | m != n
      ensures (m in Step(env, t, a).nodes <==> m in s.nodes) && NodeOf(Step(env, t, a), m) == NodeOf(s, m)
    {
      StepNode(env, t, a, m);
    }
  }

  lemma SlotKeepsOthers(env: Env, s: House, t: House, slots: seq<Option<Message>>, n: string, k: nat, at: Moment)
    requires PollSlots(env, slots, n) && k < SLOTS && slots[k].Some? && n != ""
    requires OnlyNode(s, t, n, NodeOf(t, n)) && (k > 0 ==> n in t.nodes)
    ensures var u := Step(env, t, Read(env, Delivery(slots[k].value, at)));
            OnlyNode(s, u, n, Put(env, NodeOf(t, n), ReportsOf(env, slots, n)[k], at)) && n in u.nodes
  {
    SlotArrives(env, slots, n, k, at);
    ReportsArePollReports(env, slots, n);
    var a := Read(env, Delivery(slots[k].value, at));
    assert a.Accepted? ==> KindOf(a.report, SlotTopic(k));
    OnlyNodeStep(env, s, t, n, a);
  }

  lemma {:induction false} PollTracksNode(env: Env, s: House, slots: seq<Option<Message>>, clock: nat -> Moment,
      n: string, k: nat)
    requires PollSlots(env, slots, n) && n != "" && k <= SLOTS
    ensures var t := PollHouse(env, s, slots, clock, k);
            && OnlyNode(s, t, n, Fold(env, NodeOf(s, n), ReportsOf(env, slots, n), clock, k))
            && (k > 0 ==> n in t.nodes)
  {
    if k > 0 {
      PollTracksNode(env, s, slots, clock, n, k - 1);
      SlotStep(env, s, slots, clock, k - 1);
      if slots[k - 1].Some? {
        SlotKeepsOthers(env, s, PollHouse(env, s, slots, clock, k - 1), slots, n, k - 1, clock(k - 1));
      }
    }
  }

  lemma StepLogGrows(env: Env, s: House, a: Arrival)
    ensures var t := Step(env, s, a);
            if StepCause(env, s, a).None? then t.log == s.log else |s.log| <= |t.log| <= |s.log| + 1
  {
  }

  lemma {:induction false} PollTracksLog(env: Env, s: House, slots: seq<Option<Message>>, clock: nat -> Moment,
      n: string, k: nat)
    requires PollSlots(env, slots, n) && n != "" && k <= SLOTS
    ensures var t := PollHouse(env, s, slots, clock, k);
            var found := CausesFound(env, n, NodeOf(s, n), ReportsOf(env, slots, n), clock, k);
            |s.log| <= |t.log| <= |s.log| + found && (found == 0 ==> t.log == s.log)
  {
    if k > 0 {
      PollTracksLog(env, s, slots, clock, n, k - 1);
      PollTracksNode(env, s, slots, clock, n, k - 1);
      SlotStep(env, s, slots, clock, k - 1);
      FoundStep(env, n, NodeOf(s, n), ReportsOf(env, slots, n), clock, k - 1);
      if slots[k - 1].Some? {
        SlotArrives(env, slots, n, k - 1, clock(k - 1));
        StepLogGrows(env, PollHouse(env, s, slots, clock, k - 1), Read(env,
            Delivery(slots[k - 1].value, clock(k - 1))));
      }
    }
  }

  /** A response whose node id renders as nothing is not handled at all. */
  lemma {:induction false} NamelessPollIsIgnored(env: Env, s: House, slots: seq<Option<Message>>, clock: nat -> Moment,
      k: nat)
    requires PollSlots(env, slots, "") && k <= SLOTS
    ensures PollHouse(env, s, slots, clock, k) == s
  {
    if k > 0 {
      NamelessPollIsIgnored(env, s, slots, clock, k - 1);
      SlotStep(env, s, slots, clock, k - 1);
    }
  }

  /** One direct poll adds at most one log entry, whatever the response and the state before. */
  lemma OnePollOneEntry(env: Env, s: House, state: Doc, info: Doc, guest: Option<Json>, n: string, clock: nat -> Moment)
    requires Slots(state, info, guest, env.household, n).Some?
    ensures var t := PollHouse(env, s, Slots(state, info, guest, env.household, n).value, clock, SLOTS);
            |s.log| <= |t.log| <= |s.log| + 1
  {
    var slots := Slots(state, info, guest, env.household, n).value;
    SlotsArePollSlots(env, state, info, guest, n);
    if n == "" {
      NamelessPollIsIgnored(env, s, slots, clock, SLOTS);
    } else {
      PollTracksLog(env, s, slots, clock, n, SLOTS);
      ReportsArePollReports(env, slots, n);
      AtMostOneCause(env, n, NodeOf(s, n), ReportsOf(env, slots, n), clock);
    }
  }

  lemma SlotsAgainAreQuiet(env: Env, s: House, slots: seq<Option<Message>>, n: string,
                           clock: nat -> Moment, later: nat -> Moment)
    requires PollSlots(env, slots, n)
    requires NoSooner(clock(1), later(1))
    ensures var once := PollHouse(env, s, slots, clock, SLOTS);
            var twice := PollHouse(env, once, slots, later, SLOTS);
            && twice.log == once.log
            && (n == "" ==> twice.nodes == once.nodes)
            && (n != "" ==>
                  n in once.nodes
                  && twice.nodes == once.nodes[n := once.nodes[n].(lastSeen := Some(later(0).now))])
  {
    var once := PollHouse(env, s, slots, clock, SLOTS);
    if n == "" {
      NamelessPollIsIgnored(env, s, slots, clock, SLOTS);
      NamelessPollIsIgnored(env, once, slots, later, SLOTS);
    } else {
      var rs := ReportsOf(env, slots, n);
      ReportsArePollReports(env, slots, n);
      PollTracksNode(env, s, slots, clock, n, SLOTS);
      PollTracksNode(env, once, slots, later, n, SLOTS);
      PollTracksLog(env, once, slots, later, n, SLOTS);
      FoldIsPolled(env, NodeOf(s, n), rs, clock);
      FoldIsPolled(env, NodeOf(once, n), rs, later);
      PolledAgain(env, NodeOf(s, n), rs, clock, later);
      NothingIsNewsAgain(env, n, NodeOf(s, n), rs, clock, later);
      SameNodes(once, PollHouse(env, once, slots, later, SLOTS), n);
    }
  }

  /** Delivering the same response again, no earlier, changes neither the log nor any node field
      but the polled node's last-seen time - unless explaining its event raised early the first
      time and does not the second. */
  lemma RedeliveryIsQuiet(env: Env, s: House, state: Doc, info: Doc, guest: Option<Json>, n: string,
                          clock: nat -> Moment, later: nat -> Moment)
    requires Slots(state, info, guest, env.household, n).Some? && NoSooner(clock(1), later(1))
    ensures var slots := Slots(state, info, guest, env.household, n).value;
            var once := PollHouse(env, s, slots, clock, SLOTS);
            var twice := PollHouse(env, once, slots, later, SLOTS);
            && twice.log == once.log
            && (n == "" ==> twice.nodes == once.nodes)
            && (n != "" ==>
                  n in once.nodes
                  && twice.nodes == once.nodes[n := once.nodes[n].(lastSeen := Some(later(0).now))])
  {
    SlotsArePollSlots(env, state, info, guest, n);
    SlotsAgainAreQuiet(env, s, Slots(state, info, guest, env.household, n).value, n, clock, later);
  }

  lemma SameNodes(s: House, t: House, n: string)
    requires n in t.nodes && OnlyNode(s, t, n, NodeOf(t, n))
    ensures t.nodes == s.nodes[n := t.nodes[n]]
  {
    forall m | m in t.nodes && m != n
      ensures t.nodes[m] == s.nodes[m]
    {
      assert NodeOf(t, m) == NodeOf(s, m);
    }
  }
}
