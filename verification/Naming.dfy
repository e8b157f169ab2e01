/** Whom a direct poll names. The lock event is handed over before the authorisation that came with
    it, so a tap is explained by what the node had reported before the poll. */
module Naming {
  import opened Json
  import opened Models
  import opened Household
  import opened Isolation
  import opened Direct
  import opened Polling

  // ---- one node through a poll ----

  /** A node's authorisation is the same until the slot that replaces it. */
  lemma AuthIsEarlier(env: Env, node: NodeRecord, rs: seq<Option<Report>>, clock: nat -> Moment)
    requires PollReports(rs)
    ensures Fold(env, node, rs, clock, 1).lastAuth == node.lastAuth
    ensures Fold(env, node, rs, clock, 3).lastAuth == node.lastAuth
  {
    FoldStarts(env, node, rs, clock);
    assert rs[1].Some? ==> KindOf(rs[1].value, LockLast);
    assert rs[2].Some? ==> KindOf(rs[2].value, State);
  }

  /** Every cause a poll finds names whom the record from before the poll calls for. */
  lemma CauseNamesEarlier(env: Env, n: string, node: NodeRecord, rs: seq<Option<Report>>, clock: nat -> Moment, k: nat)
    requires PollReports(rs) && k < SLOTS && CauseAt(env, n, node, rs, clock, k).Some?
    ensures k == 1 || k == 3
    ensures var c := CauseAt(env, n, node, rs, clock, k).value; c.actor == ActorFor(node, c.source, c.stamp)
  {
    AuthIsEarlier(env, node, rs, clock);
    assert rs[k].Some? ==> KindOf(rs[k].value, SlotTopic(k));
  }

  /** The node's authorisation names somebody for an event with this stamp. */
  predicate Names(auth: Option<LastAuth>, stamp: Option<string>) {
    && auth.Some? && auth.value.issuer.Some? && auth.value.issuer.value != ""
    && stamp.Some? && auth.value.timestamp == stamp
  }

  lemma PersonIff(node: NodeRecord, source: LockSource, stamp: Option<string>)
    ensures var actor := ActorFor(node, source, stamp);
            && (actor.Person? <==> source == HomeKey && Names(node.lastAuth, stamp))
            && (actor.Person? ==> actor.name == node.lastAuth.value.issuer.value)
            && (!actor.Person? ==> actor == Mechanism(source))
  {
  }

  // ---- the household through a poll ----

  /** The causes the first `k` slots put in the log, in order. */
  function CausesLogged(env: Env, n: string, node: NodeRecord, rs: seq<Option<Report>>, clock: nat -> Moment,
                        k: nat): seq<Cause>
    requires k <= |rs|
  {
    if k == 0 then []
    else
      var before, cause := CausesLogged(env, n, node, rs, clock, k - 1), CauseAt(env, n, node, rs, clock, k - 1);
      if cause.Some? && clock(k - 1).Logs() then before + [cause.value] else before
  }

  /** `t` has the log of `s`, and then these causes. */
  predicate LogGrewBy(s: House, t: House, causes: seq<Cause>) {
    && |t.log| == |s.log| + |causes| && t.log[..|s.log|] == s.log
    && forall i :: 0 <= i < |causes| ==> t.log[|s.log| + i].cause == causes[i]
  }

  lemma LogGrewByMore(s: House, t: House, u: House, causes: seq<Cause>, cause: Option<Cause>, logs: bool)
    requires LogGrewBy(s, t, causes) && u.log == Attribute(t, cause, logs).log
    ensures LogGrewBy(s, u, if cause.Some? && logs then causes + [cause.value] else causes)
  {
  }

  lemma StepLogs(env: Env, s: House, a: Arrival)
    ensures Step(env, s, a).log == if a.Accepted? then Attribute(s, StepCause(env, s, a), a.at.Logs()).log else s.log
  {
  }

  /** What slot `k` adds is what it finds in the record it meets. */
  lemma SlotFinds(env: Env, s: House, slots: seq<Option<Message>>, clock: nat -> Moment, n: string, k: nat)
    requires PollSlots(env, slots, n) && n != "" && k < SLOTS
    ensures var t := PollHouse(env, s, slots, clock, k);
            PollHouse(env, s, slots, clock, k + 1).log
            == Attribute(t, CauseAt(env, n, NodeOf(s, n), ReportsOf(env, slots, n), clock, k), clock(k).Logs()).log
  {
    PollTracksNode(env, s, slots, clock, n, k);
    SlotStep(env, s, slots, clock, k);
    if slots[k].Some? {
      SlotArrives(env, slots, n, k, clock(k));
      StepLogs(env, PollHouse(env, s, slots, clock, k), Read(env, Delivery(slots[k].value, clock(k))));
    }
  }

  /** The entries of a poll, exactly: what its slots find in the record each of them meets. */
  lemma {:induction false} PollLogIs(env: Env, s: House, slots: seq<Option<Message>>, clock: nat -> Moment, n: string,
                                     k: nat)
    requires PollSlots(env, slots, n) && n != "" && k <= SLOTS
    ensures LogGrewBy(s, PollHouse(env, s, slots, clock, k),
                      CausesLogged(env, n, NodeOf(s, n), ReportsOf(env, slots, n), clock, k))
  {
    if k > 0 {
      var rs := ReportsOf(env, slots, n);
      PollLogIs(env, s, slots, clock, n, k - 1);
      SlotFinds(env, s, slots, clock, n, k - 1);
      LogGrewByMore(s, PollHouse(env, s, slots, clock, k - 1), PollHouse(env, s, slots, clock, k),
                    CausesLogged(env, n, NodeOf(s, n), rs, clock, k - 1),
                    CauseAt(env, n, NodeOf(s, n), rs, clock, k - 1), clock(k - 1).Logs());
    }
  }

  predicate NameEarlier(node: NodeRecord, causes: seq<Cause>) {
    forall i :: 0 <= i < |causes| ==> causes[i].actor == ActorFor(node, causes[i].source, causes[i].stamp)
  }

  lemma {:induction false} LoggedNameEarlier(env: Env, n: string, node: NodeRecord, rs: seq<Option<Report>>,
                                             clock: nat -> Moment, k: nat)
    requires PollReports(rs) && k <= SLOTS
    ensures NameEarlier(node, CausesLogged(env, n, node, rs, clock, k))
  {
    if k > 0 {
      LoggedNameEarlier(env, n, node, rs, clock, k - 1);
      if CauseAt(env, n, node, rs, clock, k - 1).Some? {
        CauseNamesEarlier(env, n, node, rs, clock, k - 1);
      }
    }
  }

  lemma GrownNameEarlier(s: House, t: House, node: NodeRecord, causes: seq<Cause>, i: nat)
    requires NameEarlier(node, causes) && LogGrewBy(s, t, causes) && |s.log| <= i < |t.log|
    ensures var c := t.log[i].cause; c.actor == ActorFor(node, c.source, c.stamp)
  {
    assert t.log[|s.log| + (i - |s.log|)].cause == causes[i - |s.log|];
  }

  lemma NewEntriesNameEarlier(env: Env, s: House, slots: seq<Option<Message>>, clock: nat -> Moment, n: string, i: nat)
    requires PollSlots(env, slots, n) && n != ""
    requires |s.log| <= i < |PollHouse(env, s, slots, clock, SLOTS).log|
    ensures var c := PollHouse(env, s, slots, clock, SLOTS).log[i].cause;
            c.actor == ActorFor(NodeOf(s, n), c.source, c.stamp)
  {
    var rs := ReportsOf(env, slots, n);
    PollLogIs(env, s, slots, clock, n, SLOTS);
    ReportsArePollReports(env, slots, n);
    LoggedNameEarlier(env, n, NodeOf(s, n), rs, clock, SLOTS);
    GrownNameEarlier(s, PollHouse(env, s, slots, clock, SLOTS), NodeOf(s, n),
                     CausesLogged(env, n, NodeOf(s, n), rs, clock, SLOTS), i);
  }

  /** Every entry a poll adds names a person exactly when the tap is a HomeKey one and the node had,
      before the poll, reported an authorisation with a name and the event's own stamp - and then it
      names that one. What the response itself says about the authorisation plays no part. */
  lemma PollNamesIff(env: Env, s: House, state: Doc, info: Doc, guest: Option<Json>, n: string, clock: nat -> Moment,
                     i: nat)
    requires Slots(state, info, guest, env.household, n).Some?
    ensures var t := PollHouse(env, s, Slots(state, info, guest, env.household, n).value, clock, SLOTS);
            |s.log| <= i < |t.log| ==>
              var c, auth := t.log[i].cause, NodeOf(s, n).lastAuth;
              && (c.actor.Person? <==> c.source == HomeKey && Names(auth, c.stamp))
              && (c.actor.Person? ==> c.actor.name == auth.value.issuer.value)
              && (!c.actor.Person? ==> c.actor == Mechanism(c.source))
  {
    var slots := Slots(state, info, guest, env.household, n).value;
    SlotsArePollSlots(env, state, info, guest, n);
    if n == "" {
      NamelessPollIsIgnored(env, s, slots, clock, SLOTS);
    } else if |s.log| <= i < |PollHouse(env, s, slots, clock, SLOTS).log| {
      var c := PollHouse(env, s, slots, clock, SLOTS).log[i].cause;
      NewEntriesNameEarlier(env, s, slots, clock, n, i);
      PersonIff(NodeOf(s, n), c.source, c.stamp);
    }
  }

  // ---- a tap and its authorisation in one response ----

  /** The response carries a HomeKey event and an authorisation with a name and the event's own stamp,
      and the node had not reported that authorisation before. */
  ghost predicate TapWithItsName(node: NodeRecord, rs: seq<Option<Report>>, c: LockChange, auth: LastAuth) {
    && PollReports(rs) && rs[1] == Some(Change(c)) && rs[6] == Some(Auth(auth))
    && c.source == HomeKey && Names(Some(auth), c.timestamp) && !Names(node.lastAuth, c.timestamp)
  }

  /** What a node answers after a tap it knows the name of. */
  function TapResponse(stamp: string, name: string): Doc {
    map["lock_last" := JObj(map["current" := JInt(0), "source" := JStr("homekey"), "timestamp" := JStr(stamp)]),
        "last_auth" := JObj(map["result" := JStr("SUCCESS"), "issuer" := JStr(name), "timestamp" := JStr(stamp)])]
  }

  function Tapped(stamp: string): LockChange {
    LockChange(0, HomeKey, None, Some(stamp))
  }

  function AuthOf(stamp: string, name: string): LastAuth {
    LastAuth("HomeKey", Success, Some(stamp), Some(name))
  }

  lemma TapParses(env: Env, n: string, stamp: string)
    ensures ParseChange(env, Get(TapResponse(stamp, ""), "lock_last"), n) == Ok(Tapped(stamp))
  {
    assert SourceOf("homekey") == Ok(HomeKey);
  }

  lemma AuthParses(env: Env, n: string, stamp: string, name: string)
    ensures ParseAuth(env, Get(TapResponse(stamp, name), "last_auth"), n) == Ok(AuthOf(stamp, name))
  {
    assert AuthResultOf("SUCCESS") == Ok(Success);
  }

  lemma TapIsSent(stamp: string, name: string)
    ensures SendsLock(TapResponse(stamp, name)) && SendsAuth(TapResponse(stamp, name))
    ensures !AuthRaises(TapResponse(stamp, name)) && HealthDocument(TapResponse(stamp, name)).Some?
  {
    assert AuthResultOf("SUCCESS") == Ok(Success);
  }

  lemma SentSlotReports(env: Env, state: Doc, n: string, k: nat, r: Report)
    requires Slots(state, map[], None, env.household, n).Some? && k < SLOTS
    requires var m := SlotAt(state, map[], None, env.household, n, k);
             m.Some? && ParseReport(env, SlotTopic(k), m.value.payload, n) == Ok(r)
    ensures ReportsOf(env, Slots(state, map[], None, env.household, n).value, n)[k] == Some(r)
  {
  }

  lemma TapIsReported(env: Env, n: string, stamp: string, name: string)
    ensures Slots(TapResponse(stamp, name), map[], None, env.household, n).Some?
    ensures var slots := Slots(TapResponse(stamp, name), map[], None, env.household, n).value;
            ReportsOf(env, slots, n)[1] == Some(Change(Tapped(stamp)))
  {
    TapIsSent(stamp, name);
    TapParses(env, n, stamp);
    SentSlotReports(env, TapResponse(stamp, name), n, 1, Change(Tapped(stamp)));
  }

  lemma AuthIsReported(env: Env, n: string, stamp: string, name: string)
    ensures Slots(TapResponse(stamp, name), map[], None, env.household, n).Some?
    ensures var slots := Slots(TapResponse(stamp, name), map[], None, env.household, n).value;
            ReportsOf(env, slots, n)[6] == Some(Auth(AuthOf(stamp, name)))
  {
    TapIsSent(stamp, name);
    AuthParses(env, n, stamp, name);
    SentSlotReports(env, TapResponse(stamp, name), n, 6, Auth(AuthOf(stamp, name)));
  }

  /** There are such responses: any name, and any stamp the node has not reported a name for. */
  lemma TapResponseIsOne(env: Env, node: NodeRecord, n: string, stamp: string, name: string)
    requires name != "" && !Names(node.lastAuth, Some(stamp))
    ensures Slots(TapResponse(stamp, name), map[], None, env.household, n).Some?
    ensures var slots := Slots(TapResponse(stamp, name), map[], None, env.household, n).value;
            TapWithItsName(node, ReportsOf(env, slots, n), Tapped(stamp), AuthOf(stamp, name))
  {
    TapIsReported(env, n, stamp, name);
    AuthIsReported(env, n, stamp, name);
    SlotsArePollSlots(env, TapResponse(stamp, name), map[], None, n);
    ReportsArePollReports(env, Slots(TapResponse(stamp, name), map[], None, env.household, n).value, n);
  }

  lemma {:induction false} OneCauseLogged(env: Env, n: string, node: NodeRecord, rs: seq<Option<Report>>,
                                          clock: nat -> Moment, k: nat)
    requires PollReports(rs) && k <= SLOTS
    ensures |CausesLogged(env, n, node, rs, clock, k)| <= CausesFound(env, n, node, rs, clock, k)
  {
    if k > 0 {
      OneCauseLogged(env, n, node, rs, clock, k - 1);
    }
  }

  lemma EventIsLogged(env: Env, n: string, node: NodeRecord, rs: seq<Option<Report>>, clock: nat -> Moment,
                      c: LockChange)
    requires PollReports(rs) && rs[1] == Some(Change(c)) && EventAnnounces(env, node, c, clock(1)) && clock(1).Logs()
    ensures |CausesLogged(env, n, node, rs, clock, SLOTS)| == 1
    ensures CausesLogged(env, n, node, rs, clock, SLOTS)[0].via == Event
    ensures CausesLogged(env, n, node, rs, clock, SLOTS)[0].source == c.source
    ensures CausesLogged(env, n, node, rs, clock, SLOTS)[0].stamp == c.timestamp
  {
    FoldStarts(env, node, rs, clock);
    AtMostOneCause(env, n, node, rs, clock);
    OneCauseLogged(env, n, node, rs, clock, SLOTS);
    var cause := CauseAt(env, n, node, rs, clock, 1).value;
    assert CausesLogged(env, n, node, rs, clock, 0) == [];
    assert rs[0].Some? ==> KindOf(rs[0].value, Status);
    assert CauseAt(env, n, node, rs, clock, 0).None?;
    assert CausesLogged(env, n, node, rs, clock, 1) == [];
    assert CausesLogged(env, n, node, rs, clock, 2) == [cause];
    LoggedGrows(env, n, node, rs, clock, 2, SLOTS);
  }

  lemma {:induction false} LoggedGrows(env: Env, n: string, node: NodeRecord, rs: seq<Option<Report>>,
                                       clock: nat -> Moment, j: nat, k: nat)
    requires j <= k <= |rs|
    ensures CausesLogged(env, n, node, rs, clock, j) <= CausesLogged(env, n, node, rs, clock, k)
  {
    if j < k {
      LoggedGrows(env, n, node, rs, clock, j, k - 1);
    }
  }

  /** Such a tap, announced as news, is logged with its mechanism: the authorisation comes too late. */
  lemma TapInOneResponseIsUnnamed(env: Env, s: House, state: Doc, info: Doc, guest: Option<Json>, n: string,
                                  clock: nat -> Moment, c: LockChange, auth: LastAuth)
    requires Slots(state, info, guest, env.household, n).Some? && n != ""
    requires var slots := Slots(state, info, guest, env.household, n).value;
             TapWithItsName(NodeOf(s, n), ReportsOf(env, slots, n), c, auth)
    requires EventAnnounces(env, NodeOf(s, n), c, clock(1)) && clock(1).Logs()
    ensures var t := PollHouse(env, s, Slots(state, info, guest, env.household, n).value, clock, SLOTS);
            && |t.log| == |s.log| + 1 && t.log[|s.log|].cause.actor == Mechanism(HomeKey)
            && t.log[|s.log|].cause.stamp == c.timestamp && NodeOf(t, n).lastAuth == Some(auth)
  {
    var slots := Slots(state, info, guest, env.household, n).value;
    var rs := ReportsOf(env, slots, n);
    SlotsArePollSlots(env, state, info, guest, n);
    PollLogIs(env, s, slots, clock, n, SLOTS);
    EventIsLogged(env, n, NodeOf(s, n), rs, clock, c);
    PollNamesIff(env, s, state, info, guest, n, clock, |s.log|);
    PollTracksNode(env, s, slots, clock, n, SLOTS);
    FoldIsPolled(env, NodeOf(s, n), rs, clock);
  }

  /** The same slots delivered by the first `k` of these polls, each on its own clock. */
  function Repolled(env: Env, s: House, slots: seq<Option<Message>>, clocks: seq<nat -> Moment>, k: nat): House
    requires |slots| == SLOTS && k <= |clocks|
  {
    if k == 0 then s else PollHouse(env, Repolled(env, s, slots, clocks, k - 1), slots, clocks[k - 1], SLOTS)
  }

  /** The clock never goes back from one poll to the next, and explaining the event does not raise early
      before a poll where it does not. */
  predicate Onward(clocks: seq<nat -> Moment>, k: nat)
    requires k <= |clocks|
  {
    k <= 1 || (Onward(clocks, k - 1) && NoSooner(clocks[k - 2](1), clocks[k - 1](1)))
  }

  /** Polling the same answer again and again adds nothing to the log after the first time. */
  lemma {:induction false} RepollingIsQuiet(env: Env, s: House, slots: seq<Option<Message>>, n: string,
                                            clocks: seq<nat -> Moment>, k: nat)
    requires PollSlots(env, slots, n) && 1 <= k <= |clocks| && Onward(clocks, k)
    ensures Repolled(env, s, slots, clocks, k).log == PollHouse(env, s, slots, clocks[0], SLOTS).log
  {
    if k == 1 {
      assert Repolled(env, s, slots, clocks, 0) == s;
    } else {
      RepollingIsQuiet(env, s, slots, n, clocks, k - 1);
      SlotsAgainAreQuiet(env, Repolled(env, s, slots, clocks, k - 2), slots, n, clocks[k - 2], clocks[k - 1]);
    }
  }

  /** And it stays unnamed: however often the node answers the same, the log keeps the one entry with
      the mechanism, although the node has reported the name since the first poll. */
  lemma TapStaysUnnamed(env: Env, s: House, state: Doc, info: Doc, guest: Option<Json>, n: string,
                        clocks: seq<nat -> Moment>, c: LockChange, auth: LastAuth)
    requires Slots(state, info, guest, env.household, n).Some? && n != ""
    requires clocks != [] && Onward(clocks, |clocks|)
    requires var slots := Slots(state, info, guest, env.household, n).value;
             TapWithItsName(NodeOf(s, n), ReportsOf(env, slots, n), c, auth)
    requires EventAnnounces(env, NodeOf(s, n), c, clocks[0](1)) && clocks[0](1).Logs()
    ensures var t := Repolled(env, s, Slots(state, info, guest, env.household, n).value, clocks, |clocks|);
            |t.log| == |s.log| + 1 && t.log[|s.log|].cause.actor == Mechanism(HomeKey)
  {
    SlotsArePollSlots(env, state, info, guest, n);
    RepollingIsQuiet(env, s, Slots(state, info, guest, env.household, n).value, n, clocks, |clocks|);
    TapInOneResponseIsUnnamed(env, s, state, info, guest, n, clocks[0], c, auth);
  }

  /** In the other order - the authorisation first - the same two messages name the person. */
  lemma AuthFirstNames(env: Env, s: House, n: string, c: LockChange, auth: LastAuth, first: Moment, at: Moment)
    requires c.source == HomeKey && Names(Some(auth), c.timestamp)
    requires EventAnnounces(env, NodeOf(s, n), c, at) && at.Logs()
    ensures var t := Step(env, Step(env, s, Accepted(n, Auth(auth), first)), Accepted(n, Change(c), at));
            |t.log| == |s.log| + 1 && t.log[|s.log|].cause.actor == Person(auth.issuer.value)
  {
    var mid := Step(env, s, Accepted(n, Auth(auth), first));
    StepLogs(env, s, Accepted(n, Auth(auth), first));
    StepLogs(env, mid, Accepted(n, Change(c), at));
    StepNode(env, s, Accepted(n, Auth(auth), first), n);
  }
}
