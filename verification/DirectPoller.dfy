/** The poller in place: its own fields, and the coordinator it feeds message by message. */
module DirectPoller {
  import opened Json
  import opened Models
  import opened Household
  import opened Isolation
  import Coordinator
  import opened Direct
  import opened Polling
  import opened Poller

  class DirectPoller {
    const coordinator: Coordinator.Coordinator
    var nodeId: Option<string>
    var failures: nat
    var mismatchLogged: bool
    var offlineSent: nat

    ghost predicate Valid()
      reads this, coordinator, coordinator.nodes.Values
    {
      coordinator.Valid()
    }

    ghost function Model(): World
      reads this, coordinator, coordinator.nodes.Values, coordinator.pool.Values
    {
      World(PollerState(nodeId, failures, mismatchLogged), coordinator.Model(), offlineSent)
    }

    constructor (coordinator: Coordinator.Coordinator)
      requires coordinator.Valid()
      ensures Valid() && this.coordinator == coordinator
      ensures Model() == START.(house := coordinator.Model())
    {
      this.coordinator := coordinator;
      nodeId, failures, mismatchLogged, offlineSent := None, 0, false, 0;
    }

    /** Hand every sent slot to the coordinator, in order. */
    method Deliver(slots: seq<Option<Message>>, clock: nat -> Moment)
      requires Valid()
      modifies coordinator, coordinator.nodes.Values
      ensures Valid() && coordinator.Grown()
      ensures coordinator.Model() == PollHouse(coordinator.env, old(coordinator.Model()), slots, clock, |slots|)
    {
      ghost var env, before := coordinator.env, coordinator.Model();
      assert Stamped(slots, clock, 0) == [];
      for k := 0 to |slots|
        invariant coordinator.Valid() && coordinator.Grown()
        invariant coordinator.Model() == PollHouse(env, before, slots, clock, k)
      {
        SlotStep(env, before, slots, clock, k);
        if slots[k].Some? {
          coordinator.HandleMessage(slots[k].value, clock(k));
        }
      }
    }

    /** Deliver a matching response, and count it as one. */
    method Publish(slots: seq<Option<Message>>, clock: nat -> Moment)
      requires Valid()
      modifies this`failures, coordinator, coordinator.nodes.Values
      ensures Valid() && coordinator.Grown() && failures == 0
      ensures coordinator.Model() == PollHouse(coordinator.env, old(coordinator.Model()), slots, clock, |slots|)
    {
      Deliver(slots, clock);
      failures := 0;
    }

    /** Take in a response of the household's own node, unless restating it raised. */
    method Ingest(slots: Option<seq<Option<Message>>>, node: string, clock: nat -> Moment) returns (outcome: Outcome)
      requires Valid() && (slots.Some? ==> |slots.value| == SLOTS)
      modifies this`nodeId, this`failures, coordinator, coordinator.nodes.Values
      ensures Valid() && coordinator.Grown()
      ensures Model() == PublishState(coordinator.env, old(Model()), slots, node, clock).0
      ensures outcome == PublishState(coordinator.env, old(Model()), slots, node, clock).1
    {
      nodeId := Some(node);
      if slots.None? {
        return Crashed;
      }
      Publish(slots.value, clock);
      outcome := Done;
    }

    /** One poll: resolve who answered, and publish what a node of the household says. */
    method PollOnce(fetch: Fetch, clock: nat -> Moment) returns (outcome: Outcome)
      requires Valid()
      modifies this, coordinator, coordinator.nodes.Values
      ensures Valid() && coordinator.Grown()
      ensures Model() == Poller.PollOnce(coordinator.env, old(Model()), fetch, clock).0
      ensures outcome == Poller.PollOnce(coordinator.env, old(Model()), fetch, clock).1
    {
      if fetch.Unreachable? {
        return Raised;
      }
      var resolved := ResolveIdentity(coordinator.env, fetch.state, fetch.info);
      if !resolved.Found? {
        return Raised;
      }
      if resolved.household != coordinator.env.household {
        mismatchLogged := true;
        return Done;
      }
      var slots := Slots(fetch.state, fetch.info, fetch.guest, resolved.household, resolved.node);
      outcome := Ingest(slots, resolved.node, clock);
    }

    /** Count a failure, and at the third in a row take a known node offline. */
    method Fail(at: Moment)
      requires Valid()
      modifies this`failures, this`offlineSent, coordinator, coordinator.nodes.Values
      ensures Valid() && coordinator.Grown()
      ensures Model() == Poller.Fail(coordinator.env, old(Model()), at)
    {
      failures := failures + 1;
      if failures == OFFLINE_AFTER && nodeId.Some? && nodeId != Some("") {
        MarkOffline(at);
      }
    }

    method MarkOffline(at: Moment)
      requires Valid() && nodeId.Some?
      modifies this`offlineSent, coordinator, coordinator.nodes.Values
      ensures Valid() && coordinator.Grown() && offlineSent == old(offlineSent) + 1
      ensures coordinator.Model()
           == HandleAll(coordinator.env, old(coordinator.Model()), [Delivery(OfflineMessage(coordinator.env,
               nodeId.value), at)])
    {
      OneDelivery(coordinator.env, coordinator.Model(), Delivery(OfflineMessage(coordinator.env, nodeId.value), at));
      coordinator.HandleMessage(OfflineMessage(coordinator.env, nodeId.value), at);
      offlineSent := offlineSent + 1;
    }

    method Settle(outcome: Outcome, at: Moment)
      requires Valid()
      modifies this`failures, this`offlineSent, coordinator, coordinator.nodes.Values
      ensures Valid() && coordinator.Grown()
      ensures Model() == Poller.Settle(coordinator.env, old(Model()), outcome, at)
    {
      if outcome.Raised? {
        Fail(at);
      } else if outcome.Done? {
        failures := 0;
      }
    }

    /** The scheduled poll: a counted error ends up as presence, not as an error. */
    method PollSafely(fetch: Fetch, clock: nat -> Moment)
      requires Valid()
      modifies this, coordinator, coordinator.nodes.Values
      ensures Valid() && coordinator.Grown()
      ensures Model() == Poller.PollSafely(coordinator.env, old(Model()), fetch, clock)
    {
      var outcome := PollOnce(fetch, clock);
      Settle(outcome, clock(0));
    }
  }
}
