/** Sending a lock command and waiting for the node to report that it was carried out (lock.py). */
module Confirm {
  import opened Json
  import opened Models
  import opened Household
  import opened Canonical
  import opened History
  import Commands
  import DirectPoller
  import Poller
  import Topics

  const TIMEOUT: real := 10.0
  const POLL: real := 0.5

  /** The node is registered and its freshest lock report is `target`. */
  predicate Reports(s: House, node: string, target: LockState) {
    node in s.nodes && s.nodes[node].LockState() == target
  }

  /** `clock(k)` is the monotonic clock at the k-th check: it starts no earlier than the wait
      did, and every sleep advances it by at least the poll interval. */
  ghost predicate Ticks(start: real, clock: nat -> real) {
    clock(0) >= start && forall k: nat :: clock(k + 1) >= clock(k) + POLL
  }

  lemma {:induction false} TicksAddUp(start: real, clock: nat -> real, k: nat)
    requires Ticks(start, clock)
    ensures clock(k) >= start + POLL * k as real
  {
    if k > 0 {
      TicksAddUp(start, clock, k - 1);
      assert clock(k - 1 + 1) >= clock(k - 1) + POLL;
    }
  }

  /** The target is seen at some check, and every check before it was within the time-out. */
  ghost predicate SeenInTime(houses: nat -> House, node: string, target: LockState, start: real, clock: nat -> real) {
    exists k: nat :: Reports(houses(k), node, target) && forall j: nat :: j < k ==> clock(j) < start + TIMEOUT
  }

  /** `houses(k)` is the household at the k-th check: anything may change while it sleeps. */
  method WaitForState(houses: nat -> House, node: string, target: LockState, start: real, clock: nat -> real)
    returns (ok: bool, checks: nat)
    requires Ticks(start, clock)
    ensures 1 <= checks <= 21
    ensures ok <==> Reports(houses(checks - 1), node, target)
    ensures forall k: nat :: k < checks - 1 ==> !Reports(houses(k), node, target) && clock(k) < start + TIMEOUT
    ensures !ok ==> clock(checks - 1) >= start + TIMEOUT
    ensures ok <==> SeenInTime(houses, node, target, start, clock)
  {
    var deadline := start + TIMEOUT;
    checks := 0;
    while true
      invariant 0 <= checks <= 20
      invariant forall k: nat :: k < checks ==> !Reports(houses(k), node, target) && clock(k) < deadline
      decreases 21 - checks
    {
      checks := checks + 1;
      if Reports(houses(checks - 1), node, target) {
        return true, checks;
      }
      if clock(checks - 1) >= deadline {
        return false, checks;
      }
      TicksAddUp(start, clock, checks - 1);
    }
  }

  // ---- what it waits for ----

  /** The target code is found at some check as that of the node's freshest lock report, and every
      check before it was less than ten seconds in. */
  ghost predicate CodeSeenInTime(houses: nat -> House, node: string, code: int, start: real, clock: nat -> real) {
    exists k: nat :: CodeIsFresh(houses(k), node, code) && forall j: nat :: j < k ==> clock(j) < start + 10.0
  }

  predicate CodeIsFresh(s: House, node: string, code: int) {
    node in s.nodes && FreshCode(s.nodes[node]) == Some(code)
  }

  /** A lock command waits for code 1, an unlock command for code 0. */
  lemma SeenIffCode(houses: nat -> House, node: string, locking: bool, start: real, clock: nat -> real)
    ensures SeenInTime(houses, node, if locking then Locked else Unlocked, start, clock)
       <==> CodeSeenInTime(houses, node, if locking then 1 else 0, start, clock)
  {
    var target, code := if locking then Locked else Unlocked, if locking then 1 else 0;
    forall k: nat ensures Reports(houses(k), node, target) <==> CodeIsFresh(houses(k), node, code) {
      if node in houses(k).nodes {
        FreshCodeReads(houses(k).nodes[node]);
      }
    }
  }

  /** When each sleep takes just the half second asked for, a target is confirmed iff it is there at one
      of 21 checks: seen first 9.5 s in, or at the tenth second, it still is. */
  lemma EvenChecks(houses: nat -> House, node: string, target: LockState, start: real, clock: nat -> real)
    requires forall k: nat :: clock(k) == start + 0.5 * k as real
    ensures Ticks(start, clock)
    ensures SeenInTime(houses, node, target, start, clock)
       <==> exists k: nat :: k <= 20 && Reports(houses(k), node, target)
  {
    var last: nat := 20;
    assert clock(last) == start + 10.0;
    if SeenInTime(houses, node, target, start, clock) {
      var k: nat :| Reports(houses(k), node, target) && forall j: nat :: j < k ==> clock(j) < start + TIMEOUT;
      assert k <= last;
    }
  }

  datatype Outcome = NotSent | NotConfirmed | Confirmed

  /** Fails closed: a command that could not be built, or that the transport did not take, is not
      waited for. A published one is confirmed exactly when the node was seen in the asked-for
      state in time. */
  method Send(client: Commands.MqttClient, mac: Mac, household: string, node: string, key: Bytes, locking: bool,
              ts: int, reqId: string, draws: nat -> string, up: bool,
              houses: nat -> House, start: real, clock: nat -> real)
    returns (outcome: Outcome)
    requires Ticks(start, clock)
    modifies client`published, client.nonces
    ensures var action := if locking then LOCK else UNLOCK;
            var r := Commands.Build(mac, key, action, ts, None, reqId, client.nonces.window, old(client.nonces.seen),
                draws).0;
            && (outcome.NotSent? <==> r.Rejected? || !up)
            && client.nonces.seen == Commands.Build(mac, key, action, ts, None, reqId, client.nonces.window,
                old(client.nonces.seen), draws).1
            && client.published == old(client.published) + (if r.Rejected? || !up then [] else
                 [Commands.Publication(Topics.Tree(household, node) + "/command/" + action,
                                       Document(JObj(Commands.Fields(r.value))), 1, false)])
    ensures !outcome.NotSent? ==>
              (outcome.Confirmed? <==> CodeSeenInTime(houses, node, if locking then 1 else 0, start, clock))
  {
    var action := if locking then LOCK else UNLOCK;
    var target := if locking then Locked else Unlocked;
    if key == [] {
      return NotSent;
    }
    var command := client.PublishCommand(mac, household, node, key, action, ts, reqId, draws, up);
    if command.Rejected? {
      return NotSent;
    }
    SeenIffCode(houses, node, locking, start, clock);
    var ok, _ := WaitForState(houses, node, target, start, clock);
    outcome := if ok then Confirmed else NotConfirmed;
  }

  /** Over the node's own API: a command the node did not take is not waited for. One it took is
      followed by a poll whose failure does not matter, and confirmed like any other. */
  method SendDirect(poller: DirectPoller.DirectPoller, taken: bool, node: string, locking: bool, fetch: Poller.Fetch,
                    at: nat -> Moment, houses: nat -> House, start: real, clock: nat -> real)
    returns (outcome: Outcome)
    requires Ticks(start, clock) && poller.Valid()
    modifies poller, poller.coordinator, poller.coordinator.nodes.Values
    ensures poller.Valid() && (outcome.NotSent? <==> !taken)
    ensures poller.Model()
         == if taken then Poller.PollOnce(poller.coordinator.env, old(poller.Model()), fetch, at).0
             else old(poller.Model())
    ensures taken ==>
              (outcome.Confirmed? <==> CodeSeenInTime(houses, node, if locking then 1 else 0, start, clock))
  {
    if !taken {
      return NotSent;
    }
    var _ := poller.PollOnce(fetch, at);
    SeenIffCode(houses, node, locking, start, clock);
    var ok, _ := WaitForState(houses, node, if locking then Locked else Unlocked, start, clock);
    outcome := if ok then Confirmed else NotConfirmed;
  }
}
