/** Non-interference: what happens to one node depends on the messages naming it, and on nothing
    else that is delivered in between. */
module Isolation {
  import opened Json
  import opened Models
  import opened Household

  function CausesFor(log: seq<Entry>, n: string): seq<Cause> {
    if log == [] then []
    else
      var last := log[|log| - 1].cause;
      CausesFor(log[..|log| - 1], n) + (if last.node == n then [last] else [])
  }

  /** Two households agree on a node: its registration, its record and its log entries. */
  predicate SameFor(s: House, t: House, n: string) {
    && (n in s.nodes <==> n in t.nodes)
    && NodeOf(s, n) == NodeOf(t, n)
    && CausesFor(s.log, n) == CausesFor(t.log, n)
  }

  lemma AppendCause(log: seq<Entry>, e: Entry, n: string)
    ensures CausesFor(log + [e], n) == CausesFor(log, n) + (if e.cause.node == n then [e.cause] else [])
  {
    assert (log + [e])[..|log|] == log;
  }

  function StepCause(env: Env, s: House, a: Arrival): Option<Cause> {
    if a.Accepted? then CauseFor(env, a.node, NodeOf(s, a.node), a.report, a.at) else None
  }

  lemma StepCauses(env: Env, s: House, a: Arrival, n: string)
    ensures CausesFor(Step(env, s, a).log, n)
         == CausesFor(s.log, n)
          + (if StepCause(env, s, a).Some? && a.at.Logs() && a.node == n then [StepCause(env, s, a).value] else [])
  {
    var cause := StepCause(env, s, a);
    if cause.Some? && a.at.Logs() {
      assert Step(env, s, a).log == s.log + [Entry(cause.value, s.contexts)];
      AppendCause(s.log, Entry(cause.value, s.contexts), n);
    }
  }

  /** A message about another node, or about none, is invisible to this one. */
  lemma StepOther(env: Env, s: House, a: Arrival, n: string)
    requires !About(a, n)
    ensures SameFor(Step(env, s, a), s, n)
  {
    StepNode(env, s, a, n);
    StepCauses(env, s, a, n);
  }

  lemma StepSame(env: Env, s: House, t: House, a: Arrival, n: string)
    requires SameFor(s, t, n)
    ensures SameFor(Step(env, s, a), Step(env, t, a), n)
  {
    StepNode(env, s, a, n);
    StepNode(env, t, a, n);
    StepCauses(env, s, a, n);
    StepCauses(env, t, a, n);
  }

  predicate Names(env: Env, d: Delivery, n: string) {
    d.message.household == env.household && d.message.node == Some(n)
  }

  /** The deliveries naming this household and this node, in order. */
  function Only(env: Env, ds: seq<Delivery>, n: string): seq<Delivery> {
    if ds == [] then []
    else
      var last := ds[|ds| - 1];
      Only(env, ds[..|ds| - 1], n) + (if Names(env, last, n) then [last] else [])
  }

  lemma HandleLast(env: Env, s: House, ds: seq<Delivery>, d: Delivery)
    ensures HandleAll(env, s, ds + [d]) == Step(env, HandleAll(env, s, ds), Read(env, d))
  {
    var tape := ReadAll(env, ds + [d]);
    assert tape[..|tape| - 1] == ReadAll(env, ds);
  }

  lemma OneDelivery(env: Env, s: House, d: Delivery)
    ensures HandleAll(env, s, [d]) == Step(env, s, Read(env, d))
  {
    assert [] + [d] == [d];
    HandleLast(env, s, [], d);
  }

  lemma OnlyStep(env: Env, ds: seq<Delivery>, d: Delivery, n: string)
    ensures Only(env, ds + [d], n) == if Names(env, d, n) then Only(env, ds, n) + [d] else Only(env, ds, n)
  {
    assert (ds + [d])[..|ds|] == ds;
  }

  lemma UnnamedIsOther(env: Env, s: House, d: Delivery, n: string)
    requires !Names(env, d, n)
    ensures SameFor(Step(env, s, Read(env, d)), s, n)
  {
    StepOther(env, s, Read(env, d), n);
  }

  /** A node's record and log entries after any run are those of the run restricted to the
      messages naming it. */
  lemma {:induction false} NonInterference(env: Env, s: House, ds: seq<Delivery>, n: string)
    ensures SameFor(HandleAll(env, s, ds), HandleAll(env, s, Only(env, ds, n)), n)
  {
    if ds != [] {
      var front, d := ds[..|ds| - 1], ds[|ds| - 1];
      assert ds == front + [d];
      NonInterference(env, s, front, n);
      HandleLast(env, s, front, d);
      OnlyStep(env, front, d, n);
      if Names(env, d, n) {
        HandleLast(env, s, Only(env, front, n), d);
        StepSame(env, HandleAll(env, s, front), HandleAll(env, s, Only(env, front, n)), Read(env, d), n);
      } else {
        UnnamedIsOther(env, HandleAll(env, s, front), d, n);
      }
    }
  }

  /** Deliveries for different nodes commute: two runs that agree node by node on the messages
      naming it end with the same registry and the same entries for every node. */
  lemma InterleavingIsIrrelevant(env: Env, s: House, ds: seq<Delivery>, es: seq<Delivery>)
    requires forall n :: Only(env, ds, n) == Only(env, es, n)
    ensures HandleAll(env, s, ds).nodes == HandleAll(env, s, es).nodes
    ensures forall n :: CausesFor(HandleAll(env, s, ds).log, n) == CausesFor(HandleAll(env, s, es).log, n)
  {
    var a, b := HandleAll(env, s, ds), HandleAll(env, s, es);
    forall n
      ensures n in a.nodes <==> n in b.nodes
      ensures NodeOf(a, n) == NodeOf(b, n)
      ensures CausesFor(a.log, n) == CausesFor(b.log, n)
    {
      assert Only(env, ds, n) == Only(env, es, n);
      NonInterference(env, s, ds, n);
      NonInterference(env, s, es, n);
    }
    assert forall n :: n in a.nodes ==> a.nodes[n] == NodeOf(a, n) == b.nodes[n];
  }
}
