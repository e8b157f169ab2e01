/** Entities for nodes as they are discovered (discovery.py), and their unique ids (const.py). */
module Discovery {
  import opened Household
  import opened Json
  import opened Models
  import opened Lists

  // ---- one platform's pass over the registry ----

  /** What a platform remembers and has done: the ids it tracks, the factory calls in order, and
      the batches of entities it added. */
  datatype Platform<E> = Platform(seen: set<string>, called: seq<string>, batches: seq<seq<E>>)

  /** A pass under way: also the entities made by it so far. */
  datatype Tracking<E> = Tracking(seen: set<string>, called: seq<string>, made: seq<E>)

  function Visit<E>(factory: string -> seq<E>, t: Tracking<E>, n: string): Tracking<E> {
    if n in t.seen then t else Tracking(t.seen + {n}, t.called + [n], t.made + factory(n))
  }

  function VisitAll<E>(factory: string -> seq<E>, t: Tracking<E>, order: seq<string>): Tracking<E> {
    if order == [] then t
    else Visit(factory, VisitAll(factory, t, order[..|order| - 1]), order[|order| - 1])
  }

  function Pass<E>(factory: string -> seq<E>, p: Platform<E>, order: seq<string>): Platform<E> {
    var t := VisitAll(factory, Tracking(p.seen, p.called, []), order);
    Platform(t.seen, t.called, if t.made == [] then p.batches else p.batches + [t.made])
  }

  class NodeEntities<E(==)> {
    const factory: string -> seq<E>
    var seen: set<string>
    var called: seq<string>
    var batches: seq<seq<E>>

    ghost function Model(): Platform<E>
      reads this
    {
      Platform(seen, called, batches)
    }

    constructor (factory: string -> seq<E>)
      ensures this.factory == factory && Model() == Platform({}, [], [])
    {
      this.factory, seen, called, batches := factory, {}, [], [];
    }

    /** `order` is the registry's ids in the order it yields them. */
    method AddNewNodes(order: seq<string>)
      modifies this
      ensures Model() == Pass(factory, old(Model()), order)
    {
      var entities: seq<E> := [];
      ghost var start := Tracking(seen, called, entities);
      for k := 0 to |order|
        invariant batches == old(batches)
        invariant Tracking(seen, called, entities) == VisitAll(factory, start, order[..k])
      {
        assert order[..k + 1][..k] == order[..k];
        if order[k] !in seen {
          seen := seen + {order[k]};
          called := called + [order[k]];
          entities := entities + factory(order[k]);
        }
      }
      assert order[..|order|] == order;
      if entities != [] {
        batches := batches + [entities];
      }
    }
  }

  // ---- over a run ----

  /** The passes made so far: one at set-up, then one per notification. */
  function Passes<E>(factory: string -> seq<E>, orders: seq<seq<string>>): Platform<E> {
    if orders == [] then Platform({}, [], [])
    else Pass(factory, Passes(factory, orders[..|orders| - 1]), orders[|orders| - 1])
  }

  predicate Enumerates(order: seq<string>, ids: set<string>) {
    (forall n :: n in ids ==> n in order) && (forall k :: 0 <= k < |order| ==> order[k] in ids)
  }

  /** The factory calls are the ids tracked, each once. */
  ghost predicate OncePerId(called: seq<string>, seen: set<string>) {
    Distinct(called) && forall n :: n in called <==> n in seen
  }

  lemma {:induction false} VisitsOncePerId<E>(factory: string -> seq<E>, t: Tracking<E>, order: seq<string>)
    requires OncePerId(t.called, t.seen)
    ensures var t' := VisitAll(factory, t, order); OncePerId(t'.called, t'.seen)
  {
    if order != [] {
      VisitsOncePerId(factory, t, order[..|order| - 1]);
    }
  }

  lemma {:induction false} VisitTracks<E>(factory: string -> seq<E>, t: Tracking<E>, order: seq<string>, n: string)
    ensures n in VisitAll(factory, t, order).seen <==> n in t.seen || n in order
  {
    if order != [] {
      VisitTracks(factory, t, order[..|order| - 1], n);
      assert order == order[..|order| - 1] + [order[|order| - 1]];
    }
  }

  /** The factory runs once for every id tracked, and for nothing else. */
  lemma {:induction false} CalledOncePerId<E>(factory: string -> seq<E>, orders: seq<seq<string>>)
    ensures OncePerId(Passes(factory, orders).called, Passes(factory, orders).seen)
  {
    if orders != [] {
      var p := Passes(factory, orders[..|orders| - 1]);
      CalledOncePerId(factory, orders[..|orders| - 1]);
      VisitsOncePerId(factory, Tracking(p.seen, p.called, []), orders[|orders| - 1]);
    }
  }

  /** The ids tracked are those some pass met. */
  lemma {:induction false} TrackedIsMet<E>(factory: string -> seq<E>, orders: seq<seq<string>>, n: string)
    ensures n in Passes(factory, orders).seen <==> exists k :: 0 <= k < |orders| && n in orders[k]
  {
    if orders != [] {
      var before := orders[..|orders| - 1];
      var p := Passes(factory, before);
      TrackedIsMet(factory, before, n);
      VisitTracks(factory, Tracking(p.seen, p.called, []), orders[|orders| - 1], n);
      if k :| 0 <= k < |before| && n in before[k] {
        assert n in orders[k];
      }
    }
  }

  function Made<E>(factory: string -> seq<E>, ids: seq<string>): seq<E> {
    if ids == [] then [] else Made(factory, ids[..|ids| - 1]) + factory(ids[|ids| - 1])
  }

  function Flatten<E>(batches: seq<seq<E>>): seq<E> {
    if batches == [] then [] else Flatten(batches[..|batches| - 1]) + batches[|batches| - 1]
  }

  /** Every factory call of a pass ends up in its batch. */
  lemma {:induction false} VisitMakes<E>(factory: string -> seq<E>, t: Tracking<E>, order: seq<string>, earlier: seq<E>)
    requires Made(factory, t.called) == earlier + t.made
    ensures var t' := VisitAll(factory, t, order); Made(factory, t'.called) == earlier + t'.made
  {
    if order != [] {
      VisitMakes(factory, t, order[..|order| - 1], earlier);
      var u, n := VisitAll(factory, t, order[..|order| - 1]), order[|order| - 1];
      assert (u.called + [n])[..|u.called|] == u.called;
      assert earlier + u.made + factory(n) == earlier + (u.made + factory(n));
    }
  }

  /** Nothing the factory makes is lost or added twice, and no empty batch is added. */
  lemma {:induction false} EverythingMadeIsAdded<E>(factory: string -> seq<E>, orders: seq<seq<string>>)
    ensures var p := Passes(factory, orders);
            Flatten(p.batches) == Made(factory, p.called) && [] !in p.batches
  {
    if orders != [] {
      var before, order := orders[..|orders| - 1], orders[|orders| - 1];
      EverythingMadeIsAdded(factory, before);
      var p := Passes(factory, before);
      VisitMakes(factory, Tracking(p.seen, p.called, []), order, Made(factory, p.called));
    }
  }

  /** The ids notified of never shrink, from the registry at set-up to the one at the end. */
  lemma {:induction false} NoticesGrow(env: Env, s: House, tape: seq<Arrival>)
    ensures var t := Run(env, s, tape);
            && |s.notices| <= |t.notices| && s.nodes.Keys <= t.nodes.Keys
            && (forall i :: |s.notices| <= i < |t.notices| ==> s.nodes.Keys <= t.notices[i].ids <= t.nodes.Keys)
            && (forall i, j :: |s.notices| <= i < j < |t.notices| ==> t.notices[i].ids <= t.notices[j].ids)
  {
    if tape != [] {
      NoticesGrow(env, s, tape[..|tape| - 1]);
    }
  }

  /** One enumeration of the registry at set-up, then one at each notification of the run. */
  ghost predicate Enumerated(s: House, t: House, orders: seq<seq<string>>) {
    && |s.notices| <= |t.notices| && |orders| == 1 + |t.notices| - |s.notices|
    && Enumerates(orders[0], s.nodes.Keys)
    && forall k :: |s.notices| <= k < |t.notices| ==> Enumerates(orders[k - |s.notices| + 1], t.notices[k].ids)
  }

  /** The registry a platform was last told of. */
  function LastTold(s: House, t: House): set<string> {
    if |t.notices| <= |s.notices| then s.nodes.Keys else t.notices[|t.notices| - 1].ids
  }

  /** However the run goes, and whatever order the registry is enumerated in, after every
      notification the ids the factory was called for - each exactly once - are the ids of the
      registry that was notified of. */
  lemma EntitiesFollowRegistry<E>(env: Env, s: House, tape: seq<Arrival>, factory: string -> seq<E>,
      orders: seq<seq<string>>)
    requires Enumerated(s, Run(env, s, tape), orders)
    ensures var called := Passes(factory, orders).called;
            Distinct(called) && forall n :: n in called <==> n in LastTold(s, Run(env, s, tape))
  {
    var t := Run(env, s, tape);
    NoticesGrow(env, s, tape);
    CalledOncePerId(factory, orders);
    forall n ensures n in Passes(factory, orders).called <==> n in LastTold(s, t) {
      TrackedIsMet(factory, orders, n);
      LastOrder(s, t, orders, n);
      if k :| 0 <= k < |orders| && n in orders[k] {
        MetIsTold(env, s, tape, orders, n, k);
      }
    }
  }

  lemma LastOrder(s: House, t: House, orders: seq<seq<string>>, n: string)
    requires Enumerated(s, t, orders)
    ensures n in LastTold(s, t) ==> n in orders[|orders| - 1]
  {
    if |orders| > 1 {
      assert Enumerates(orders[|t.notices| - 1 - |s.notices| + 1], t.notices[|t.notices| - 1].ids);
    }
  }

  lemma MetIsTold(env: Env, s: House, tape: seq<Arrival>, orders: seq<seq<string>>, n: string, k: nat)
    requires Enumerated(s, Run(env, s, tape), orders) && k < |orders| && n in orders[k]
    ensures n in LastTold(s, Run(env, s, tape))
  {
    var t := Run(env, s, tape);
    NoticesGrow(env, s, tape);
    if k > 0 {
      var i := |s.notices| + k - 1;
      assert Enumerates(orders[i - |s.notices| + 1], t.notices[i].ids);
      assert n in t.notices[i].ids;
    }
  }

  // ---- unique ids ----

  datatype Entity =
    | Lock | OnlineSensor | HealthSensor | BackupSensor | SecuritySensor | FirmwareSensor | LastAuthSensor
    | GuestAccess | GuestValidity | GuestTags | GuestTeach | GuestCancel | BackupNow

  function Suffix(e: Entity): string {
    match e
    case Lock => "lock"
    case OnlineSensor => "online"
    case HealthSensor => "health"
    case BackupSensor => "backup"
    case SecuritySensor => "security"
    case FirmwareSensor => "firmware"
    case LastAuthSensor => "last_auth"
    case GuestAccess => "guest_access"
    case GuestValidity => "guest_validity"
    case GuestTags => "guest_tags"
    case GuestTeach => "guest_teach"
    case GuestCancel => "guest_cancel"
    case BackupNow => "backup_now"
  }

  function UniqueId(household: string, node: string, e: Entity): string {
    household + "_" + node + "_" + Suffix(e)
  }

  /** Reading a suffix back. */
  function EntityOf(suffix: string): Option<Entity> {
    match suffix
    case "lock" => Some(Lock)
    case "online" => Some(OnlineSensor)
    case "health" => Some(HealthSensor)
    case "backup" => Some(BackupSensor)
    case "security" => Some(SecuritySensor)
    case "firmware" => Some(FirmwareSensor)
    case "last_auth" => Some(LastAuthSensor)
    case "guest_access" => Some(GuestAccess)
    case "guest_validity" => Some(GuestValidity)
    case "guest_tags" => Some(GuestTags)
    case "guest_teach" => Some(GuestTeach)
    case "guest_cancel" => Some(GuestCancel)
    case "backup_now" => Some(BackupNow)
    case _ => None
  }

  /** The thirteen suffixes. */
  lemma SuffixIff(suffix: string, e: Entity)
    ensures EntityOf(suffix) == Some(e) <==> suffix == Suffix(e)
  {
  }

  lemma SuffixIsInjective(a: Entity, b: Entity)
    requires Suffix(a) == Suffix(b)
    ensures a == b
  {
    SuffixIff(Suffix(a), a);
    SuffixIff(Suffix(b), b);
  }

  /** The word after an underscore in a suffix starts as no suffix does. */
  lemma AfterUnderscore(e: Entity, i: nat)
    requires i < |Suffix(e)| && Suffix(e)[i] == '_'
    ensures i + 1 < |Suffix(e)| && Suffix(e)[i + 1] in "avtcn"
  {
  }

  lemma SuffixStarts(e: Entity)
    ensures Suffix(e) != "" && Suffix(e)[0] !in "avtcn"
  {
  }

  /** No suffix ends in an underscore and another suffix. */
  lemma NoSuffixEndsInAnother(a: Entity, b: Entity, front: string)
    ensures Suffix(a) != front + "_" + Suffix(b)
  {
    var s := front + "_" + Suffix(b);
    SuffixStarts(b);
    assert s[|front|] == '_' && s[|front| + 1] == Suffix(b)[0];
    if Suffix(a) == s {
      AfterUnderscore(a, |front|);
    }
  }

  lemma DropHousehold(h: string, n: string, x: string, m: string, y: string)
    requires h + "_" + n + "_" + x == h + "_" + m + "_" + y
    ensures n + "_" + x == m + "_" + y
  {
    var front := h + "_";
    assert h + "_" + n + "_" + x == front + (n + "_" + x);
    assert h + "_" + m + "_" + y == front + (m + "_" + y);
    assert n + "_" + x == (front + (n + "_" + x))[|front|..];
    assert m + "_" + y == (front + (m + "_" + y))[|front|..];
  }

  /** Of two endings of one text, each after an underscore, the longer ends in the shorter. */
  lemma LongerEnding(n: string, x: string, m: string, y: string) returns (front: string)
    requires n + "_" + x == m + "_" + y
    ensures |x| < |y| ==> y == front + "_" + x
    ensures |x| == |y| ==> n == m && x == y
  {
    front := "";
    var s := n + "_" + x;
    assert s[|n| + 1..] == x && s[|m| + 1..] == y && s[..|n|] == n && s[..|m|] == m && s[|n|] == '_';
    if |x| < |y| {
      var cut := |y| - |x| - 1;
      front := y[..cut];
      assert y[cut] == s[|n|] && y[cut + 1..] == x;
      assert y == y[..cut] + [y[cut]] + y[cut + 1..];
    }
  }

  lemma NodeAndSuffix(n: string, a: Entity, m: string, b: Entity)
    requires n + "_" + Suffix(a) == m + "_" + Suffix(b) && |Suffix(a)| <= |Suffix(b)|
    ensures n == m && a == b
  {
    var front := LongerEnding(n, Suffix(a), m, Suffix(b));
    NoSuffixEndsInAnother(b, a, front);
    SuffixIsInjective(a, b);
  }

  /** Within a household a unique id tells the node and the entity, although node ids may
      themselves contain underscores. */
  lemma UniqueIdIsInjective(household: string, n: string, a: Entity, m: string, b: Entity)
    requires UniqueId(household, n, a) == UniqueId(household, m, b)
    ensures n == m && a == b
  {
    DropHousehold(household, n, Suffix(a), m, Suffix(b));
    if |Suffix(a)| <= |Suffix(b)| {
      NodeAndSuffix(n, a, m, b);
    } else {
      NodeAndSuffix(m, b, n, a);
    }
  }

  /** Across households it does not: an underscore may belong to either id. */
  lemma HouseholdsMayClash(household: string, middle: string, node: string, e: Entity)
    ensures UniqueId(household + "_" + middle, node, e) == UniqueId(household, middle + "_" + node, e)
  {
    assert household + "_" + middle + "_" + node == household + "_" + (middle + "_" + node);
  }

  /** Exactly when two unique ids are one text: the same entity, of nodes whose household and node
      ids join to one text. */
  lemma UniqueIdsEqualIff(household: string, n: string, a: Entity, household': string, m: string, b: Entity)
    ensures UniqueId(household, n, a) == UniqueId(household', m, b)
       <==> a == b && household + "_" + n == household' + "_" + m
  {
    if UniqueId(household, n, a) == UniqueId(household', m, b) {
      if |Suffix(a)| <= |Suffix(b)| {
        NodeAndSuffix(household + "_" + n, a, household' + "_" + m, b);
      } else {
        NodeAndSuffix(household' + "_" + m, b, household + "_" + n, a);
      }
    }
  }

  lemma FirstUnderscore(household: string, n: string)
    requires '_' !in household
    ensures var s := household + "_" + n;
            s[|household|] == '_' && forall i :: 0 <= i < |household| ==> s[i] != '_'
  {
    forall i | 0 <= i < |household| ensures household[i] != '_' {
      assert household[i] in household;
    }
  }

  /** So no ids clash between households whose ids have no underscore. */
  lemma PlainHouseholdsNeverClash(household: string, n: string, a: Entity, household': string, m: string, b: Entity)
    requires '_' !in household && '_' !in household' && UniqueId(household, n, a) == UniqueId(household', m, b)
    ensures household == household' && n == m && a == b
  {
    UniqueIdsEqualIff(household, n, a, household', m, b);
    FirstUnderscore(household, n);
    FirstUnderscore(household', m);
    assert |household| == |household'|;
    var s := household + "_" + n;
    assert s[..|household|] == household && s[..|household'|] == household';
    UniqueIdIsInjective(household, n, a, m, b);
  }
}
