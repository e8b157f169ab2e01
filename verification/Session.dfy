/** Client and verifiers together: one client, with one nonce tracker, builds commands for every
    node of a household; each node checks what reaches it against its own replay window. Delivery
    to a node is in order and without loss, and repeats as an at-least-once transport may. */
module Session {
  import opened Json
  import opened Lists
  import opened Models
  import opened Topics
  import opened Canonical
  import opened Commands
  import opened Firmware

  /** The shared key, the hash and the household. */
  datatype Link = Link(mac: Mac, key: Bytes, household: string)

  datatype Issued = Issued(node: string, action: string, command: Command)

  /** What the tracker holds, every command built, how many each node was delivered, what each
      node's window holds, and every command some node acted on. */
  datatype Session = Session(
    held: seq<string>, issued: seq<Issued>, delivered: map<string, nat>, seen: map<string, seq<string>>,
    acted: seq<Issued>)
  {
    function Delivered(n: string): nat {
      if n in delivered then delivered[n] else 0
    }

    function Seen(n: string): seq<string> {
      if n in seen then seen[n] else []
    }
  }

  const START: Session := Session([], [], map[], map[], [])

  datatype Event =
    | Order(node: string, action: string, ts: int, reqId: string, draws: nat -> string)
    | Deliver(node: string, now: Option<int>)
    | Redeliver(node: string, which: nat, now: Option<int>)

  /** The commands for one node, in order. */
  function To(issued: seq<Issued>, n: string): seq<Issued> {
    if issued == [] then []
    else
      var last := issued[|issued| - 1];
      if last.node == n then To(issued[..|issued| - 1], n) + [last] else To(issued[..|issued| - 1], n)
  }

  function Nonces(issued: seq<Issued>): seq<string> {
    seq(|issued|, i requires 0 <= i < |issued| => issued[i].command.nonce)
  }

  function Sent(link: Link, i: Issued, now: Option<int>): Attempt {
    Attempt(NodeBase(link.household, i.node), CommandTopic(link.household, i.node, i.action),
            Document(JObj(Fields(i.command))), now)
  }

  /** A command reaches its node, which acts on it or does not. */
  function Arrive(link: Link, s: Session, i: Issued, now: Option<int>): Session {
    var a := Sent(link, i, now);
    var v := Judge(link.mac, link.key, s.Seen(i.node), a);
    s.(seen := s.seen[i.node := Firmware.Seen(link.mac, link.key, s.Seen(i.node), a)],
       acted := if v.Accept? then s.acted + [Issued(i.node, v.action, i.command)] else s.acted)
  }

  /** What an event can be: the client draws tokens; the next command for a node arrives with the
      clocks within 300 s, or one of the last 32 delivered to it arrives again. */
  ghost predicate CanHappen(s: Session, e: Event) {
    match e
    case Order(_, _, _, reqId, draws) => Token(reqId) && forall k :: Token(draws(k))
    case Deliver(n, now) =>
      s.Delivered(n) < |To(s.issued, n)| && InTime(To(s.issued, n)[s.Delivered(n)].command.ts, now)
    case Redeliver(n, which, _) =>
      which < s.Delivered(n) <= |To(s.issued, n)| && s.Delivered(n) - which <= REPLAY_WINDOW
  }

  function Happen(link: Link, s: Session, e: Event): Session {
    match e
    case Order(n, action, ts, reqId, draws) =>
      var (r, held) := Build(link.mac, link.key, action, ts, None, reqId, REPLAY_WINDOW, s.held, draws);
      s.(held := held, issued := if r.Ok? then s.issued + [Issued(n, action, r.value)] else s.issued)
    case Deliver(n, now) =>
      if s.Delivered(n) < |To(s.issued, n)| then
        Arrive(link, s, To(s.issued, n)[s.Delivered(n)], now).(delivered := s.delivered[n := s.Delivered(n) + 1])
      else s
    case Redeliver(n, which, now) =>
      if which < |To(s.issued, n)| then Arrive(link, s, To(s.issued, n)[which], now) else s
  }

  function RunSession(link: Link, events: seq<Event>): Session {
    if events == [] then START
    else Happen(link, RunSession(link, events[..|events| - 1]), events[|events| - 1])
  }

  ghost predicate Possible(link: Link, events: seq<Event>) {
    events == []
    || (&& Possible(link, events[..|events| - 1])
        && CanHappen(RunSession(link, events[..|events| - 1]), events[|events| - 1]))
  }

  // ---- commands and nodes ----

  lemma ToAppend(issued: seq<Issued>, i: Issued, n: string)
    ensures To(issued + [i], n) == if i.node == n then To(issued, n) + [i] else To(issued, n)
  {
    assert (issued + [i])[..|issued|] == issued;
  }

  lemma {:induction false} ToIsFrom(issued: seq<Issued>, n: string, k: nat) returns (p: nat)
    requires k < |To(issued, n)|
    ensures p < |issued| && issued[p] == To(issued, n)[k] && issued[p].node == n
  {
    var before := issued[..|issued| - 1];
    if k < |To(before, n)| {
      p := ToIsFrom(before, n, k);
    } else {
      p := |issued| - 1;
    }
  }

  predicate ByClient(link: Link, i: Issued) {
    && IsAction(i.action) && Token(i.command.nonce) && Token(i.command.reqId) && link.key != []
    && i.command == Sign(link.mac, link.key, i.command.ts, i.command.nonce, i.command.reqId, i.action)
  }

  /** The tracker recalls every nonce issued, and what was issued is what the client builds. */
  ghost predicate Sound(link: Link, s: Session) {
    s.held == Recall(REPLAY_WINDOW, Nonces(s.issued)) && forall i :: i in s.issued ==> ByClient(link, i)
  }

  /** A node's window is the nonces of the last 32 commands it acted on. */
  ghost predicate SoundAt(s: Session, n: string) {
    && s.Delivered(n) <= |To(s.issued, n)|
    && s.Seen(n) == Last(REPLAY_WINDOW, Nonces(To(s.acted, n)))
  }

  /** An order is turned into exactly one command, for its node, action and time, unless the action
      is unknown, the key is missing, or eight draws in a row are still held. */
  lemma OrdersAreIssued(link: Link, s: Session, e: Event)
    requires e.Order? && CanHappen(s, e)
    ensures var s' := Happen(link, s, e);
            if IsAction(e.action) && link.key != [] && FirstFresh(s.held, e.draws, 0).Some?
            then exists i :: && s' == s.(held := Remembered(REPLAY_WINDOW, s.held, i.command.nonce),
                                         issued := s.issued + [i])
                             && ByClient(link, i) && i.node == e.node && i.action == e.action && i.command.ts == e.ts
                             && i.command.reqId == e.reqId && i.command.nonce !in s.held
                             && FirstFresh(s.held, e.draws, 0) == Some(i.command.nonce)
            else s' == s
  {
    BuildsUnlessStuck(link.mac, link.key, e.action, e.ts, e.reqId, REPLAY_WINDOW, s.held, e.draws);
    if IsAction(e.action) && link.key != [] && FirstFresh(s.held, e.draws, 0).Some? {
      var r := Build(link.mac, link.key, e.action, e.ts, None, e.reqId, REPLAY_WINDOW, s.held, e.draws).0;
      var i := Issued(e.node, e.action, r.value);
      assert ByClient(link, i);
      assert Happen(link, s, e).issued == s.issued + [i];
    }
  }

  lemma RecallAppend(nonces: seq<string>, nonce: string)
    ensures Recall(REPLAY_WINDOW, nonces + [nonce]) == Remembered(REPLAY_WINDOW, Recall(REPLAY_WINDOW, nonces), nonce)
  {
    assert (nonces + [nonce])[..|nonces|] == nonces;
  }

  lemma IssuedIsSound(link: Link, s: Session, i: Issued)
    requires Sound(link, s) && ByClient(link, i)
    ensures Sound(link, s.(held := Remembered(REPLAY_WINDOW, s.held, i.command.nonce), issued := s.issued + [i]))
  {
    RecallAppend(Nonces(s.issued), i.command.nonce);
    assert Nonces(s.issued + [i]) == Nonces(s.issued) + [i.command.nonce];
  }

  lemma StepIsSound(link: Link, s: Session, e: Event)
    requires Sound(link, s) && CanHappen(s, e)
    ensures Sound(link, Happen(link, s, e))
  {
    var s' := Happen(link, s, e);
    if e.Order? {
      OrdersAreIssued(link, s, e);
      if s' != s {
        var i :| s' == s.(held := Remembered(REPLAY_WINDOW, s.held, i.command.nonce), issued := s.issued + [i])
                 && ByClient(link, i);
        IssuedIsSound(link, s, i);
      }
    } else {
      assert s'.issued == s.issued && s'.held == s.held;
    }
  }

  // ---- one command at its node ----

  lemma CommandTopicNamesAction(household: string, n: string, action: string)
    requires IsAction(action)
    ensures ActionForTopic(NodeBase(household, n), CommandTopic(household, n, action)) == Some(action)
  {
    var base := NodeBase(household, n);
    LockTopic(base);
    assert base + "/" + CMD_LOCK == base + "/command/lock";
    assert base + "/" + CMD_UNLOCK == base + "/command/unlock";
  }

  /** What a node sees of an issued command: signed for its topic, with its own fields. */
  lemma SentIsSigned(link: Link, i: Issued, now: Option<int>)
    requires ByClient(link, i) && Digests(link.mac)
    ensures var a := Sent(link, i, now);
            && Signed(link.mac, link.key, a) && Presented(a.payload) == i.command && a.now == now
            && ActionForTopic(a.base, a.topic) == Some(i.action)
  {
    FieldsArePresented(i.command);
    CommandTopicNamesAction(link.household, i.node, i.action);
  }

  /** How a node with this window judges an issued command. */
  lemma JudgedByNonce(link: Link, seen: seq<string>, i: Issued, now: Option<int>)
    requires ByClient(link, i) && Digests(link.mac)
    ensures Judge(link.mac, link.key, seen, Sent(link, i, now))
         == if !InTime(i.command.ts, now) then Reject(OutsideWindow)
            else if i.command.nonce in seen then Reject(Replayed) else Accept(i.action)
    ensures Presented(Sent(link, i, now).payload) == i.command
  {
    SentIsSigned(link, i, now);
  }

  /** A node acts on an issued command, with the action it was ordered for, exactly when it arrives
      in time and its nonce is not in the node's window. */
  lemma ArrivesIff(link: Link, s: Session, i: Issued, now: Option<int>)
    requires ByClient(link, i) && Digests(link.mac)
    ensures var s' := Arrive(link, s, i, now);
            if InTime(i.command.ts, now) && i.command.nonce !in s.Seen(i.node)
            then s' == s.(seen := s.seen[i.node := Trim(s.Seen(i.node) + [i.command.nonce])], acted := s.acted + [i])
            else s' == s.(seen := s.seen[i.node := s.Seen(i.node)])
  {
    JudgedByNonce(link, s.Seen(i.node), i, now);
  }

  lemma WindowSlides(seen: seq<string>, acts: seq<Issued>, i: Issued)
    requires seen == Last(REPLAY_WINDOW, Nonces(acts))
    ensures Trim(seen + [i.command.nonce]) == Last(REPLAY_WINDOW, Nonces(acts + [i]))
  {
    TrimKeepsLast(Nonces(acts), i.command.nonce);
    assert Nonces(acts + [i]) == Nonces(acts) + [i.command.nonce];
  }

  lemma ActedIsSoundAt(s: Session, i: Issued, n: string)
    requires SoundAt(s, n)
    ensures SoundAt(s.(seen := s.seen[i.node := Trim(s.Seen(i.node) + [i.command.nonce])], acted := s.acted + [i]), n)
  {
    ToAppend(s.acted, i, n);
    if i.node == n {
      WindowSlides(s.Seen(n), To(s.acted, n), i);
    }
  }

  lemma ArriveIsSoundAt(link: Link, s: Session, i: Issued, now: Option<int>, n: string)
    requires ByClient(link, i) && Digests(link.mac) && SoundAt(s, n)
    ensures SoundAt(Arrive(link, s, i, now), n)
  {
    ArrivesIff(link, s, i, now);
    ActedIsSoundAt(s, i, n);
  }

  lemma StepIsSoundAt(link: Link, s: Session, e: Event, n: string)
    requires Sound(link, s) && SoundAt(s, n) && CanHappen(s, e) && Digests(link.mac)
    ensures SoundAt(Happen(link, s, e), n)
  {
    var s' := Happen(link, s, e);
    if e.Order? {
      if s' != s {
        OrdersAreIssued(link, s, e);
        var i :| s'.issued == s.issued + [i];
        ToAppend(s.issued, i, n);
      }
    } else {
      var k := if e.Deliver? then s.Delivered(e.node) else e.which;
      var _ := ToIsFrom(s.issued, e.node, k);
      ArriveIsSoundAt(link, s, To(s.issued, e.node)[k], e.now, n);
    }
  }

  lemma {:induction false} SessionsAreSound(link: Link, events: seq<Event>, n: string)
    requires Digests(link.mac) && Possible(link, events)
    ensures Sound(link, RunSession(link, events)) && SoundAt(RunSession(link, events), n)
  {
    if events != [] {
      var before, e := events[..|events| - 1], events[|events| - 1];
      SessionsAreSound(link, before, n);
      StepIsSound(link, RunSession(link, before), e);
      StepIsSoundAt(link, RunSession(link, before), e, n);
    }
  }

  /** After any session, with any number of nodes, handing an issued command to its node - for the
      first time or again - is acted on exactly when it is in time and its nonce is not among those
      of the last 32 commands the node acted on; the action is the one ordered. */
  lemma ActedOnIff(link: Link, events: seq<Event>, i: Issued, now: Option<int>)
    requires Digests(link.mac) && Possible(link, events)
    ensures var s := RunSession(link, events);
            var v := Judge(link.mac, link.key, s.Seen(i.node), Sent(link, i, now));
            i in s.issued ==>
              && (v.Accept? <==> InTime(i.command.ts, now)
                                 && i.command.nonce !in Last(REPLAY_WINDOW, Nonces(To(s.acted, i.node))))
              && (v.Accept? ==> v.action == i.action)
  {
    SessionsAreSound(link, events, i.node);
    if i in RunSession(link, events).issued {
      JudgedByNonce(link, RunSession(link, events).Seen(i.node), i, now);
    }
  }

  // ---- when the shared tracker is enough ----

  /** The tracker still holds the nonces of the last 32 commands for the node. */
  predicate Covers(s: Session, n: string) {
    var recent := Last(REPLAY_WINDOW, Nonces(To(s.issued, n)));
    forall k :: 0 <= k < |recent| ==> recent[k] in s.held
  }

  /** An order for node `n` that repeats a nonce of the last 32 commands for it. */
  ghost predicate Repeats(link: Link, s: Session, n: string, e: Event) {
    && e.Order? && e.node == n && CanHappen(s, e)
    && var s' := Happen(link, s, e);
       |s'.issued| > |s.issued|
       && s'.issued[|s.issued|].command.nonce in Last(REPLAY_WINDOW, Nonces(To(s.issued, n)))
  }

  lemma NonceIsIssued(link: Link, s: Session, n: string, k: nat)
    requires Sound(link, s) && k < |Last(REPLAY_WINDOW, Nonces(To(s.issued, n)))|
    ensures Token(Last(REPLAY_WINDOW, Nonces(To(s.issued, n)))[k]) && link.key != []
  {
    var nonces := Nonces(To(s.issued, n));
    var j := |nonces| - |Last(REPLAY_WINDOW, nonces)| + k;
    var p := ToIsFrom(s.issued, n, j);
    assert ByClient(link, s.issued[p]);
    assert Last(REPLAY_WINDOW, nonces)[k] == nonces[j] == To(s.issued, n)[j].command.nonce;
  }

  lemma UncoveredRepeats(link: Link, s: Session, n: string, k: nat) returns (e: Event)
    requires Sound(link, s) && k < |Last(REPLAY_WINDOW, Nonces(To(s.issued, n)))|
    requires Last(REPLAY_WINDOW, Nonces(To(s.issued, n)))[k] !in s.held
    ensures Repeats(link, s, n, e)
  {
    var x := Last(REPLAY_WINDOW, Nonces(To(s.issued, n)))[k];
    NonceIsIssued(link, s, n, k);
    e := Order(n, LOCK, 0, x, _ => x);
    assert FirstFresh(s.held, e.draws, 0) == Some(x);
    OrdersAreIssued(link, s, e);
  }

  /** The shared tracker keeps the next command for a node from repeating a nonce of its last 32
      exactly when it still holds all of them: otherwise some draw repeats one. */
  lemma CoversIff(link: Link, s: Session, n: string)
    requires Sound(link, s)
    ensures Covers(s, n) <==> !exists e :: Repeats(link, s, n, e)
  {
    var recent := Last(REPLAY_WINDOW, Nonces(To(s.issued, n)));
    if Covers(s, n) {
      forall e ensures !Repeats(link, s, n, e) {
        if e.Order? && CanHappen(s, e) && Happen(link, s, e) != s {
          OrdersAreIssued(link, s, e);
        }
      }
    } else {
      var k :| 0 <= k < |recent| && recent[k] !in s.held;
      var e := UncoveredRepeats(link, s, n, k);
    }
  }

  lemma {:induction false} ToOfSum(a: seq<Issued>, b: seq<Issued>, n: string)
    ensures To(a + b, n) == To(a, n) + To(b, n)
  {
    if b == [] {
      assert a + b == a;
    } else {
      var front, last := b[..|b| - 1], b[|b| - 1];
      ToOfSum(a, front, n);
      assert a + b == (a + front) + [last] && b == front + [last];
      ToAppend(a + front, last, n);
      ToAppend(front, last, n);
      assert (To(a, n) + To(front, n)) + [last] == To(a, n) + (To(front, n) + [last]);
    }
  }

  /** The last `h` commands in all include the last 32 for the node, or all of them. */
  predicate Reaches(s: Session, n: string, h: nat) {
    var own := To(Last(h, s.issued), n);
    |own| >= REPLAY_WINDOW || own == To(s.issued, n)
  }

  lemma OwnAmongLast(issued: seq<Issued>, n: string, h: nat, k: nat)
    requires h <= |issued| && k < |To(Last(h, issued), n)|
    ensures To(Last(h, issued), n)[k].command.nonce in Last(h, Nonces(issued))
  {
    var last := Last(h, issued);
    var p := ToIsFrom(last, n, k);
    assert Last(h, Nonces(issued))[p] == last[p].command.nonce;
  }

  lemma LastOfLonger(h: nat, k: nat, s: seq<string>, x: string)
    requires h <= k && x in Last(h, s)
    ensures x in Last(k, s)
  {
    var p :| 0 <= p < |Last(h, s)| && Last(h, s)[p] == x;
    LastHolds(k, s, |s| - |Last(h, s)| + p);
  }

  lemma RecentIsLast(front: seq<Issued>, own: seq<Issued>, k: nat) returns (m: nat)
    requires (|own| >= REPLAY_WINDOW || front == []) && k < |Last(REPLAY_WINDOW, Nonces(front + own))|
    ensures m < |own| && own[m].command.nonce == Last(REPLAY_WINDOW, Nonces(front + own))[k]
  {
    var mine := front + own;
    var j := |mine| - |Last(REPLAY_WINDOW, Nonces(mine))| + k;
    m := j - |front|;
    assert Last(REPLAY_WINDOW, Nonces(mine))[k] == mine[j].command.nonce;
    assert mine[j] == own[m];
  }

  /** The recent commands for a node are the end of those the reach includes. */
  lemma RecentIsReached(s: Session, n: string, h: nat, k: nat) returns (m: nat)
    requires h <= |s.issued| && Reaches(s, n, h) && k < |Last(REPLAY_WINDOW, Nonces(To(s.issued, n)))|
    ensures m < |To(Last(h, s.issued), n)|
    ensures To(Last(h, s.issued), n)[m].command.nonce == Last(REPLAY_WINDOW, Nonces(To(s.issued, n)))[k]
  {
    var cut := |s.issued| - h;
    assert Last(h, s.issued) == s.issued[cut..] && s.issued == s.issued[..cut] + s.issued[cut..];
    ToOfSum(s.issued[..cut], s.issued[cut..], n);
    var front, own := To(s.issued[..cut], n), To(s.issued[cut..], n);
    assert own == front + own ==> front == [] by {
      assert |front + own| == |front| + |own|;
    }
    m := RecentIsLast(front, own, k);
  }

  lemma CoveredByReach(link: Link, s: Session, n: string, h: nat)
    requires Sound(link, s) && h <= |s.held| && Reaches(s, n, h)
    ensures Covers(s, n)
  {
    var nonces, recent := Nonces(s.issued), Last(REPLAY_WINDOW, Nonces(To(s.issued, n)));
    RecallIsEnd(REPLAY_WINDOW, nonces);
    forall k | 0 <= k < |recent| ensures recent[k] in s.held {
      var m := RecentIsReached(s, n, h, k);
      OwnAmongLast(s.issued, n, h, m);
      LastOfLonger(h, |s.held|, nonces, recent[k]);
    }
  }

  /** A bound a caller can count: the shared tracker is enough while at most 64 commands have been
      built in all, or while the last 33 in all include the last 32 for the node. */
  lemma CoveredWhenRecent(link: Link, s: Session, n: string)
    requires Sound(link, s) && (|s.issued| <= 2 * REPLAY_WINDOW || Reaches(s, n, REPLAY_WINDOW + 1))
    ensures Covers(s, n)
  {
    RecallIsEnd(REPLAY_WINDOW, Nonces(s.issued));
    if |s.issued| <= 2 * REPLAY_WINDOW {
      assert Last(|s.issued|, s.issued) == s.issued;
      CoveredByReach(link, s, n, |s.held|);
    } else {
      CoveredByReach(link, s, n, REPLAY_WINDOW + 1);
    }
  }

  lemma {:induction false} AllForOne(issued: seq<Issued>, n: string)
    requires forall k :: 0 <= k < |issued| ==> issued[k].node == n
    ensures To(issued, n) == issued
  {
    if issued != [] {
      AllForOne(issued[..|issued| - 1], n);
    }
  }

  /** So in a household of one node it always is. */
  lemma OneNodeIsCovered(link: Link, s: Session, n: string)
    requires Sound(link, s) && forall k :: 0 <= k < |s.issued| ==> s.issued[k].node == n
    ensures Covers(s, n)
  {
    AllForOne(s.issued, n);
    var recent := Last(REPLAY_WINDOW + 1, s.issued);
    AllForOne(recent, n);
    CoveredWhenRecent(link, s, n);
  }

  // ---- covered sessions ----

  /** Every order is made while the tracker covers its node. */
  predicate Covered(link: Link, events: seq<Event>) {
    events == []
    || (&& Covered(link, events[..|events| - 1])
        && var e := events[|events| - 1];
           e.Order? ==> Covers(RunSession(link, events[..|events| - 1]), e.node))
  }

  /** Any 33 consecutive elements differ. */
  predicate LocallyDistinct(s: seq<string>) {
    forall i, j :: 0 <= i < j < |s| && j - i <= REPLAY_WINDOW ==> s[i] != s[j]
  }

  /** A node's recent nonces differ, and it acted on exactly what it was delivered. */
  ghost predicate Agree(s: Session, n: string) {
    AgreeOn(To(s.issued, n), To(s.acted, n), s.Delivered(n))
  }

  predicate AgreeOn(mine: seq<Issued>, acts: seq<Issued>, delivered: nat) {
    delivered <= |mine| && LocallyDistinct(Nonces(mine)) && acts == mine[..delivered]
  }

  lemma DistinctAppend(nonces: seq<string>, nonce: string)
    requires LocallyDistinct(nonces) && nonce !in Last(REPLAY_WINDOW, nonces)
    ensures LocallyDistinct(nonces + [nonce])
  {
    forall i | 0 <= i < |nonces| && |nonces| - i <= REPLAY_WINDOW ensures nonces[i] != nonce {
      LastHolds(REPLAY_WINDOW, nonces, i);
    }
  }

  lemma NextDiffers(nonces: seq<string>, d: nat)
    requires LocallyDistinct(nonces) && d < |nonces|
    ensures nonces[d] !in Last(REPLAY_WINDOW, nonces[..d])
  {
    var last := Last(REPLAY_WINDOW, nonces[..d]);
    forall k | 0 <= k < |last| ensures last[k] != nonces[d] {
      assert last[k] == nonces[d - |last| + k];
    }
  }

  lemma NoncesOfPrefix(issued: seq<Issued>, d: nat)
    requires d <= |issued|
    ensures Nonces(issued[..d]) == Nonces(issued)[..d]
  {
  }

  lemma AgreeOnMore(mine: seq<Issued>, acts: seq<Issued>, delivered: nat, i: Issued)
    requires AgreeOn(mine, acts, delivered) && i.command.nonce !in Last(REPLAY_WINDOW, Nonces(mine))
    ensures AgreeOn(mine + [i], acts, delivered)
  {
    DistinctAppend(Nonces(mine), i.command.nonce);
    assert Nonces(mine + [i]) == Nonces(mine) + [i.command.nonce];
    assert (mine + [i])[..delivered] == mine[..delivered];
  }

  lemma OrderAgrees(link: Link, s: Session, e: Event, n: string)
    requires Agree(s, n) && e.Order? && CanHappen(s, e) && Covers(s, e.node)
    ensures Agree(Happen(link, s, e), n)
  {
    OrdersAreIssued(link, s, e);
    var s' := Happen(link, s, e);
    if s' != s {
      var i :| s' == s.(held := Remembered(REPLAY_WINDOW, s.held, i.command.nonce), issued := s.issued + [i])
               && i.node == e.node && i.command.nonce !in s.held;
      ToAppend(s.issued, i, n);
      if i.node == n {
        AgreeOnMore(To(s.issued, n), To(s.acted, n), s.Delivered(n), i);
      }
    }
  }

  lemma NextIsNew(s: Session, n: string)
    requires SoundAt(s, n) && Agree(s, n) && s.Delivered(n) < |To(s.issued, n)|
    ensures To(s.issued, n)[s.Delivered(n)].command.nonce !in s.Seen(n)
  {
    var mine, d := To(s.issued, n), s.Delivered(n);
    NextDiffers(Nonces(mine), d);
    NoncesOfPrefix(mine, d);
  }

  lemma OwnIsByClient(link: Link, s: Session, n: string, k: nat)
    requires Sound(link, s) && k < |To(s.issued, n)|
    ensures ByClient(link, To(s.issued, n)[k]) && To(s.issued, n)[k].node == n
  {
    var p := ToIsFrom(s.issued, n, k);
  }

  /** The next command for a node is acted on. */
  lemma NextIsActedOn(link: Link, s: Session, n: string, now: Option<int>)
    requires Sound(link, s) && SoundAt(s, n) && Agree(s, n) && CanHappen(s, Deliver(n, now)) && Digests(link.mac)
    ensures var i := To(s.issued, n)[s.Delivered(n)];
            && Judge(link.mac, link.key, s.Seen(n), Sent(link, i, now)) == Accept(i.action) && i.node == n
            && Happen(link, s, Deliver(n, now))
               == s.(seen := s.seen[n := Trim(s.Seen(n) + [i.command.nonce])], acted := s.acted + [i],
                     delivered := s.delivered[n := s.Delivered(n) + 1])
  {
    var i := To(s.issued, n)[s.Delivered(n)];
    NextIsNew(s, n);
    OwnIsByClient(link, s, n, s.Delivered(n));
    JudgedByNonce(link, s.Seen(n), i, now);
    ArrivesIff(link, s, i, now);
  }

  /** One of the last 32 commands delivered to a node is not acted on again, whatever its clock
      says. */
  lemma RedeliveryIsRefused(link: Link, s: Session, n: string, which: nat, now: Option<int>)
    requires Sound(link, s) && SoundAt(s, n) && Agree(s, n) && CanHappen(s, Redeliver(n, which, now)) &&
        Digests(link.mac)
    ensures var i := To(s.issued, n)[which];
            && !Judge(link.mac, link.key, s.Seen(n), Sent(link, i, now)).Accept?
            && Happen(link, s, Redeliver(n, which, now)) == s.(seen := s.seen[n := s.Seen(n)])
  {
    var mine, d := To(s.issued, n), s.Delivered(n);
    var _ := ToIsFrom(s.issued, n, which);
    NoncesOfPrefix(mine, d);
    LastHolds(REPLAY_WINDOW, Nonces(mine)[..d], which);
    JudgedByNonce(link, s.Seen(n), mine[which], now);
    ArrivesIff(link, s, mine[which], now);
  }

  lemma AgreeOnNext(mine: seq<Issued>, acts: seq<Issued>, delivered: nat)
    requires AgreeOn(mine, acts, delivered) && delivered < |mine|
    ensures AgreeOn(mine, acts + [mine[delivered]], delivered + 1)
  {
    assert mine[..delivered + 1] == mine[..delivered] + [mine[delivered]];
  }

  /** Node `m` acts on its next command: every node still acted on exactly what it was delivered. */
  lemma ActingAgrees(s: Session, m: string, seen: map<string, seq<string>>, n: string)
    requires Agree(s, m) && Agree(s, n) && s.Delivered(m) < |To(s.issued, m)|
    ensures var i := To(s.issued, m)[s.Delivered(m)];
            i.node == m ==>
              Agree(s.(seen := seen, acted := s.acted + [i], delivered := s.delivered[m := s.Delivered(m) + 1]), n)
  {
    ToAppend(s.acted, To(s.issued, m)[s.Delivered(m)], n);
    if m == n {
      AgreeOnNext(To(s.issued, n), To(s.acted, n), s.Delivered(n));
    }
  }

  lemma StepAgrees(link: Link, s: Session, e: Event, n: string)
    requires Sound(link, s) && SoundAt(s, e.node) && Agree(s, e.node) && Agree(s, n)
    requires CanHappen(s, e) && (e.Order? ==> Covers(s, e.node)) && Digests(link.mac)
    ensures Agree(Happen(link, s, e), n)
  {
    if e.Order? {
      OrderAgrees(link, s, e, n);
    } else if e.Deliver? {
      var i := To(s.issued, e.node)[s.Delivered(e.node)];
      NextIsActedOn(link, s, e.node, e.now);
      ActingAgrees(s, e.node, s.seen[e.node := Trim(s.Seen(e.node) + [i.command.nonce])], n);
    } else {
      RedeliveryIsRefused(link, s, e.node, e.which, e.now);
    }
  }

  lemma {:induction false} SessionsAgree(link: Link, events: seq<Event>, n: string)
    requires Digests(link.mac) && Possible(link, events) && Covered(link, events)
    ensures Agree(RunSession(link, events), n)
    decreases |events|
  {
    if events != [] {
      var before, e := events[..|events| - 1], events[|events| - 1];
      SessionsAgree(link, before, n);
      SessionsAgree(link, before, e.node);
      SessionsAreSound(link, before, e.node);
      StepAgrees(link, RunSession(link, before), e, n);
    }
  }

  /** Exactly once, and in order: while every order is made under cover, however orders, deliveries
      and recent redeliveries interleave and however far delivery lags behind, each node acts on
      the commands it was delivered one by one, with the action each was ordered for, and on
      nothing else. */
  lemma ExactlyOnceInOrder(link: Link, events: seq<Event>, n: string)
    requires Digests(link.mac) && Possible(link, events) && Covered(link, events)
    ensures var s := RunSession(link, events);
            s.Delivered(n) <= |To(s.issued, n)| && To(s.acted, n) == To(s.issued, n)[..s.Delivered(n)]
  {
    SessionsAgree(link, events, n);
  }

  /** Every command built under cover is acted on when it is first delivered in time. */
  lemma EveryCommandIsAccepted(link: Link, events: seq<Event>, n: string, now: Option<int>)
    requires Digests(link.mac) && Possible(link, events) && Covered(link, events)
    ensures var s := RunSession(link, events);
            CanHappen(s, Deliver(n, now)) ==>
              var i := To(s.issued, n)[s.Delivered(n)];
              Judge(link.mac, link.key, s.Seen(n), Sent(link, i, now)) == Accept(i.action)
  {
    SessionsAgree(link, events, n);
    SessionsAreSound(link, events, n);
    if CanHappen(RunSession(link, events), Deliver(n, now)) {
      NextIsActedOn(link, RunSession(link, events), n, now);
    }
  }

  /** Once everything is delivered to a covered node, the tracker holds all its window holds. */
  lemma TrackerCoversWindow(link: Link, events: seq<Event>, n: string, nonce: string)
    requires Digests(link.mac) && Possible(link, events) && Covered(link, events)
    requires Covers(RunSession(link, events), n)
    ensures var s := RunSession(link, events);
            s.Delivered(n) == |To(s.issued, n)| && nonce in s.Seen(n) ==> nonce in s.held
  {
    var s := RunSession(link, events);
    SessionsAgree(link, events, n);
    SessionsAreSound(link, events, n);
    if s.Delivered(n) == |To(s.issued, n)| && nonce in s.Seen(n) {
      DeliveredIsCovered(s, n, nonce);
    }
  }

  lemma DeliveredIsCovered(s: Session, n: string, nonce: string)
    requires Covers(s, n) && SoundAt(s, n) && Agree(s, n)
    requires s.Delivered(n) == |To(s.issued, n)| && nonce in s.Seen(n)
    ensures nonce in s.held
  {
    var mine := To(s.issued, n);
    assert mine[..|mine|] == mine;
  }

  // ---- a session beyond the bound ----

  /** The k-th of a hundred different tokens. */
  function Name(k: nat): (s: string)
    requires k < 100
    ensures Token(s)
  {
    [Digit(k / 10), Digit(k % 10)] + seq(30, i => '0')
  }

  lemma NamesDiffer(j: nat, k: nat)
    requires j < 100 && k < 100 && Name(j) == Name(k)
    ensures j == k
  {
    assert Name(j)[0] == Digit(j / 10) && Name(j)[1] == Digit(j % 10);
    assert Name(k)[0] == Digit(k / 10) && Name(k)[1] == Digit(k % 10);
  }

  function Names(k: nat): seq<string>
    requires k <= 100
  {
    seq(k, i requires 0 <= i < k => Name(i))
  }

  /** An order for `n` whose every draw is the j-th token. */
  function OrderTo(n: string, j: nat): Event
    requires j < 100
  {
    Order(n, LOCK, 0, Name(0), _ => Name(j))
  }

  /** One command for "A", and then as many as it takes for "B". */
  function Busy(k: nat): seq<Event>
    requires k <= 100
  {
    seq(k, i requires 0 <= i < k => OrderTo(if i == 0 then "A" else "B", i))
  }

  function BusyCommand(link: Link, i: nat): Issued
    requires i < 100
  {
    Issued(if i == 0 then "A" else "B", LOCK, Sign(link.mac, link.key, 0, Name(i), Name(0), LOCK))
  }

  function BusyIssued(link: Link, k: nat): seq<Issued>
    requires k <= 100
  {
    seq(k, i requires 0 <= i < k => BusyCommand(link, i))
  }

  function BusySession(link: Link, k: nat): Session
    requires k <= 100
  {
    START.(held := Recall(REPLAY_WINDOW, Names(k)), issued := BusyIssued(link, k))
  }

  lemma NameIsNotHeld(j: nat, k: nat)
    requires j < 100 && k <= 100 && (j >= k || j + 2 * REPLAY_WINDOW < k)
    ensures Name(j) !in Recall(REPLAY_WINDOW, Names(k))
  {
    var held := Recall(REPLAY_WINDOW, Names(k));
    RecallIsEnd(REPLAY_WINDOW, Names(k));
    forall p | 0 <= p < |held| ensures held[p] != Name(j) {
      var i := k - |held| + p;
      assert held[p] == Names(k)[i] == Name(i);
      if Name(i) == Name(j) {
        NamesDiffer(i, j);
      }
    }
  }

  lemma BusyStep(link: Link, k: nat, n: string, j: nat)
    requires k < 100 && j < 100 && link.key != [] && (j >= k || j + 2 * REPLAY_WINDOW < k)
    ensures var s, e := BusySession(link, k), OrderTo(n, j);
            && CanHappen(s, e)
            && Happen(link, s, e) == s.(held := Remembered(REPLAY_WINDOW, s.held, Name(j)),
                                        issued := s.issued + [Issued(n, LOCK, Sign(link.mac, link.key, 0, Name(j),
                                            Name(0), LOCK))])
  {
    NameIsNotHeld(j, k);
    var s, e := BusySession(link, k), OrderTo(n, j);
    assert FirstFresh(s.held, e.draws, 0) == Some(Name(j));
  }

  lemma BusyGrows(link: Link, k: nat)
    requires k < 100
    ensures Busy(k + 1)[k] == OrderTo(if k == 0 then "A" else "B", k)
    ensures Names(k + 1) == Names(k) + [Name(k)]
    ensures BusyIssued(link, k + 1) == BusyIssued(link, k) + [BusyCommand(link, k)]
  {
  }

  lemma BusyHappens(link: Link, k: nat)
    requires k < 100 && link.key != []
    ensures CanHappen(BusySession(link, k), Busy(k + 1)[k])
    ensures Happen(link, BusySession(link, k), Busy(k + 1)[k]) == BusySession(link, k + 1)
  {
    BusyGrows(link, k);
    BusyStep(link, k, if k == 0 then "A" else "B", k);
    RecallAppend(Names(k), Name(k));
  }

  lemma {:induction false} BusyRun(link: Link, k: nat)
    requires k <= 100 && link.key != []
    ensures Possible(link, Busy(k)) && RunSession(link, Busy(k)) == BusySession(link, k)
  {
    if k > 0 {
      BusyRun(link, k - 1);
      BusyHappens(link, k - 1);
      assert Busy(k)[..k - 1] == Busy(k - 1);
    } else {
      assert Names(0) == [] && BusyIssued(link, 0) == [];
    }
  }

  lemma {:induction false} BusyToA(link: Link, k: nat)
    requires 1 <= k <= 100
    ensures To(BusyIssued(link, k), "A") == [BusyCommand(link, 0)]
  {
    var i := k - 1;
    assert BusyIssued(link, k) == BusyIssued(link, i) + [BusyCommand(link, i)];
    ToAppend(BusyIssued(link, i), BusyCommand(link, i), "A");
    if i > 0 {
      BusyToA(link, i);
    } else {
      assert BusyIssued(link, 0) == [];
    }
  }

  /** The busy orders, and then one for "A" whose draw repeats the first. */
  function Forgetful(): seq<Event> {
    Busy(65) + [OrderTo("A", 0)]
  }

  lemma ForgetfulRun(link: Link)
    requires link.key != []
    ensures Possible(link, Forgetful())
    ensures var s := RunSession(link, Forgetful());
            && To(s.issued, "A") == [BusyCommand(link, 0), BusyCommand(link, 0)]
            && s.delivered == map[] && s.seen == map[] && s.acted == []
  {
    BusyRun(link, 65);
    BusyStep(link, 65, "A", 0);
    assert Forgetful()[..65] == Busy(65);
    BusyToA(link, 65);
    ToAppend(BusyIssued(link, 65), BusyCommand(link, 0), "A");
  }

  lemma TwiceToA(link: Link, s: Session, i: Issued)
    requires Digests(link.mac) && ByClient(link, i) && i.node == "A" && i.command.ts == 0
    requires To(s.issued, "A") == [i, i] && s.delivered == map[] && s.seen == map[]
    ensures CanHappen(s, Deliver("A", Some(0)))
    ensures var t := Happen(link, s, Deliver("A", Some(0)));
            && t.issued == s.issued && t.Delivered("A") == 1 && t.Seen("A") == [i.command.nonce]
  {
    ArrivesIff(link, s, i, Some(0));
  }

  /** The bound is needed: after 64 commands for another node the tracker has forgotten a nonce the
      node's window still holds, and the node refuses a command the client built for it. */
  lemma SharedTrackerForgets(link: Link)
    requires Digests(link.mac) && link.key != []
    ensures var events := Forgetful() + [Deliver("A", Some(0))];
            var s := RunSession(link, events);
            && Possible(link, events) && CanHappen(s, Deliver("A", Some(0)))
            && Judge(link.mac, link.key, s.Seen("A"), Sent(link, To(s.issued, "A")[1], Some(0))) == Reject(Replayed)
  {
    var events, i := Forgetful() + [Deliver("A", Some(0))], BusyCommand(link, 0);
    ForgetfulRun(link);
    assert events[..|events| - 1] == Forgetful();
    TwiceToA(link, RunSession(link, Forgetful()), i);
    JudgedByNonce(link, [i.command.nonce], i, Some(0));
  }
}
