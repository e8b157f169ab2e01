/** The node's side of the command protocol as tools/integration/firmware_verifier.py restates
    it, and what its bounded replay window gives over whole runs. */
module Firmware {
  import opened Json
  import opened Lists
  import opened Models
  import opened Canonical
  import opened Commands

  const MAX_SKEW: int := 300

  datatype Reason =
    | UnknownTopic | Malformed | NotObject | BadTimestamp | BadText | BadMac
    | MacMismatch | OutsideWindow | Replayed

  /** `Crashed`: the constant-time comparison raises a TypeError on text that is not ASCII. */
  datatype Verdict = Accept(action: string) | Reject(reason: Reason) | Crashed

  /** What is presented, and the wall clock just then (None when there is none). */
  datatype Attempt = Attempt(base: string, topic: string, payload: Payload, now: Option<int>)

  function ActionForTopic(base: string, topic: string): Option<string> {
    if topic == base + "/command/unlock" then Some(UNLOCK)
    else if topic == base + "/command/lock" then Some(LOCK)
    else None
  }

  predicate InTime(ts: int, now: Option<int>) {
    now.Some? ==> -MAX_SKEW <= ts - now.value <= MAX_SKEW
  }

  /** The payload has the four fields, each of its type. */
  predicate HasFields(p: Payload) {
    && p.Document? && p.json.JObj?
    && Get(p.json.fields, "ts").JInt? && Get(p.json.fields, "nonce").JStr?
    && Get(p.json.fields, "req_id").JStr? && Get(p.json.fields, "mac").JStr?
  }

  function Presented(p: Payload): Command
    requires HasFields(p)
  {
    var doc := p.json.fields;
    Command(Get(doc, "ts").n, Get(doc, "nonce").text, Get(doc, "req_id").text, Get(doc, "mac").text)
  }

  /** The checks in order, on the nonces seen so far. */
  function Judge(mac: Mac, key: Bytes, seen: seq<string>, a: Attempt): Verdict {
    var action := ActionForTopic(a.base, a.topic);
    if action.None? then Reject(UnknownTopic)
    else if a.payload.Text? then Reject(Malformed)
    else if !a.payload.json.JObj? then Reject(NotObject)
    else
      var doc := a.payload.json.fields;
      if !Get(doc, "ts").JInt? then Reject(BadTimestamp)
      else if !Get(doc, "nonce").JStr? || !Get(doc, "req_id").JStr? then Reject(BadText)
      else if !Get(doc, "mac").JStr? then Reject(BadMac)
      else
        var c := Presented(a.payload);
        var expected := mac(key, CanonicalInput(c.ts, c.nonce, c.reqId, action.value));
        if !Ascii(expected) || !Ascii(c.mac) then Crashed
        else if expected != c.mac then Reject(MacMismatch)
        else if !InTime(c.ts, a.now) then Reject(OutsideWindow)
        else if c.nonce in seen then Reject(Replayed)
        else Accept(action.value)
  }

  function Trim(seen: seq<string>): seq<string> {
    if |seen| > REPLAY_WINDOW then seen[1..] else seen
  }

  function Seen(mac: Mac, key: Bytes, seen: seq<string>, a: Attempt): seq<string> {
    if Judge(mac, key, seen, a).Accept? then Trim(seen + [Presented(a.payload).nonce]) else seen
  }

  class FirmwareVerifier {
    const mac: Mac
    const key: Bytes
    var now: Option<int>
    var seenNonces: seq<string>

    constructor (mac: Mac, key: Bytes, now: Option<int>)
      ensures this.mac == mac && this.key == key && this.now == now && seenNonces == []
    {
      this.mac, this.key, this.now, seenNonces := mac, key, now, [];
    }

    method Verify(base: string, topic: string, payload: Payload) returns (v: Verdict)
      modifies this`seenNonces
      ensures v == Judge(mac, key, old(seenNonces), Attempt(base, topic, payload, now))
      ensures seenNonces == Seen(mac, key, old(seenNonces), Attempt(base, topic, payload, now))
    {
      var action := ActionForTopic(base, topic);
      if action.None? {
        return Reject(UnknownTopic);
      }
      if payload.Text? {
        return Reject(Malformed);
      }
      if !payload.json.JObj? {
        return Reject(NotObject);
      }
      var data := payload.json.fields;
      var ts, nonce, reqId, tag := Get(data, "ts"), Get(data, "nonce"), Get(data, "req_id"), Get(data, "mac");
      if !ts.JInt? {
        return Reject(BadTimestamp);
      }
      if !nonce.JStr? || !reqId.JStr? {
        return Reject(BadText);
      }
      if !tag.JStr? {
        return Reject(BadMac);
      }
      var expected := mac(key, CanonicalInput(ts.n, nonce.text, reqId.text, action.value));
      if !Ascii(expected) || !Ascii(tag.text) {
        return Crashed;
      }
      if expected != tag.text {
        return Reject(MacMismatch);
      }
      if now.Some? {
        var skew := ts.n - now.value;
        if skew < -MAX_SKEW || skew > MAX_SKEW {
          return Reject(OutsideWindow);
        }
      }
      if nonce.text in seenNonces {
        return Reject(Replayed);
      }
      seenNonces := seenNonces + [nonce.text];
      if |seenNonces| > REPLAY_WINDOW {
        seenNonces := seenNonces[1..];
      }
      v := Accept(action.value);
    }
  }

  // ---- runs ----

  datatype Acceptance = Acceptance(action: string, command: Command, now: Option<int>)

  function SeenAfter(mac: Mac, key: Bytes, attempts: seq<Attempt>): seq<string> {
    if attempts == [] then []
    else Seen(mac, key, SeenAfter(mac, key, attempts[..|attempts| - 1]), attempts[|attempts| - 1])
  }

  /** What a run accepted, in order. */
  function Acceptances(mac: Mac, key: Bytes, attempts: seq<Attempt>): seq<Acceptance> {
    if attempts == [] then []
    else
      var before, a := attempts[..|attempts| - 1], attempts[|attempts| - 1];
      var v := Judge(mac, key, SeenAfter(mac, key, before), a);
      Acceptances(mac, key, before) + if v.Accept? then [Acceptance(v.action, Presented(a.payload), a.now)] else []
  }

  function NoncesOf(acc: seq<Acceptance>): seq<string> {
    seq(|acc|, i requires 0 <= i < |acc| => acc[i].command.nonce)
  }

  lemma TrimKeepsLast(s: seq<string>, x: string)
    ensures Trim(Last(REPLAY_WINDOW, s) + [x]) == Last(REPLAY_WINDOW, s + [x])
  {
  }

  /** The replay window holds the nonces of the last 32 acceptances, oldest first; whatever is
      not accepted leaves it alone. */
  lemma {:induction false} WindowIsLastAccepted(mac: Mac, key: Bytes, attempts: seq<Attempt>)
    ensures SeenAfter(mac, key, attempts) == Last(REPLAY_WINDOW, NoncesOf(Acceptances(mac, key, attempts)))
  {
    if attempts != [] {
      var before, a := attempts[..|attempts| - 1], attempts[|attempts| - 1];
      WindowIsLastAccepted(mac, key, before);
      if Judge(mac, key, SeenAfter(mac, key, before), a).Accept? {
        var nonces := NoncesOf(Acceptances(mac, key, before));
        TrimKeepsLast(nonces, Presented(a.payload).nonce);
        assert NoncesOf(Acceptances(mac, key, attempts)) == nonces + [Presented(a.payload).nonce];
      }
    }
  }

  /** Signed for its topic: all four fields, and the MAC of the topic's action over them. */
  predicate Signed(mac: Mac, key: Bytes, a: Attempt) {
    && ActionForTopic(a.base, a.topic).Some? && HasFields(a.payload)
    && var c := Presented(a.payload);
       && c.mac == mac(key, CanonicalInput(c.ts, c.nonce, c.reqId, ActionForTopic(a.base, a.topic).value))
       && Ascii(c.mac)
  }

  lemma LockTopic(base: string)
    ensures ActionForTopic(base, base + "/command/lock") == Some(LOCK)
    ensures ActionForTopic(base, base + "/command/unlock") == Some(UNLOCK)
  {
    var n := |base|;
    assert |base + "/command/lock"| == n + 13 && |base + "/command/unlock"| == n + 15;
  }

  /** Signed, spelled out: the topic is one of the base's two, and the MAC is that of the time in
      decimal, the nonce, the request id and the topic's word, one after the other. */
  lemma SignedIff(mac: Mac, key: Bytes, a: Attempt, numeral: string)
    requires HasFields(a.payload) && SignedNumeral(numeral) && NumberOf(numeral) == Presented(a.payload).ts
    ensures var c := Presented(a.payload);
            var text := numeral + c.nonce + c.reqId;
            Signed(mac, key, a)
            <==> && (|| (a.topic == a.base + "/command/lock" && c.mac == mac(key, text + "lock"))
                     || (a.topic == a.base + "/command/unlock" && c.mac == mac(key, text + "unlock")))
                 && (forall i :: 0 <= i < |c.mac| ==> c.mac[i] as int <= 127)
  {
    DecimalIff(Presented(a.payload).ts, numeral);
    LockTopic(a.base);
  }

  /** After any run, a command is accepted exactly when it is signed for its topic, in time, and
      its nonce is not one of the last 32 accepted; the action is the topic's. */
  lemma AcceptedIff(mac: Mac, key: Bytes, attempts: seq<Attempt>, a: Attempt)
    ensures var v := Judge(mac, key, SeenAfter(mac, key, attempts), a);
            && (v.Accept? <==>
                && Signed(mac, key, a) && (a.now.Some? ==> -300 <= Presented(a.payload).ts - a.now.value <= 300)
                && Presented(a.payload).nonce !in Last(32, NoncesOf(Acceptances(mac, key, attempts))))
            && (v.Accept? ==>
                  a.topic == a.base + "/command/" + v.action && (v.action == "lock" || v.action == "unlock"))
  {
    WindowIsLastAccepted(mac, key, attempts);
    LockTopic(a.base);
    assert "/command/" + "lock" == "/command/lock" && "/command/" + "unlock" == "/command/unlock";
    assert a.base + ("/command/" + "lock") == a.base + "/command/" + "lock";
    assert a.base + ("/command/" + "unlock") == a.base + "/command/" + "unlock";
  }

  /** What every pair of acceptances of one run satisfies. */
  ghost predicate Spread(acc: seq<Acceptance>) {
    && (forall i, j :: 0 <= i < j < |acc| && acc[i].command.nonce == acc[j].command.nonce ==> j - i > 32)
    && (forall i :: 0 <= i < |acc| ==> InTime(acc[i].command.ts, acc[i].now))
  }

  lemma LastHolds(k: nat, s: seq<string>, i: nat)
    requires i < |s| && |s| - i <= k
    ensures s[i] in Last(k, s)
  {
    if |s| > k {
      assert Last(k, s)[i - (|s| - k)] == s[i];
    }
  }

  lemma SpreadStep(acc: seq<Acceptance>, x: Acceptance)
    requires Spread(acc) && InTime(x.command.ts, x.now)
    requires x.command.nonce !in Last(REPLAY_WINDOW, NoncesOf(acc))
    ensures Spread(acc + [x])
  {
    forall i | 0 <= i < |acc| && acc[i].command.nonce == x.command.nonce ensures |acc| - i > REPLAY_WINDOW {
      if |acc| - i <= REPLAY_WINDOW {
        LastHolds(REPLAY_WINDOW, NoncesOf(acc), i);
      }
    }
  }

  /** Two acceptances of one nonce are at least 33 acceptances apart. */
  lemma {:induction false} AcceptancesAreSpread(mac: Mac, key: Bytes, attempts: seq<Attempt>)
    ensures Spread(Acceptances(mac, key, attempts))
  {
    if attempts != [] {
      var before, a := attempts[..|attempts| - 1], attempts[|attempts| - 1];
      AcceptancesAreSpread(mac, key, before);
      AcceptedIff(mac, key, before, a);
      var v := Judge(mac, key, SeenAfter(mac, key, before), a);
      if v.Accept? {
        SpreadStep(Acceptances(mac, key, before), Acceptance(v.action, Presented(a.payload), a.now));
      }
    }
  }

  /** Exactly when a nonce is accepted again: in time, and more than 32 acceptances after its last. */
  lemma AcceptedAgainIff(mac: Mac, key: Bytes, attempts: seq<Attempt>, a: Attempt, i: nat)
    requires var acc := Acceptances(mac, key, attempts);
             && i < |acc| && Signed(mac, key, a) && acc[i].command.nonce == Presented(a.payload).nonce
             && forall j :: i < j < |acc| ==> acc[j].command.nonce != acc[i].command.nonce
    ensures Judge(mac, key, SeenAfter(mac, key, attempts), a).Accept?
       <==> InTime(Presented(a.payload).ts, a.now) && |Acceptances(mac, key, attempts)| - i > REPLAY_WINDOW
  {
    AcceptedIff(mac, key, attempts, a);
    LastOccurrenceIff(NoncesOf(Acceptances(mac, key, attempts)), i);
  }

  lemma LastOccurrenceIff(s: seq<string>, i: nat)
    requires i < |s| && forall j :: i < j < |s| ==> s[j] != s[i]
    ensures s[i] in Last(REPLAY_WINDOW, s) <==> |s| - i <= REPLAY_WINDOW
  {
    var last := Last(REPLAY_WINDOW, s);
    if |s| - i <= REPLAY_WINDOW {
      LastHolds(REPLAY_WINDOW, s, i);
    } else {
      forall p | 0 <= p < |last| ensures last[p] != s[i] {
        assert last[p] == s[|s| - |last| + p];
      }
    }
  }

  /** The verifier has a clock throughout the run, and it never goes back. */
  predicate Clocked(attempts: seq<Attempt>) {
    && (forall i :: 0 <= i < |attempts| ==> attempts[i].now.Some?)
    && (forall i, j :: 0 <= i < j < |attempts| ==> attempts[i].now.value <= attempts[j].now.value)
  }

  predicate InOrder(acc: seq<Acceptance>) {
    && (forall i :: 0 <= i < |acc| ==> acc[i].now.Some?)
    && (forall i, j :: 0 <= i < j < |acc| ==> acc[i].now.value <= acc[j].now.value)
  }

  lemma {:induction false} AcceptancesAreInOrder(mac: Mac, key: Bytes, attempts: seq<Attempt>)
    requires Clocked(attempts)
    ensures InOrder(Acceptances(mac, key, attempts))
    ensures forall i :: 0 <= i < |Acceptances(mac, key, attempts)| ==>
              Acceptances(mac, key, attempts)[i].now.value <= attempts[|attempts| - 1].now.value
  {
    if attempts != [] {
      AcceptancesAreInOrder(mac, key, attempts[..|attempts| - 1]);
    }
  }

  /** The acceptances in the closed span of 600 s that starts at `t`. */
  function Within(acc: seq<Acceptance>, t: int): set<int> {
    set i | 0 <= i < |acc| && acc[i].now.Some? && t <= acc[i].now.value <= t + 2 * MAX_SKEW
  }

  lemma {:induction false} IntervalCount(s: set<int>, i: int, j: int)
    requires i <= j && forall k :: i <= k <= j ==> k in s
    ensures |s| >= j - i + 1
    decreases j - i
  {
    if i < j {
      IntervalCount(s - {j}, i, j - 1);
    }
  }

  /** The verifier acts on any one command - indeed on any pair of a timestamp and a nonce - at
      most once over a whole run, whatever is duplicated or reordered, provided no closed span
      of 600 s of its clock holds more than 33 acceptances. */
  lemma AtMostOnce(mac: Mac, key: Bytes, attempts: seq<Attempt>, i: nat, j: nat)
    requires Clocked(attempts)
    requires forall t :: |Within(Acceptances(mac, key, attempts), t)| <= REPLAY_WINDOW + 1
    requires i < j < |Acceptances(mac, key, attempts)|
    ensures var acc := Acceptances(mac, key, attempts);
            !(acc[i].command.ts == acc[j].command.ts && acc[i].command.nonce == acc[j].command.nonce)
  {
    var acc := Acceptances(mac, key, attempts);
    if acc[i].command.ts == acc[j].command.ts && acc[i].command.nonce == acc[j].command.nonce {
      AcceptancesAreSpread(mac, key, attempts);
      AcceptancesAreInOrder(mac, key, attempts);
      var t := acc[i].now.value;
      assert acc[j].now.value <= t + 2 * MAX_SKEW;
      IntervalCount(Within(acc, t), i, j);
    }
  }

  // ---- the proviso is needed ----

  /** The k-th of a burst of correctly signed commands, all of one second. */
  function BurstCommand(mac: Mac, key: Bytes, k: nat): Command {
    Sign(mac, key, 0, Decimal(k), "r", LOCK)
  }

  function Present(c: Command): Attempt {
    Attempt("b", "b" + "/command/lock", Document(JObj(Fields(c))), Some(0))
  }

  /** `n` different commands, one after the other. */
  function Burst(mac: Mac, key: Bytes, n: nat): seq<Attempt> {
    seq(n, k requires 0 <= k < n => Present(BurstCommand(mac, key, k)))
  }

  lemma FieldsArePresented(c: Command)
    ensures HasFields(Document(JObj(Fields(c)))) && Presented(Document(JObj(Fields(c)))) == c
  {
    assert "ts"[0] == 't' && "nonce"[0] == 'n' && "req_id"[0] == 'r' && "mac"[0] == 'm';
  }

  lemma BurstIsSigned(mac: Mac, key: Bytes, k: nat)
    requires Digests(mac)
    ensures var c := BurstCommand(mac, key, k);
            && Signed(mac, key, Present(c)) && Presented(Present(c).payload) == c && InTime(c.ts, Present(c).now)
            && Present(c).now == Some(0) && ActionForTopic(Present(c).base, Present(c).topic) == Some(LOCK)
  {
    FieldsArePresented(BurstCommand(mac, key, k));
    LockTopic("b");
  }

  lemma BurstNoncesDiffer(mac: Mac, key: Bytes, i: nat, j: nat)
    requires i != j
    ensures BurstCommand(mac, key, i).nonce != BurstCommand(mac, key, j).nonce
  {
    if Decimal(i) == Decimal(j) {
      DecimalIsInjective(i, j);
    }
  }

  /** A signed command in time, whose nonce no acceptance so far carries, is accepted. */
  lemma FreshIsAccepted(mac: Mac, key: Bytes, before: seq<Attempt>, a: Attempt)
    requires Signed(mac, key, a) && InTime(Presented(a.payload).ts, a.now)
    requires Presented(a.payload).nonce !in Last(REPLAY_WINDOW, NoncesOf(Acceptances(mac, key, before)))
    ensures Acceptances(mac, key, before + [a])
         == Acceptances(mac, key, before) + [Acceptance(ActionForTopic(a.base, a.topic).value, Presented(a.payload),
             a.now)]
  {
    AcceptedIff(mac, key, before, a);
    assert (before + [a])[..|before|] == before;
  }

  ghost predicate BurstTaken(mac: Mac, key: Bytes, acc: seq<Acceptance>) {
    forall k :: 0 <= k < |acc| ==> acc[k].command == BurstCommand(mac, key, k) && acc[k].now == Some(0)
  }

  lemma BurstNonceIsNew(mac: Mac, key: Bytes, acc: seq<Acceptance>, k: nat)
    requires BurstTaken(mac, key, acc) && (k < |acc| - REPLAY_WINDOW || k >= |acc|)
    ensures BurstCommand(mac, key, k).nonce !in Last(REPLAY_WINDOW, NoncesOf(acc))
  {
    var last := Last(REPLAY_WINDOW, NoncesOf(acc));
    forall i | 0 <= i < |last| ensures last[i] != BurstCommand(mac, key, k).nonce {
      var j := |acc| - |last| + i;
      assert last[i] == acc[j].command.nonce;
      BurstNoncesDiffer(mac, key, j, k);
    }
  }

  lemma BurstGoesOn(mac: Mac, key: Bytes, before: seq<Attempt>, k: nat)
    requires Digests(mac) && BurstTaken(mac, key, Acceptances(mac, key, before))
    requires k < |Acceptances(mac, key, before)| - REPLAY_WINDOW || k >= |Acceptances(mac, key, before)|
    ensures Acceptances(mac, key, before + [Present(BurstCommand(mac, key, k))])
         == Acceptances(mac, key, before) + [Acceptance(LOCK, BurstCommand(mac, key, k), Some(0))]
  {
    BurstIsSigned(mac, key, k);
    BurstNonceIsNew(mac, key, Acceptances(mac, key, before), k);
    FreshIsAccepted(mac, key, before, Present(BurstCommand(mac, key, k)));
  }

  lemma BurstStep(mac: Mac, key: Bytes, n: nat)
    ensures Burst(mac, key, n + 1) == Burst(mac, key, n) + [Present(BurstCommand(mac, key, n))]
  {
  }

  lemma BurstTakenStep(mac: Mac, key: Bytes, acc: seq<Acceptance>, n: nat)
    requires BurstTaken(mac, key, acc) && |acc| == n
    ensures BurstTaken(mac, key, acc + [Acceptance(LOCK, BurstCommand(mac, key, n), Some(0))])
  {
  }

  lemma BurstMore(mac: Mac, key: Bytes, before: seq<Attempt>, n: nat)
    requires Digests(mac) && |Acceptances(mac, key, before)| == n && BurstTaken(mac, key, Acceptances(mac, key, before))
    ensures var acc := Acceptances(mac, key, before + [Present(BurstCommand(mac, key, n))]);
            |acc| == n + 1 && BurstTaken(mac, key, acc)
  {
    BurstGoesOn(mac, key, before, n);
    BurstTakenStep(mac, key, Acceptances(mac, key, before), n);
  }

  lemma {:induction false} BurstIsAccepted(mac: Mac, key: Bytes, n: nat)
    requires Digests(mac)
    ensures |Acceptances(mac, key, Burst(mac, key, n))| == n
    ensures BurstTaken(mac, key, Acceptances(mac, key, Burst(mac, key, n)))
  {
    if n > 0 {
      BurstIsAccepted(mac, key, n - 1);
      BurstMore(mac, key, Burst(mac, key, n - 1), n - 1);
      BurstStep(mac, key, n - 1);
    }
  }

  /** With 34 acceptances in one second the first command of a run is acted on twice. */
  lemma LongBurstRepeats(mac: Mac, key: Bytes)
    requires Digests(mac)
    ensures var acc := Acceptances(mac, key, Burst(mac, key, 33) + [Present(BurstCommand(mac, key, 0))]);
            |acc| == 34 && acc[0].command == acc[33].command
  {
    BurstIsAccepted(mac, key, 33);
    BurstGoesOn(mac, key, Burst(mac, key, 33), 0);
  }

  /** The command's lock text and its unlock text have one MAC. */
  predicate Collides(mac: Mac, key: Bytes, c: Command) {
    mac(key, CanonicalInput(c.ts, c.nonce, c.reqId, LOCK)) == mac(key, CanonicalInput(c.ts, c.nonce, c.reqId, UNLOCK))
  }

  /** A command is accepted on the topic of its own action only, unless its two texts collide. */
  lemma TopicBindsAction(mac: Mac, key: Bytes, attempts: seq<Attempt>, c: Command, action: string, a: Attempt)
    requires IsAction(action) && c == Sign(mac, key, c.ts, c.nonce, c.reqId, action)
    requires a.payload == Document(JObj(Fields(c))) && !Collides(mac, key, c)
    ensures var v := Judge(mac, key, SeenAfter(mac, key, attempts), a); v.Accept? ==> v.action == action
  {
    FieldsArePresented(c);
    AcceptedIff(mac, key, attempts, a);
  }

  /** And when they do collide, it is accepted on the other topic wherever it is on its own. */
  lemma CollisionUnbindsAction(mac: Mac, key: Bytes, attempts: seq<Attempt>, c: Command, action: string,
                               base: string, now: Option<int>)
    requires IsAction(action) && c == Sign(mac, key, c.ts, c.nonce, c.reqId, action)
    requires Collides(mac, key, c)
    ensures var seen, p := SeenAfter(mac, key, attempts), Document(JObj(Fields(c)));
            Judge(mac, key, seen, Attempt(base, base + "/command/lock", p, now)).Accept?
            <==> Judge(mac, key, seen, Attempt(base, base + "/command/unlock", p, now)).Accept?
  {
    FieldsArePresented(c);
    LockTopic(base);
  }
}
