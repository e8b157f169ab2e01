/** The client's side of the authenticated command protocol: the nonce tracker and the command
    builder (command.py), and the publication (mqtt.py). */
module Commands {
  import opened Json
  import opened Lists
  import opened Models
  import opened Topics
  import opened Canonical

  const REPLAY_WINDOW: nat := 32
  const ATTEMPTS: nat := 8

  // ---- the nonce tracker ----

  /** Append, and once two windows are exceeded drop the oldest window. */
  function Remembered(window: nat, seen: seq<string>, nonce: string): seq<string> {
    var longer := seen + [nonce];
    if |longer| > 2 * window then longer[window..] else longer
  }

  /** What a tracker holds after remembering `history` in order. */
  function Recall(window: nat, history: seq<string>): seq<string> {
    if history == [] then []
    else Remembered(window, Recall(window, history[..|history| - 1]), history[|history| - 1])
  }

  lemma LastAppend(k: nat, s: seq<string>, x: string)
    requires k <= |s|
    ensures Last(k, s) + [x] == Last(k + 1, s + [x])
  {
  }

  lemma LastTail(k: nat, m: nat, s: seq<string>)
    requires m <= k <= |s|
    ensures Last(k, s)[k - m..] == Last(m, s)
  {
  }

  lemma RememberedIsRecent(window: nat, seen: seq<string>, history: seq<string>, nonce: string)
    requires 1 <= window && |seen| <= 2 * window && |seen| <= |history| && seen == Last(|seen|, history)
    ensures var next := Remembered(window, seen, nonce);
            && next == Last(|next|, history + [nonce])
            && |next| == if |seen| < 2 * window then |seen| + 1 else window + 1
  {
    LastAppend(|seen|, history, nonce);
    if |seen| == 2 * window {
      LastTail(|seen| + 1, window + 1, history + [nonce]);
    }
  }

  /** How much a tracker holds of `n` nonces. */
  function HeldAfter(window: nat, n: nat): nat {
    if n == 0 then 0
    else if HeldAfter(window, n - 1) < 2 * window then HeldAfter(window, n - 1) + 1
    else window + 1
  }

  lemma {:induction false} HeldBounds(window: nat, n: nat)
    requires window >= 1
    ensures HeldAfter(window, n) <= n
    ensures if n <= 2 * window then HeldAfter(window, n) == n else window < HeldAfter(window, n) <= 2 * window
  {
    if n > 0 {
      HeldBounds(window, n - 1);
    }
  }

  /** A tracker holds the end of its history: all of it at first, then always more than one window
      and at most two. */
  lemma {:induction false} RecallIsEnd(window: nat, history: seq<string>)
    requires window >= 1
    ensures var held := |Recall(window, history)|;
            && held <= |history| && Recall(window, history) == Last(held, history)
            && (if |history| <= 2 * window then held == |history| else window < held <= 2 * window)
  {
    if history != [] {
      var before, nonce := history[..|history| - 1], history[|history| - 1];
      RecallIsEnd(window, before);
      RememberedIsRecent(window, Recall(window, before), before, nonce);
      assert history == before + [nonce];
    }
  }

  lemma RememberedSize(window: nat, seen: seq<string>, nonce: string)
    requires |seen| <= 2 * window
    ensures |Remembered(window, seen, nonce)| == if |seen| < 2 * window then |seen| + 1 else window + 1
  {
  }

  lemma {:induction false} RecallIsHeld(window: nat, history: seq<string>)
    requires window >= 1
    ensures |Recall(window, history)| == HeldAfter(window, |history|)
  {
    if history != [] {
      var before := history[..|history| - 1];
      RecallIsHeld(window, before);
      HeldBounds(window, |before|);
      RememberedSize(window, Recall(window, before), history[|history| - 1]);
    }
  }

  lemma TimesGrows(w: nat, a: int, b: int)
    ensures a < b ==> w * (a + 1) <= w * b
  {
  }

  lemma RemainderIs(n: nat, w: nat, q: nat, r: nat)
    requires r < w && n == w * q + r
    ensures n % w == r
  {
    TimesGrows(w, n / w, q);
    TimesGrows(w, q, n / w);
  }

  lemma RemainderStep(n: nat, w: nat)
    requires w >= 1
    ensures (n + 1) % w == if n % w == w - 1 then 0 else n % w + 1
  {
    var q, r := n / w, n % w;
    assert n == w * q + r;
    if r == w - 1 {
      assert n + 1 == w * (q + 1) + 0;
      RemainderIs(n + 1, w, q + 1, 0);
    } else {
      RemainderIs(n + 1, w, q, r + 1);
    }
  }

  lemma RemainderLess(n: nat, w: nat)
    requires w >= 1 && n >= 2 * w
    ensures (n - 2 * w) % w == n % w
  {
    var q, r := (n - 2 * w) / w, (n - 2 * w) % w;
    assert n == w * (q + 2) + r;
    RemainderIs(n, w, q + 2, r);
  }

  /** The size of what is held, in closed form: past two windows it goes round from one window plus
      one to two windows. */
  lemma {:induction false} HeldInRounds(window: nat, n: nat)
    requires window >= 1 && n > 2 * window
    ensures HeldAfter(window, n) == window + 1 + (n - 2 * window - 1) % window
  {
    HeldBounds(window, n - 1);
    if n == 2 * window + 1 {
      RemainderIs(0, window, 0, 0);
    } else {
      HeldInRounds(window, n - 1);
      RemainderStep(n - 2 * window - 2, window);
    }
  }

  /** A tracker holds the end of its history, exactly this much of it: all up to two windows, and from
      there on a window plus one up to two windows, round and round. */
  lemma RecallIsRecent(window: nat, history: seq<string>)
    requires window >= 1
    ensures var n := |history|;
            var held := if n <= 2 * window then n else window + 1 + (n - 2 * window - 1) % window;
            |Recall(window, history)| == held && Recall(window, history) == Last(held, history)
  {
    RecallIsEnd(window, history);
    RecallIsHeld(window, history);
    HeldBounds(window, |history|);
    if |history| > 2 * window {
      HeldInRounds(window, |history|);
    }
  }

  /** Two full windows are held exactly at multiples of the window, from two windows on. */
  lemma TwoWindowsIff(window: nat, history: seq<string>)
    requires window >= 1
    ensures |Recall(window, history)| == 2 * window <==> |history| >= 2 * window && |history| % window == 0
  {
    var n := |history|;
    RecallIsRecent(window, history);
    if n > 2 * window {
      RemainderStep(n - 2 * window - 1, window);
      RemainderLess(n, window);
    } else if n == 2 * window {
      RemainderIs(n, window, 2, 0);
    }
  }

  /** The first of at most eight draws the tracker does not hold. */
  function FirstFresh(seen: seq<string>, draws: nat -> string, k: nat): (r: Option<string>)
    requires k <= ATTEMPTS
    ensures r.Some? ==> r.value !in seen && exists i :: k <= i < ATTEMPTS && draws(i) == r.value
    ensures r.None? <==> forall i :: k <= i < ATTEMPTS ==> draws(i) in seen
    decreases ATTEMPTS - k
  {
    if k == ATTEMPTS then None
    else if draws(k) !in seen then Some(draws(k))
    else FirstFresh(seen, draws, k + 1)
  }

  class NonceTracker {
    const window: nat
    var seen: seq<string>

    constructor (window: int)
      ensures this.window == (if window < 1 then 1 else window) && seen == []
    {
      this.window := if window < 1 then 1 else window;
      seen := [];
    }

    predicate Contains(nonce: string)
      reads this
    {
      nonce in seen
    }

    method Remember(nonce: string)
      modifies this
      ensures seen == Remembered(window, old(seen), nonce)
    {
      seen := seen + [nonce];
      if |seen| > window * 2 {
        seen := seen[window..];
      }
    }

    /** The k-th random draw of this call is `draws(k)`; None when eight draws were all held. */
    method FreshNonce(draws: nat -> string) returns (r: Option<string>)
      modifies this
      ensures r == FirstFresh(old(seen), draws, 0)
      ensures seen == if r.Some? then Remembered(window, old(seen), r.value) else old(seen)
    {
      for k := 0 to ATTEMPTS
        invariant seen == old(seen) && FirstFresh(seen, draws, 0) == FirstFresh(seen, draws, k)
      {
        if !Contains(draws(k)) {
          Remember(draws(k));
          return Some(draws(k));
        }
      }
      r := None;
    }
  }

  // ---- building a command ----

  datatype Command = Command(ts: int, nonce: string, reqId: string, mac: string)

  function Fields(c: Command): Doc {
    map["ts" := JInt(c.ts), "nonce" := JStr(c.nonce), "req_id" := JStr(c.reqId), "mac" := JStr(c.mac)]
  }

  predicate Plausible(nonce: string) {
    0 < |nonce| <= 128 && Hex(nonce)
  }

  function Sign(mac: Mac, key: Bytes, ts: int, nonce: string, reqId: string, action: string): Command {
    Command(ts, nonce, reqId, mac(key, CanonicalInput(ts, nonce, reqId, action)))
  }

  /** The command and the nonces held afterwards: a nonce drawn for a command that is then
      refused stays used. */
  function Build(mac: Mac, key: Bytes, action: string, ts: int, nonce: Option<string>, reqId: string,
                 window: nat, seen: seq<string>, draws: nat -> string)
    : (Result<Command>, seq<string>)
  {
    if !IsAction(action) || key == [] then (Rejected, seen)
    else
      var chosen := if nonce.Some? then nonce else FirstFresh(seen, draws, 0);
      var held := if nonce.None? && chosen.Some? then Remembered(window, seen, chosen.value) else seen;
      if chosen.None? || !Plausible(chosen.value) || !(0 < |reqId| <= 128) then (Rejected, held)
      else (Ok(Sign(mac, key, ts, chosen.value, reqId, action)), held)
  }

  method BuildCommand(mac: Mac, key: Bytes, action: string, ts: int, nonce: Option<string>, reqId: string,
                      tracker: NonceTracker, draws: nat -> string)
    returns (r: Result<Command>)
    modifies tracker
    ensures (r, tracker.seen) == Build(mac, key, action, ts, nonce, reqId, tracker.window, old(tracker.seen), draws)
  {
    if !IsAction(action) {
      return Rejected;
    }
    if key == [] {
      return Rejected;
    }
    var chosen := nonce;
    if nonce.None? {
      chosen := tracker.FreshNonce(draws);
      if chosen.None? {
        return Rejected;
      }
    }
    if !Plausible(chosen.value) {
      return Rejected;
    }
    if reqId == "" || |reqId| > 128 {
      return Rejected;
    }
    r := Ok(Sign(mac, key, ts, chosen.value, reqId, action));
  }

  /** With tokens for nonces and request id, a command is refused exactly for an unknown action,
      a missing key, or eight draws in a row that are still held. */
  lemma BuildsUnlessStuck(mac: Mac, key: Bytes, action: string, ts: int, reqId: string,
                          window: nat, seen: seq<string>, draws: nat -> string)
    requires Token(reqId) && forall k :: Token(draws(k))
    ensures var r := Build(mac, key, action, ts, None, reqId, window, seen, draws).0;
            && (r.Ok? <==> (action == "lock" || action == "unlock") && key != []
                           && exists k :: 0 <= k < 8 && draws(k) !in seen)
            && (r.Ok? ==> r.value.nonce !in seen && Token(r.value.nonce) && r.value.ts == ts && r.value.reqId == reqId)
  {
  }

  predicate HexText(s: string) {
    forall i :: 0 <= i < |s| ==> s[i] in "0123456789abcdefABCDEF"
  }

  lemma HexIff(s: string)
    ensures Hex(s) <==> HexText(s)
  {
    forall i | 0 <= i < |s| ensures HexCharacter(s[i]) <==> s[i] in "0123456789abcdefABCDEF" {
      HexCharacterIff(s[i]);
    }
  }

  lemma HexCharacterIff(c: char)
    ensures HexCharacter(c) <==> c in "0123456789abcdefABCDEF"
  {
  }

  /** Every command built is for "lock" or "unlock" and signed over its time in decimal, its nonce, its
      request id and that word, one after the other. */
  lemma BuiltIsSigned(mac: Mac, key: Bytes, action: string, ts: int, nonce: Option<string>, reqId: string,
                      window: nat, seen: seq<string>, draws: nat -> string, numeral: string)
    requires Build(mac, key, action, ts, nonce, reqId, window, seen, draws).0.Ok?
    requires SignedNumeral(numeral) && NumberOf(numeral) == ts
    ensures var c := Build(mac, key, action, ts, nonce, reqId, window, seen, draws).0.value;
            && (action == "lock" || action == "unlock") && key != []
            && c.ts == ts && c.reqId == reqId && (nonce.Some? ==> c.nonce == nonce.value)
            && 1 <= |c.nonce| <= 128 && HexText(c.nonce) && 1 <= |reqId| <= 128
            && c.mac == mac(key, numeral + c.nonce + c.reqId + action)
  {
    DecimalIff(ts, numeral);
    HexIff(Build(mac, key, action, ts, nonce, reqId, window, seen, draws).0.value.nonce);
  }

  /** A nonce that is handed in is used as it is, or refused. */
  lemma GivenNonceIsCheckedIff(mac: Mac, key: Bytes, action: string, ts: int, nonce: string, reqId: string,
                               window: nat, seen: seq<string>, draws: nat -> string)
    ensures var (r, held) := Build(mac, key, action, ts, Some(nonce), reqId, window, seen, draws);
            && held == seen
            && (r.Ok? <==> (action == "lock" || action == "unlock") && key != []
                           && 1 <= |nonce| <= 128 && HexText(nonce) && 1 <= |reqId| <= 128)
  {
    HexIff(nonce);
  }

  /** Fields the builder accepts. */
  predicate Buildable(nonce: string, reqId: string) {
    Plausible(nonce) && 0 < |reqId| <= 128
  }

  /** Some unlock command the builder accepts has this canonical text. */
  ghost predicate ReadsAsUnlock(text: string) {
    exists ts, nonce, reqId :: Buildable(nonce, reqId) && text == CanonicalInput(ts, nonce, reqId, UNLOCK)
  }

  lemma ReadAs(ts: int, nonce: string, reqId: string, ts': int, nonce': string, reqId': string)
    requires Buildable(nonce', reqId') && Decimal(ts) + nonce + reqId == Decimal(ts') + nonce' + reqId' + "un"
    ensures ReadsAsUnlock(CanonicalInput(ts, nonce, reqId, LOCK))
  {
    SameTextIff(ts, nonce, reqId, LOCK, ts', nonce', reqId', UNLOCK);
  }

  /** The three ways to share out what precedes a final "un". */
  lemma LongIdReads(ts: int, nonce: string, id: string)
    requires Buildable(nonce, id + "un") && id != ""
    ensures ReadsAsUnlock(CanonicalInput(ts, nonce, id + "un", LOCK))
  {
    assert Decimal(ts) + nonce + (id + "un") == Decimal(ts) + nonce + id + "un";
    ReadAs(ts, nonce, id + "un", ts, nonce, id);
  }

  lemma LongNonceReads(ts: int, nonce: string)
    requires Plausible(nonce) && |nonce| >= 2
    ensures ReadsAsUnlock(CanonicalInput(ts, nonce, "un", LOCK))
  {
    var cut := |nonce| - 1;
    assert nonce == nonce[..cut] + nonce[cut..];
    assert Decimal(ts) + nonce + "un" == Decimal(ts) + nonce[..cut] + nonce[cut..] + "un";
    ReadAs(ts, nonce, "un", ts, nonce[..cut], nonce[cut..]);
  }

  /** A rendering of two digits or more is a shorter rendering and a digit. */
  lemma DecimalSplits(ts: int) returns (front: int, digit: string)
    requires !(-10 < ts < 10)
    ensures Decimal(ts) == Decimal(front) + digit && Plausible(digit)
  {
    if ts >= 10 {
      front, digit := ts / 10, [Digit(ts % 10)];
    } else {
      front, digit := -(-ts / 10), [Digit(-ts % 10)];
      assert Digits(-ts) == Digits(-ts / 10) + digit;
    }
  }

  lemma LongTimeReads(ts: int, nonce: string)
    requires Plausible(nonce) && !(-10 < ts < 10)
    ensures ReadsAsUnlock(CanonicalInput(ts, nonce, "un", LOCK))
  {
    var front, digit := DecimalSplits(ts);
    ReadAs(ts, nonce, "un", front, digit, nonce);
  }

  /** With one digit, one character of nonce and "un", nothing is left to share out. */
  lemma ShortDoesNotRead(ts: int, nonce: string, ts': int, nonce': string, reqId': string)
    requires -10 < ts < 10 && |nonce| == 1 && Buildable(nonce', reqId')
    ensures Decimal(ts) + nonce != Decimal(ts') + nonce' + reqId'
  {
    var s, t := Decimal(ts) + nonce, Decimal(ts') + nonce' + reqId';
    assert s[0] == Decimal(ts)[0] && t[0] == Decimal(ts')[0];
    assert |s| == if ts < 0 then 3 else 2;
    assert |t| >= if ts' < 0 then 4 else 3;
  }

  /** A lock command the builder accepts can be read as some unlock command it accepts exactly when
      its request id ends in "un" and leaves a character for each of the other's fields: more id,
      more nonce, or a second digit of the time. */
  lemma LockIsToldIff(ts: int, nonce: string, reqId: string)
    requires Buildable(nonce, reqId)
    ensures ReadsAsUnlock(CanonicalInput(ts, nonce, reqId, LOCK))
       <==> && |reqId| >= 2 && reqId[|reqId| - 2..] == "un"
            && (|reqId| > 2 || |nonce| > 1 || !(-10 < ts < 10))
  {
    if |reqId| >= 2 && reqId[|reqId| - 2..] == "un" && (|reqId| > 2 || |nonce| > 1 || !(-10 < ts < 10)) {
      var id := reqId[..|reqId| - 2];
      assert reqId == id + "un";
      if |reqId| > 2 {
        LongIdReads(ts, nonce, id);
      } else if |nonce| > 1 {
        LongNonceReads(ts, nonce);
      } else {
        LongTimeReads(ts, nonce);
      }
    }
    if ReadsAsUnlock(CanonicalInput(ts, nonce, reqId, LOCK)) {
      var ts', nonce', reqId' :| Buildable(nonce', reqId')
        && CanonicalInput(ts, nonce, reqId, LOCK) == CanonicalInput(ts', nonce', reqId', UNLOCK);
      SameTextIff(ts, nonce, reqId, LOCK, ts', nonce', reqId', UNLOCK);
      UnlockEndsId(Decimal(ts), nonce, reqId, Decimal(ts') + nonce' + reqId');
      if reqId == "un" {
        DropEnd(Decimal(ts) + nonce, "un", Decimal(ts') + nonce' + reqId', "un");
        if |nonce| == 1 && -10 < ts < 10 {
          ShortDoesNotRead(ts, nonce, ts', nonce', reqId');
        }
      }
    }
  }

  /** Before a request id of one character stands a nonce, and a nonce has no 'u'. */
  lemma ShortIdHidesUn(front: string, nonce: string, reqId: string)
    requires Plausible(nonce) && |reqId| == 1
    ensures var s := front + nonce + reqId; s[|s| - 2] != 'u'
  {
    var s := front + nonce + reqId;
    assert s[|s| - 2] == nonce[|nonce| - 1] && HexCharacter(nonce[|nonce| - 1]);
  }

  lemma UnlockEndsId(front: string, nonce: string, reqId: string, other: string)
    requires Buildable(nonce, reqId) && front + nonce + reqId == other + "un"
    ensures |reqId| >= 2 && reqId[|reqId| - 2..] == "un"
  {
    var s := front + nonce + reqId;
    assert s[|s| - 2] == 'u';
    if |reqId| == 1 {
      ShortIdHidesUn(front, nonce, reqId);
    } else {
      LockEndsAsTold(front + nonce, reqId, other);
    }
  }

  // ---- publishing it ----

  const CMD_LOCK := "command/lock"
  const CMD_UNLOCK := "command/unlock"

  datatype Publication = Publication(topic: string, payload: Payload, qos: nat, retain: bool)

  function CommandTopic(household: string, node: string, action: string): string {
    NodeTopic(household, node, if action == LOCK then CMD_LOCK else CMD_UNLOCK)
  }

  lemma CommandTopicText(household: string, node: string, action: string)
    requires IsAction(action)
    ensures CommandTopic(household, node, action) == Tree(household, node) + "/command/" + action
  {
    TreeIsBase(household, node);
    assert "/command/" + LOCK == "/" + CMD_LOCK && "/command/" + UNLOCK == "/" + CMD_UNLOCK;
    assert Tree(household, node) + ("/command/" + action) == Tree(household, node) + "/command/" + action;
  }

  class MqttClient {
    const nonces: NonceTracker
    var published: seq<Publication>

    constructor ()
      ensures fresh(nonces) && nonces.window == 32 && nonces.seen == [] && published == []
    {
      nonces := new NonceTracker(REPLAY_WINDOW);
      published := [];
    }

    /** Either exactly the built command goes out, once, at QoS 1 and not retained, on the topic of
        its action, or nothing does: the command is refused, or the transport raises (`!up`), which
        leaves its nonce used. */
    method PublishCommand(mac: Mac, household: string, node: string, key: Bytes, action: string, ts: int, reqId: string,
                          draws: nat -> string, up: bool)
      returns (r: Result<Command>)
      modifies this`published, nonces
      ensures var (built, held) := Build(mac, key, action, ts, None, reqId, nonces.window, old(nonces.seen), draws);
              r == (if up then built else Rejected) && nonces.seen == held
      ensures published == old(published)
                           + if r.Ok? then [Publication(Tree(household, node) + "/command/" + action,
                               Document(JObj(Fields(r.value))), 1, false)]
                             else []
    {
      if key == [] {
        return Rejected;
      }
      if !IsAction(action) {
        return Rejected;
      }
      r := BuildCommand(mac, key, action, ts, None, reqId, nonces, draws);
      if r.Rejected? || !up {
        return Rejected;
      }
      CommandTopicText(household, node, action);
      published := published + [Publication(CommandTopic(household, node, action),
                                             Document(JObj(Fields(r.value))), 1, false)];
    }
  }

  /** A published command is never taken in as a report when the broker echoes it. */
  lemma CommandsAreNotReports(own: string, legacyPrefix: Option<string>, household: string, node: string,
                              action: string, payload: Payload)
    requires ValidId(household) && ValidId(node)
    ensures OnMessage(own, legacyPrefix, CommandTopic(household, node, action), payload).None?
  {
    ParsingInvertsBuilding(household, node, if action == LOCK then CMD_LOCK else CMD_UNLOCK, legacyPrefix);
    assert CMD_LOCK[0] == 'c' && CMD_UNLOCK[0] == 'c';
  }
}
