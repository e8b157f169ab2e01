/** What delivered messages do, said from their payloads: presence, the lock's state, and which lock
    events reach the activity log. */
module Readings {
  import opened Json
  import opened Models
  import opened Payloads
  import opened Household
  import opened History
  import opened Attribution
  import opened Isolation

  /** A message of the household about node `n`. */
  function To(env: Env, n: string, t: Subtopic, p: Payload, at: Moment): Delivery {
    Delivery(Message(env.household, Some(n), t, p), at)
  }

  /** The delivery is about node `n`, and says this. */
  ghost predicate Tells(env: Env, d: Delivery, n: string, r: Report) {
    && d.message.household == env.household && d.message.node == Some(n) && n != ""
    && Carries(env, d.message.subtopic, d.message.payload, n, r)
  }

  // ---- presence ----

  lemma WillReads(env: Env, n: string, p: Payload, at: Moment)
    requires n != ""
    ensures Read(env, To(env, n, LegacyStatus, p, at))
         == if Says(p, "online") then Accepted(n, Will(true), at)
            else if Says(p, "offline") then Accepted(n, Will(false), at)
            else Refused(None)
  {
    DeliveryReadsIff(env, To(env, n, LegacyStatus, p, at), n, Will(true));
    DeliveryReadsIff(env, To(env, n, LegacyStatus, p, at), n, Will(false));
  }

  /** A will counts iff it says "online" or "offline", in any case and between any blanks. Saying
      "offline" it takes a registered node away; saying "online" it is a sign of life. */
  lemma WillIsTaken(env: Env, s: House, n: string, p: Payload, at: Moment)
    requires n != ""
    ensures var t := HandleAll(env, s, [To(env, n, LegacyStatus, p, at)]);
            && (n !in s.nodes || !(Says(p, "online") || Says(p, "offline")) ==> t.nodes == s.nodes)
            && (n in s.nodes && Says(p, "offline") ==>
                  t.nodes == s.nodes[n := s.nodes[n].(lwtOnline := Some(false))] && !t.nodes[n].Available())
            && (n in s.nodes && Says(p, "online") ==>
                  t.nodes == s.nodes[n := s.nodes[n].(lwtOnline := Some(true), lastSeen := Some(at.now))])
  {
    OneDelivery(env, s, To(env, n, LegacyStatus, p, at));
    WillReads(env, n, p, at);
    OnlineOrOffline(p);
  }

  lemma OnlineOrOffline(p: Payload)
    ensures !(Says(p, "online") && Says(p, "offline"))
  {
    SaysIff(p, "online");
    SaysIff(p, "offline");
    assert |"online"| == 6 && |"offline"| == 7;
  }

  /** What a delivered message reads as, position by position. */
  lemma TapeTells(env: Env, ds: seq<Delivery>, j: nat, n: string, r: Report)
    requires j < |ds|
    ensures ReadAll(env, ds)[j] == Accepted(n, r, ds[j].at) <==> Tells(env, ds[j], n, r)
  {
    DeliveryReadsIff(env, ds[j], n, r);
  }

  lemma WholeTape(env: Env, ds: seq<Delivery>)
    ensures HandleAll(env, EMPTY, ds) == After(env, ReadAll(env, ds), |ds|)
  {
    assert ReadAll(env, ds)[..|ds|] == ReadAll(env, ds);
  }

  ghost predicate TellsStatus(env: Env, d: Delivery, n: string) {
    Tells(env, d, n, Online(true)) || Tells(env, d, n, Online(false))
  }

  ghost predicate TellsWill(env: Env, d: Delivery, n: string) {
    Tells(env, d, n, Will(true)) || Tells(env, d, n, Will(false))
  }

  lemma PresenceIsTold(env: Env, ds: seq<Delivery>, j: nat, n: string)
    requires j < |ds|
    ensures var a := ReadAll(env, ds)[j];
            && (TellsStatus(env, ds[j], n) <==> a.Accepted? && a.node == n && a.report.Online?)
            && (TellsWill(env, ds[j], n) <==> a.Accepted? && a.node == n && a.report.Will?)
            && (Tells(env, ds[j], n, Online(true)) <==> a.Accepted? && a.node == n && a.report == Online(true))
            && (Tells(env, ds[j], n, Will(true)) <==> a.Accepted? && a.node == n && a.report == Will(true))
  {
    TapeTells(env, ds, j, n, Online(true));
    TapeTells(env, ds, j, n, Online(false));
    TapeTells(env, ds, j, n, Will(true));
    TapeTells(env, ds, j, n, Will(false));
  }

  /** A node is available iff the last status delivered for it said "online", and so did the last
      will delivered for it since it was registered, if there was one. */
  lemma AvailableIffLastSaid(env: Env, ds: seq<Delivery>, n: string) returns (status: int, will: int)
    ensures -1 <= status < |ds| && -1 <= will < |ds|
    ensures forall j :: status < j < |ds| ==> !TellsStatus(env, ds[j], n)
    ensures forall j :: will < j < |ds| && Registered(ReadAll(env, ds), j, n) ==> !TellsWill(env, ds[j], n)
    ensures status >= 0 ==> TellsStatus(env, ds[status], n)
    ensures will >= 0 ==> TellsWill(env, ds[will], n) && Registered(ReadAll(env, ds), will, n)
    ensures NodeOf(HandleAll(env, EMPTY, ds), n).Available()
       <==> && status >= 0 && Tells(env, ds[status], n, Online(true))
            && (will >= 0 ==> Tells(env, ds[will], n, Will(true)))
  {
    var tape := ReadAll(env, ds);
    WholeTape(env, ds);
    status, will := AvailableIffLastWords(env, tape, |tape|, n);
    if status >= 0 {
      PresenceIsTold(env, ds, status, n);
    }
    if will >= 0 {
      PresenceIsTold(env, ds, will, n);
    }
    forall j | status < j < |ds| ensures !TellsStatus(env, ds[j], n) {
      PresenceIsTold(env, ds, j, n);
    }
    forall j | will < j < |ds| && Registered(tape, j, n) ensures !TellsWill(env, ds[j], n) {
      PresenceIsTold(env, ds, j, n);
    }
  }

  // ---- the lock ----

  ghost predicate TellsLock(env: Env, d: Delivery, n: string) {
    (exists c :: Tells(env, d, n, Change(c))) || (exists h :: Tells(env, d, n, Snapshot(h)))
  }

  /** The lock code of a document: `current` of an event, `lock_current` of a health document. */
  function CodeIn(d: Delivery): Option<int> {
    var key := if d.message.subtopic.LockLast? then "current" else "lock_current";
    var p := d.message.payload;
    if p.Document? && p.json.JObj? && Get(p.json.fields, key).JInt? then Some(Get(p.json.fields, key).n) else None
  }

  lemma CodeIsTold(env: Env, d: Delivery, n: string, r: Report)
    requires (r.Change? || r.Snapshot?) && Tells(env, d, n, r)
    ensures CodeOf(r) == CodeIn(d)
  {
  }

  /** The lock's state is what the code of the last lock document delivered for the node says: an
      event or a health document, whichever came last. */
  lemma LockStateIsLastCode(env: Env, ds: seq<Delivery>, n: string) returns (i: int)
    ensures -1 <= i < |ds|
    ensures forall j :: i < j < |ds| ==> !TellsLock(env, ds[j], n)
    ensures i >= 0 ==> TellsLock(env, ds[i], n)
    ensures FreshCode(NodeOf(HandleAll(env, EMPTY, ds), n)) == if i < 0 then None else CodeIn(ds[i])
    ensures ReadsAs(if i < 0 then None else CodeIn(ds[i]), NodeOf(HandleAll(env, EMPTY, ds), n).LockState())
  {
    var tape := ReadAll(env, ds);
    WholeTape(env, ds);
    i := LockStateIsLatestReading(env, tape, |tape|, n);
    forall j, r | 0 <= j < |ds| ensures tape[j] == Accepted(n, r, ds[j].at) <==> Tells(env, ds[j], n, r) {
      TapeTells(env, ds, j, n, r);
    }
    if i >= 0 {
      CodeIsTold(env, ds[i], n, tape[i].report);
    }
  }

  // ---- the activity log ----

  lemma {:induction false} CausesAreAsMany(log: seq<Entry>)
    ensures |Causes(log)| == |log|
  {
    if log != [] {
      CausesAreAsMany(log[..|log| - 1]);
    }
  }

  /** Of two lock events delivered in turn, both worth telling, both are logged iff they differ in the
      stamp, the code or the source their documents give. */
  lemma TwoEventsAreLoggedIff(env: Env, n: string, p: Payload, q: Payload, at: Moment, later: Moment,
                              a: LockChange, b: LockChange)
    requires Tells(env, To(env, n, LockLast, p, at), n, Change(a)) && Newsworthy(env, a, at)
    requires Tells(env, To(env, n, LockLast, q, later), n, Change(b)) && Newsworthy(env, b, later)
    ensures |HandleAll(env, EMPTY, [To(env, n, LockLast, p, at), To(env, n, LockLast, q, later)]).log|
         == if a.timestamp == b.timestamp && a.current == b.current && a.source == b.source then 1 else 2
  {
    var ds := [To(env, n, LockLast, p, at), To(env, n, LockLast, q, later)];
    TapeTells(env, ds, 0, n, Change(a));
    TapeTells(env, ds, 1, n, Change(b));
    WholeTape(env, ds);
    assert ReadAll(env, ds) == [Accepted(n, Change(a), at), Accepted(n, Change(b), later)];
    LogTellsTheStory(env, ReadAll(env, ds), 2);
    StoryOfTwo(env, n, a, b, at, later);
    CausesAreAsMany(HandleAll(env, EMPTY, ds).log);
  }
}
