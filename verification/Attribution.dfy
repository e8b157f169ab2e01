/** The activity log over whole runs: which messages it announces, said from the message history,
    and what that means for repeats, borrowed causes and named people. */
module Attribution {
  import opened Json
  import opened Models
  import opened Household
  import opened History

  /** Who message `i`'s history names for an event: a person only when the last accepted
      authorisation carries a name and the event's own stamp. */
  function NamedBy(tape: seq<Arrival>, i: nat, n: string, c: LockChange): Actor
    requires i <= |tape|
  {
    var auth := Latest(tape, i, n, AuthIn);
    if c.source == HomeKey && auth.Some? && OrText(auth.value.issuer, "") != "" && c.timestamp.Some?
       && auth.value.timestamp == c.timestamp
    then Person(auth.value.issuer.value)
    else Mechanism(c.source)
  }

  function Told(env: Env, tape: seq<Arrival>, i: nat, n: string, c: LockChange, via: Via): Cause
    requires i <= |tape|
  {
    Cause(n, NodeAfter(env, tape, i, n).name, LockStateOf(c.current), NamedBy(tape, i, n, c), c.source,
          c.timestamp, c.current, via)
  }

  /** The cause message `i` adds to the log, from the messages before it alone. */
  function Announced(env: Env, tape: seq<Arrival>, i: nat): Option<Cause>
    requires i < |tape|
  {
    if !tape[i].Accepted? then None
    else
      var n := tape[i].node;
      match tape[i].report
      case Change(c) =>
        if NewsIn(env, tape[i]).Some? && LatestNews(env, tape, i, n) != Some(KeyOf(c))
        then Some(Told(env, tape, i, n, c, Event)) else None
      case Snapshot(h) =>
        var before := Latest(tape, i, n, SnapshotIn);
        var change := Latest(tape, i, n, ChangeIn);
        if before.Some? && before.value.lockCurrent.Some? && h.lockCurrent.Some?
           && before.value.lockCurrent != h.lockCurrent
           && change.Some? && Some(change.value.current) == h.lockCurrent
           && DeviceInitiated(change.value.source)
           && LatestNews(env, tape, i, n) != Some(KeyOf(change.value)) && tape[i].at.Decides()
        then Some(Told(env, tape, i, n, change.value, Fallback)) else None
      case _ => None
  }

  /** Everything the first `k` messages put in the log, in order. */
  function Story(env: Env, tape: seq<Arrival>, k: nat): seq<Cause>
    requires k <= |tape|
  {
    if k == 0 then []
    else if Announced(env, tape, k - 1).Some? && tape[k - 1].at.Logs()
    then Story(env, tape, k - 1) + [Announced(env, tape, k - 1).value]
    else Story(env, tape, k - 1)
  }

  function Causes(log: seq<Entry>): seq<Cause> {
    if log == [] then [] else Causes(log[..|log| - 1]) + [log[|log| - 1].cause]
  }

  /** One step logs what the node's record calls for, and nothing else. */
  lemma StepLog(env: Env, s: House, a: Arrival)
    ensures !a.Accepted? ==> Step(env, s, a).log == s.log
    ensures a.Accepted? ==>
      var cause := CauseFor(env, a.node, NodeOf(s, a.node), a.report, a.at);
      Causes(Step(env, s, a).log) == Causes(s.log) + (if cause.Some? && a.at.Logs() then [cause.value] else [])
  {
    if a.Accepted? {
      var cause := CauseFor(env, a.node, NodeOf(s, a.node), a.report, a.at);
      if cause.Some? && a.at.Logs() {
        var log := s.log + [Entry(cause.value, s.contexts)];
        assert log[..|log| - 1] == s.log;
        assert Step(env, s, a).log == log;
      }
    }
  }

  lemma AnnouncedIsCause(env: Env, tape: seq<Arrival>, i: nat)
    requires i < |tape| && tape[i].Accepted?
    ensures Announced(env, tape, i)
         == CauseFor(env, tape[i].node, NodeAfter(env, tape, i, tape[i].node), tape[i].report, tape[i].at)
  {
  }

  /** The log of every run is exactly the story its messages call for. */
  lemma {:induction false} LogTellsTheStory(env: Env, tape: seq<Arrival>, k: nat)
    requires k <= |tape|
    ensures Causes(After(env, tape, k).log) == Story(env, tape, k)
  {
    if k > 0 {
      LogTellsTheStory(env, tape, k - 1);
      AfterStep(env, tape, k - 1);
      StepLog(env, After(env, tape, k - 1), tape[k - 1]);
      if tape[k - 1].Accepted? {
        HistoryDeterminesNodes(env, tape, k - 1, tape[k - 1].node);
        AnnouncedIsCause(env, tape, k - 1);
      }
    }
  }

  // ---- the event path ----

  predicate AnnouncesEvent(env: Env, tape: seq<Arrival>, i: nat, n: string)
    requires i < |tape|
  {
    Announced(env, tape, i).Some? && Announced(env, tape, i).value.via == Event && tape[i].node == n
  }

  lemma NewsStep(env: Env, tape: seq<Arrival>, k: nat, n: string)
    requires k < |tape|
    ensures LatestNews(env, tape, k + 1, n)
         == if Counts(tape, k, n) && NewsIn(env, tape[k]).Some? then NewsIn(env, tape[k])
             else LatestNews(env, tape, k, n)
  {
  }

  /** The last event announced for a node. */
  function LastEvent(env: Env, tape: seq<Arrival>, k: nat, n: string): Option<LockChange>
    requires k <= |tape|
  {
    if k == 0 then None
    else if AnnouncesEvent(env, tape, k - 1, n) then Some(tape[k - 1].report.change)
    else LastEvent(env, tape, k - 1, n)
  }

  /** One event: the same stamp, the same code, the same source. */
  predicate SameEvent(a: LockChange, b: LockChange) {
    a.timestamp == b.timestamp && a.current == b.current && a.source == b.source
  }

  lemma {:induction false} LastEventHasKey(env: Env, tape: seq<Arrival>, k: nat, n: string)
    requires k <= |tape|
    ensures LatestNews(env, tape, k, n)
         == if LastEvent(env, tape, k, n).Some? then Some(KeyOf(LastEvent(env, tape, k, n).value)) else None
  {
    if k > 0 {
      LastEventHasKey(env, tape, k - 1, n);
      NewsStep(env, tape, k - 1, n);
    }
  }

  /** The event path has announced this event, and no other since. */
  predicate JustAnnounced(env: Env, tape: seq<Arrival>, k: nat, n: string, c: LockChange)
    requires k <= |tape|
  {
    LastEvent(env, tape, k, n).Some? && SameEvent(LastEvent(env, tape, k, n).value, c)
  }

  /** Caused at the door rather than through Home Assistant. */
  predicate AtTheDoor(source: LockSource) {
    source == HomeKit || source == HomeKey || source == Device
  }

  /** Five minutes old at most when it arrives, unless its stamp is no date, or a date before
      2001-09-09 and so no reading of a wall clock. */
  predicate Timely(env: Env, stamp: Option<string>, now: real) {
    || stamp.None? || env.parse(stamp.value).NotADate?
    || (&& env.parse(stamp.value).Epoch?
        && (env.parse(stamp.value).seconds < 999993600.0 || now - env.parse(stamp.value).seconds <= 300.0))
  }

  /** The event path announces exactly the device-initiated, recent events that differ from the last
      one it announced for the node - in the stamp, the code or the source - when explaining them
      does not raise first. */
  lemma EventAnnouncedExactlyWhenNew(env: Env, tape: seq<Arrival>, i: nat, n: string)
    requires i < |tape|
    ensures AnnouncesEvent(env, tape, i, n)
       <==> && tape[i].Accepted? && tape[i].node == n && tape[i].report.Change?
            && AtTheDoor(tape[i].report.change.source)
            && Timely(env, tape[i].report.change.timestamp, tape[i].at.now) && tape[i].at.Decides()
            && !JustAnnounced(env, tape, i, n, tape[i].report.change)
  {
    LastEventHasKey(env, tape, i, n);
  }

  /** Message `m` is news for node `n`: an event the event path would announce but for its key. */
  predicate IsNews(env: Env, tape: seq<Arrival>, m: nat, n: string)
    requires m < |tape|
  {
    Counts(tape, m, n) && NewsIn(env, tape[m]).Some?
  }

  /** Between `i` and `k`, some news of node `n` is another event. */
  predicate OtherNews(env: Env, tape: seq<Arrival>, i: nat, k: nat, n: string, c: LockChange)
    requires k <= |tape|
  {
    exists m :: i < m < k && IsNews(env, tape, m, n) && !SameEvent(tape[m].report.change, c)
  }

  /** No announcement of the event lies strictly between. */
  predicate SilentAbout(env: Env, tape: seq<Arrival>, i: nat, k: nat, n: string, c: LockChange)
    requires k <= |tape|
  {
    forall m :: i < m < k && AnnouncesEvent(env, tape, m, n) ==> !SameEvent(tape[m].report.change, c)
  }

  lemma {:induction false} EventStandsUntilOtherNews(env: Env, tape: seq<Arrival>, i: nat, k: nat, n: string,
                                                     c: LockChange)
    requires i < k <= |tape| && IsNews(env, tape, i, n) && SameEvent(tape[i].report.change, c)
    requires SilentAbout(env, tape, i, k, n, c)
    ensures LatestNews(env, tape, k, n) == Some(KeyOf(c)) <==> !OtherNews(env, tape, i, k, n, c)
  {
    NewsStep(env, tape, k - 1, n);
    if i < k - 1 {
      EventStandsUntilOtherNews(env, tape, i, k - 1, n, c);
      if IsNews(env, tape, k - 1, n) {
        if SameEvent(tape[k - 1].report.change, c) {
          assert !AnnouncesEvent(env, tape, k - 1, n);
        } else {
          assert OtherNews(env, tape, i, k, n, c);
        }
      }
    }
  }

  /** The event path remembers one event, so it repeats it exactly when other news came in between:
      after announcing an event, a later report of it that is news, with no announcement of it in
      between, is announced iff some message since carried news of another event of the node. */
  lemma EventRepeatedIffOtherNews(env: Env, tape: seq<Arrival>, i: nat, j: nat, n: string)
    requires i < j < |tape| && AnnouncesEvent(env, tape, i, n)
    requires IsNews(env, tape, j, n) && SameEvent(tape[j].report.change, tape[i].report.change)
    requires SilentAbout(env, tape, i, j, n, tape[i].report.change)
    ensures AnnouncesEvent(env, tape, j, n) <==> OtherNews(env, tape, i, j, n, tape[i].report.change)
  {
    EventStandsUntilOtherNews(env, tape, i, j, n, tape[i].report.change);
  }

  /** An event worth announcing when it arrives, logbook and all. */
  predicate Newsworthy(env: Env, c: LockChange, at: Moment) {
    AtTheDoor(c.source) && Timely(env, c.timestamp, at.now) && at.Logs()
  }

  /** Of two such events in turn the second is announced iff it differs from the first. */
  lemma StoryOfTwo(env: Env, n: string, a: LockChange, b: LockChange, first: Moment, second: Moment)
    requires Newsworthy(env, a, first) && Newsworthy(env, b, second)
    ensures var tape := [Accepted(n, Change(a), first), Accepted(n, Change(b), second)];
            |Story(env, tape, 2)| == if SameEvent(a, b) then 1 else 2
  {
    var tape := [Accepted(n, Change(a), first), Accepted(n, Change(b), second)];
    assert LatestNews(env, tape, 0, n) == None;
    NewsStep(env, tape, 0, n);
    assert |Story(env, tape, 1)| == 1;
  }

  /** So two events delivered in turn are each announced every time. */
  lemma AlternatingEventsRepeat(env: Env, n: string, a: LockChange, b: LockChange, at: Moment)
    requires Newsworthy(env, a, at) && Newsworthy(env, b, at) && !SameEvent(a, b)
    ensures var tape := [Accepted(n, Change(a), at), Accepted(n, Change(b), at), Accepted(n, Change(a), at)];
            && AnnouncesEvent(env, tape, 0, n) && AnnouncesEvent(env, tape, 1, n) && AnnouncesEvent(env, tape, 2, n)
            && |Story(env, tape, 3)| == 3
  {
    var tape := [Accepted(n, Change(a), at), Accepted(n, Change(b), at), Accepted(n, Change(a), at)];
    assert LatestNews(env, tape, 0, n) == None;
    NewsStep(env, tape, 0, n);
    NewsStep(env, tape, 1, n);
    assert |Story(env, tape, 1)| == 1 && |Story(env, tape, 2)| == 2;
  }

  // ---- the snapshot fallback ----

  predicate NoChangeBetween(tape: seq<Arrival>, i: nat, j: nat, n: string)
    requires j <= |tape|
  {
    forall m :: i < m < j ==> !(Counts(tape, m, n) && tape[m].report.Change?)
  }

  lemma {:induction false} LatestEventStands(env: Env, tape: seq<Arrival>, i: nat, j: nat, n: string)
    requires i < j <= |tape| && NoChangeBetween(tape, i, j, n)
    requires Counts(tape, i, n) && tape[i].report.Change?
    ensures Latest(tape, j, n, ChangeIn) == Some(tape[i].report.change)
    ensures LatestNews(env, tape, j, n) == LatestNews(env, tape, i + 1, n)
  {
    if j > i + 1 {
      LatestEventStands(env, tape, i, j - 1, n);
      NewsStep(env, tape, j - 1, n);
    }
  }

  /** While event `i` is the node's latest, a snapshot returning to its state from another known
      reading announces it exactly when the event path has not: nothing else silences it, short of
      an explanation that raises first. */
  lemma FallbackSilencedIffEventAnnounced(env: Env, tape: seq<Arrival>, i: nat, j: nat, n: string)
    requires i < j < |tape| && NoChangeBetween(tape, i, j, n)
    requires Counts(tape, i, n) && tape[i].report.Change?
    requires Counts(tape, j, n) && tape[j].report.Snapshot?
    requires tape[j].report.health.lockCurrent == Some(tape[i].report.change.current)
    requires var before := Latest(tape, j, n, SnapshotIn);
             before.Some? && before.value.lockCurrent.Some?
             && before.value.lockCurrent != tape[j].report.health.lockCurrent
    ensures Announced(env, tape, j).Some?
       <==> AtTheDoor(tape[i].report.change.source) && tape[j].at.Decides()
            && !JustAnnounced(env, tape, i + 1, n, tape[i].report.change)
  {
    LatestEventStands(env, tape, i, j, n);
    LastEventHasKey(env, tape, i + 1, n);
  }

  /** Every event of the node strictly between is a copy of this one. */
  predicate OnlyCopiesBetween(tape: seq<Arrival>, i: nat, j: nat, n: string, c: LockChange)
    requires j <= |tape|
  {
    forall m :: i < m < j && Counts(tape, m, n) && tape[m].report.Change? ==> SameEvent(tape[m].report.change, c)
  }

  lemma {:induction false} AnnouncedKeyStands(env: Env, tape: seq<Arrival>, i: nat, j: nat, n: string, c: LockChange)
    requires i < j <= |tape| && AnnouncesEvent(env, tape, i, n) && tape[i].report.change == c
    requires OnlyCopiesBetween(tape, i, j, n, c)
    ensures Latest(tape, j, n, ChangeIn).Some? && KeyOf(Latest(tape, j, n, ChangeIn).value) == KeyOf(c)
    ensures LatestNews(env, tape, j, n) == Some(KeyOf(c))
  {
    NewsStep(env, tape, j - 1, n);
    if j > i + 1 {
      AnnouncedKeyStands(env, tape, i, j - 1, n, c);
    }
  }

  /** An event announced when it happened is never announced again by a snapshot until another event
      comes in - however often copies of it are delivered meanwhile, as a retained message is on
      every connect and a polled one on every poll. */
  lemma AnnouncedKeyIsNotRepeated(env: Env, tape: seq<Arrival>, i: nat, j: nat, n: string)
    requires i < j < |tape| && AnnouncesEvent(env, tape, i, n)
    requires OnlyCopiesBetween(tape, i, j, n, tape[i].report.change)
    requires Counts(tape, j, n) && tape[j].report.Snapshot?
    ensures Announced(env, tape, j).None?
  {
    AnnouncedKeyStands(env, tape, i, j, n, tape[i].report.change);
  }

  /** In particular while it is the node's latest event. */
  lemma AnnouncedEventIsNotRepeated(env: Env, tape: seq<Arrival>, i: nat, j: nat, n: string)
    requires i < j < |tape| && NoChangeBetween(tape, i, j, n) && AnnouncesEvent(env, tape, i, n)
    requires Counts(tape, j, n) && tape[j].report.Snapshot?
    ensures Announced(env, tape, j).None?
  {
    AnnouncedKeyIsNotRepeated(env, tape, i, j, n);
  }

  /** Every snapshot announcement sits at a real change between two known readings, and the event
      it names is the node's latest and reached the new reading. */
  lemma FallbackSitsAtRealChange(env: Env, tape: seq<Arrival>, j: nat) returns (before: nat, event: nat)
    requires j < |tape| && Announced(env, tape, j).Some? && Announced(env, tape, j).value.via == Fallback
    ensures before < j && event < j && tape[j].Accepted? && tape[j].report.Snapshot?
    ensures var n := tape[j].node;
            && Counts(tape, before, n) && tape[before].report.Snapshot?
            && (forall m :: before < m < j && Counts(tape, m, n) ==> !tape[m].report.Snapshot?)
            && Counts(tape, event, n) && tape[event].report.Change? && NoChangeBetween(tape, event, j, n)
            && AtTheDoor(tape[event].report.change.source)
            && tape[before].report.health.lockCurrent.Some?
            && tape[before].report.health.lockCurrent != tape[j].report.health.lockCurrent
            && tape[j].report.health.lockCurrent == Some(tape[event].report.change.current)
  {
    var n := tape[j].node;
    var b := LatestIsLast(tape, j, n, SnapshotIn);
    var e := LatestIsLast(tape, j, n, ChangeIn);
    before, event := b, e;
  }

  /** Every person named was carried by an earlier accepted authorisation of the same node, the
      latest one, stamped exactly as the event it explains. */
  lemma PersonWasAuthorised(env: Env, tape: seq<Arrival>, j: nat) returns (i: nat)
    requires j < |tape| && Announced(env, tape, j).Some? && Announced(env, tape, j).value.actor.Person?
    ensures i < j && tape[j].Accepted? && Counts(tape, i, tape[j].node) && tape[i].report.Auth?
    ensures var cause := Announced(env, tape, j).value;
            var auth := tape[i].report.auth;
            && cause.source == HomeKey && cause.actor.name != ""
            && auth.issuer == Some(cause.actor.name) && cause.stamp.Some? && auth.timestamp == cause.stamp
    ensures forall m :: i < m < j && Counts(tape, m, tape[j].node) ==> !tape[m].report.Auth?
  {
    var a := LatestIsLast(tape, j, tape[j].node, AuthIn);
    i := a;
  }

  // ---- what does not hold ----

  function Sampled(code: int): Report {
    Snapshot(NodeHealth(
      "UNKNOWN", "OK", "OK", "unknown", None, Some(code), None, None, None, None, None, None, None, None))
  }

  /** Two samples of the other state around an event, then two of the event's own. */
  function Flicker(n: string, c: LockChange, other: int, at: Moment): seq<Arrival> {
    [Accepted(n, Sampled(other), at), Accepted(n, Change(c), at), Accepted(n, Sampled(c.current), at),
     Accepted(n, Sampled(other), at), Accepted(n, Sampled(c.current), at)]
  }

  /** The fallback keeps no record of what it announces: an event too old to be news when it
      arrives is announced by every snapshot that returns to its state. */
  lemma FallbackRepeatsStaleEvents(env: Env, n: string, c: LockChange, other: int, at: Moment)
    requires AtTheDoor(c.source) && !Timely(env, c.timestamp, at.now) && at.Logs() && other != c.current
    ensures var tape := Flicker(n, c, other, at);
            && Announced(env, tape, 2).Some?
            && Story(env, tape, 5) == [Announced(env, tape, 2).value, Announced(env, tape, 2).value]
  {
    var tape := Flicker(n, c, other, at);
    FlickerLooksBack(env, n, c, other, at, 0);
    FlickerLooksBack(env, n, c, other, at, 1);
    FlickerLooksBack(env, n, c, other, at, 2);
    FlickerLooksBack(env, n, c, other, at, 3);
    assert Latest(tape, 0, n, SnapshotIn) == None;
    assert Announced(env, tape, 0) == None && Announced(env, tape, 1) == None && Announced(env, tape, 3) == None;
    assert Announced(env, tape, 2) == Some(Told(env, tape, 2, n, c, Fallback));
    assert Announced(env, tape, 4) == Some(Told(env, tape, 4, n, c, Fallback));
    assert NodeAfter(env, tape, 2, n).name == NodeAfter(env, tape, 4, n).name;
    assert Story(env, tape, 0) == [] && Story(env, tape, 1) == [] && Story(env, tape, 2) == [];
    assert Story(env, tape, 3) == [Announced(env, tape, 2).value] == Story(env, tape, 4);
  }

  lemma {:induction false} FlickerLooksBack(env: Env, n: string, c: LockChange, other: int, at: Moment, k: nat)
    requires k < 5 && DeviceInitiated(c.source) && !IsRecent(env, c.timestamp, at.now)
    ensures var tape := Flicker(n, c, other, at);
            && Latest(tape, k + 1, n, SnapshotIn)
               == (if k == 1 then Latest(tape, k, n, SnapshotIn) else Some(tape[k].report.health))
            && Latest(tape, k + 1, n, ChangeIn) == (if k == 0 then None else Some(c))
            && LatestNews(env, tape, k + 1, n) == None
            && Latest(tape, k + 1, n, AuthIn) == None && Latest(tape, k + 1, n, IdentityIn) == None
  {
    var tape := Flicker(n, c, other, at);
    if k > 0 {
      FlickerLooksBack(env, n, c, other, at, k - 1);
    }
    NewsStep(env, tape, k, n);
  }

  /** There are such events: the lemma above applies to one dated years before it is delivered. */
  lemma StaleEventExists()
    ensures var env := Env("HOME", r => None, s => Epoch(1000000000.0), j => "");
            !Timely(env, Some("2001-09-09T01:46:40+00:00"), 2000000000.0)
  {
  }
}
