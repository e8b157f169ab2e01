/** The failure-streak machine over the direct transport, and when a node is online over whole
    runs of scheduled and one-shot polls. */
module Poller {
  import opened Json
  import opened Models
  import opened Household
  import opened Isolation
  import opened Direct
  import opened Polling

  const OFFLINE_AFTER: nat := 3

  datatype PollerState = PollerState(nodeId: Option<string>, failures: nat, mismatchLogged: bool)

  /** The poller, the household it feeds, and how many offline messages it has sent. */
  datatype World = World(poller: PollerState, house: House, offlineSent: nat)

  const START: World := World(PollerState(None, 0, false), EMPTY, 0)

  /** What the node's endpoints gave: a transport error, or the two documents and the guest one
      (None when it is missing or could not be read). */
  datatype Fetch = Unreachable | Answer(info: Doc, state: Doc, guest: Option<Json>)

  /** How a poll ends: normally, with a counted error, or with an error nobody converts. */
  datatype Outcome = Done | Raised | Crashed

  datatype Poll = Scheduled(fetch: Fetch, clock: nat -> Moment) | OneShot(fetch: Fetch, clock: nat -> Moment)

  /** Ingest a response of the entry's household, restated as messages. */
  function PublishState(env: Env, w: World, slots: Option<seq<Option<Message>>>, n: string, clock: nat -> Moment)
    : (World, Outcome)
    requires slots.Some? ==> |slots.value| == SLOTS
  {
    if slots.None? then (w.(poller := w.poller.(nodeId := Some(n))), Crashed)
    else
      (w.(poller := w.poller.(nodeId := Some(n), failures := 0),
          house := PollHouse(env, w.house, slots.value, clock, SLOTS)), Done)
  }

  function PollOnce(env: Env, w: World, fetch: Fetch, clock: nat -> Moment): (World, Outcome) {
    match fetch
    case Unreachable => (w, Raised)
    case Answer(info, state, guest) =>
      match ResolveIdentity(env, state, info)
      case NoNodeId => (w, Raised)
      case NoHousehold => (w, Raised)
      case Found(h, n) =>
        if h != env.household then (w.(poller := w.poller.(mismatchLogged := true)), Done)
        else PublishState(env, w, Slots(state, info, guest, h, n), n, clock)
  }

  function OfflineMessage(env: Env, n: string): Message {
    Message(env.household, Some(n), Status, Text("offline"))
  }

  /** A counted failure: the third in a row takes a known node offline. */
  function Fail(env: Env, w: World, at: Moment): World {
    var failures := w.poller.failures + 1;
    var counted := w.(poller := w.poller.(failures := failures));
    if failures == OFFLINE_AFTER && w.poller.nodeId.Some? && w.poller.nodeId != Some("") then
      counted.(house := HandleAll(env, w.house, [Delivery(OfflineMessage(env, w.poller.nodeId.value), at)]),
               offlineSent := w.offlineSent + 1)
    else counted
  }

  /** What the scheduled poll makes of how a poll ended. */
  function Settle(env: Env, w: World, outcome: Outcome, at: Moment): World {
    match outcome
    case Raised => Fail(env, w, at)
    case Done => w.(poller := w.poller.(failures := 0))
    case Crashed => w
  }

  function PollSafely(env: Env, w: World, fetch: Fetch, clock: nat -> Moment): World {
    var (after, outcome) := PollOnce(env, w, fetch, clock);
    Settle(env, after, outcome, clock(0))
  }

  function Handle(env: Env, w: World, p: Poll): World {
    match p
    case Scheduled(fetch, clock) => PollSafely(env, w, fetch, clock)
    case OneShot(fetch, clock) => PollOnce(env, w, fetch, clock).0
  }

  function RunPolls(env: Env, ps: seq<Poll>, k: nat): World
    requires k <= |ps|
  {
    if k == 0 then START else Handle(env, RunPolls(env, ps, k - 1), ps[k - 1])
  }

  /** `str()` of a JSON value; a text is its own. */
  predicate RendersAs(env: Env, j: Json, text: string) {
    if j.JStr? then j.text == text else env.show(j) == text
  }

  /** Who answered: the node id of the state document wins over that of the info document, and
      without either, or without a household, the poll raises. */
  lemma PollResolvesAs(env: Env, w: World, state: Doc, info: Doc, guest: Option<Json>, clock: nat -> Moment,
                       h: string, n: string)
    ensures var (after, outcome) := PollOnce(env, w, Answer(info, state, guest), clock);
            var own, spare := Get(state, "node_id"), Get(SubDoc(info, "device"), "node_id");
            var household, node := Get(state, "household_id"), if Truthy(own) then own else spare;
            && (outcome.Raised? <==> !Truthy(node) || !Truthy(household)) && (outcome.Raised? ==> after == w)
            && (!outcome.Raised? && RendersAs(env, household, h) && RendersAs(env, node, n) ==>
                  if h != env.household then after == w.(poller := w.poller.(mismatchLogged := true)) && outcome.Done?
                  else && after.poller.nodeId == Some(n)
                       && (outcome.Crashed? <==> Slots(state, info, guest, h, n).None?)
                       && after.house == if outcome.Crashed? then w.house
                            else PollHouse(env, w.house, Slots(state, info, guest, h, n).value, clock, SLOTS))
  {
  }

  // ---- what a poll is worth ----

  /** A matched success, a counted failure, a scheduled poll that found another household, or a
      poll that bears on neither streak nor presence. */
  datatype Mark = Match | Miss | Strayed | Neutral

  function MarkOf(env: Env, p: Poll): Mark {
    if p.fetch.Unreachable? then (if p.Scheduled? then Miss else Neutral)
    else
      match ResolveIdentity(env, p.fetch.state, p.fetch.info)
      case NoNodeId => if p.Scheduled? then Miss else Neutral
      case NoHousehold => if p.Scheduled? then Miss else Neutral
      case Found(h, n) =>
        if h != env.household then (if p.Scheduled? then Strayed else Neutral)
        else if Slots(p.fetch.state, p.fetch.info, p.fetch.guest, h, n).None? then Neutral
        else Match
  }

  /** The polls of a run that count, in order. */
  function Marks(env: Env, ps: seq<Poll>, k: nat): seq<Mark>
    requires k <= |ps|
  {
    if k == 0 then []
    else if MarkOf(env, ps[k - 1]).Neutral? then Marks(env, ps, k - 1)
    else Marks(env, ps, k - 1) + [MarkOf(env, ps[k - 1])]
  }

  /** Three counted failures in a row, from position `i`. */
  predicate ThreeMisses(marks: seq<Mark>, i: nat) {
    i + 2 < |marks| && marks[i].Miss? && marks[i + 1].Miss? && marks[i + 2].Miss?
  }

  /** A matched success with no three consecutive counted failures since. */
  predicate ShouldBeOnline(marks: seq<Mark>) {
    exists i :: 0 <= i < |marks| && marks[i].Match? && forall j :: i < j < |marks| ==> !ThreeMisses(marks, j)
  }

  /** How many counted failures end the marks. */
  function Trailing(marks: seq<Mark>): nat {
    if marks == [] || !marks[|marks| - 1].Miss? then 0 else 1 + Trailing(marks[..|marks| - 1])
  }

  lemma {:induction false} TrailingAreMisses(marks: seq<Mark>)
    ensures Trailing(marks) <= |marks|
    ensures forall i :: |marks| - Trailing(marks) <= i < |marks| ==> marks[i].Miss?
    ensures Trailing(marks) < |marks| ==> !marks[|marks| - Trailing(marks) - 1].Miss?
  {
    if marks != [] && marks[|marks| - 1].Miss? {
      TrailingAreMisses(marks[..|marks| - 1]);
    }
  }

  lemma ShouldBeOnlineStep(marks: seq<Mark>, m: Mark)
    ensures m.Match? ==> ShouldBeOnline(marks + [m])
    ensures m.Strayed? ==> (ShouldBeOnline(marks + [m]) <==> ShouldBeOnline(marks))
    ensures m.Miss? ==> (ShouldBeOnline(marks + [m]) <==> ShouldBeOnline(marks) && Trailing(marks) < 2)
  {
    var longer := marks + [m];
    TrailingAreMisses(marks);
    if m.Match? {
      assert longer[|marks|].Match?;
    } else {
      if m.Miss? && Trailing(marks) >= 2 {
        assert ThreeMisses(longer, |marks| - 2);
      }
      if ShouldBeOnline(longer) {
        var i :| 0 <= i < |longer| && longer[i].Match? && forall j :: i < j < |longer| ==> !ThreeMisses(longer, j);
        assert marks[i].Match?;
        forall j | i < j < |marks| ensures !ThreeMisses(marks, j) { assert !ThreeMisses(longer, j); }
      }
      if ShouldBeOnline(marks) && (m.Miss? ==> Trailing(marks) < 2) {
        var i :| 0 <= i < |marks| && marks[i].Match? && forall j :: i < j < |marks| ==> !ThreeMisses(marks, j);
        assert longer[i].Match?;
        forall j | i < j < |longer| ensures !ThreeMisses(longer, j) {
          if ThreeMisses(longer, j) {
            assert j + 2 < |marks| ==> ThreeMisses(marks, j);
          }
        }
      }
    }
  }

  lemma LongStreakIsOffline(marks: seq<Mark>)
    requires Trailing(marks) >= OFFLINE_AFTER
    ensures !ShouldBeOnline(marks)
  {
    TrailingAreMisses(marks);
    assert ThreeMisses(marks, |marks| - 3);
  }

  // ---- the machine follows the marks ----

  /** This poll resolves to the entry's household, as node `n`. */
  predicate Resolves(env: Env, p: Poll, n: string) {
    p.fetch.Answer? && ResolveIdentity(env, p.fetch.state, p.fetch.info) == Found(env.household, n)
  }

  /** A poll that resolves to the entry's household does so as node `n`. */
  predicate SameNode(env: Env, p: Poll, n: string) {
    p.fetch.Answer? ==>
      var r := ResolveIdentity(env, p.fetch.state, p.fetch.info);
      r.Found? && r.household == env.household ==> r.node == n
  }

  /** The node keeps one id for the run. */
  predicate Stable(env: Env, ps: seq<Poll>, n: string) {
    n != "" && forall i :: 0 <= i < |ps| ==> SameNode(env, ps[i], n)
  }

  lemma MatchedPollIsOnline(env: Env, s: House, state: Doc, info: Doc, guest: Option<Json>, n: string,
      clock: nat -> Moment)
    requires Slots(state, info, guest, env.household, n).Some? && n != ""
    ensures NodeOf(PollHouse(env, s, Slots(state, info, guest, env.household, n).value, clock, SLOTS), n).online
  {
    var slots := Slots(state, info, guest, env.household, n).value;
    SlotsArePollSlots(env, state, info, guest, n);
    ReportsArePollReports(env, slots, n);
    PollTracksNode(env, s, slots, clock, n, SLOTS);
    FoldIsPolled(env, NodeOf(s, n), ReportsOf(env, slots, n), clock);
  }

  lemma OfflineWord(env: Env, n: string, at: Moment)
    requires n != ""
    ensures Read(env, Delivery(OfflineMessage(env, n), at)) == Accepted(n, Online(false), at)
  {
    assert Strip("offline") == "offline";
    assert Lower("offline") == "offline";
  }

  lemma OfflineMessageLands(env: Env, s: House, n: string, at: Moment)
    requires n != ""
    ensures !NodeOf(HandleAll(env, s, [Delivery(OfflineMessage(env, n), at)]), n).online
  {
    var d := Delivery(OfflineMessage(env, n), at);
    OneDelivery(env, s, d);
    OfflineWord(env, n, at);
    StepNode(env, s, Read(env, d), n);
  }

  lemma FailByCount(env: Env, w: World, at: Moment, n: string)
    requires n != "" && (w.poller.nodeId == None || w.poller.nodeId == Some(n))
    ensures var w' := Fail(env, w, at);
            && w'.poller == w.poller.(failures := w.poller.failures + 1)
            && if w'.poller.failures == OFFLINE_AFTER && w.poller.nodeId.Some?
               then !NodeOf(w'.house, n).online && w'.offlineSent == w.offlineSent + 1
               else w'.house == w.house && w'.offlineSent == w.offlineSent
  {
    OfflineMessageLands(env, w.house, n, at);
  }

  /** What one poll does, by its mark. */
  lemma HandleByMark(env: Env, w: World, p: Poll, n: string)
    requires n != "" && (w.poller.nodeId == None || w.poller.nodeId == Some(n))
    requires SameNode(env, p, n)
    ensures var w' := Handle(env, w, p);
            var online, online' := NodeOf(w.house, n).online, NodeOf(w'.house, n).online;
            && w'.poller.nodeId == (if Resolves(env, p, n) then Some(n) else w.poller.nodeId)
            && match MarkOf(env, p)
               case Match => Resolves(env, p, n) && w'.poller.failures == 0 && online'
                             && w'.offlineSent == w.offlineSent
               case Strayed => w'.poller.failures == 0 && online' == online && w'.offlineSent == w.offlineSent
               case Neutral => w'.poller.failures == w.poller.failures && online' == online
                               && w'.offlineSent == w.offlineSent
               case Miss =>
                 && w'.poller.failures == w.poller.failures + 1
                 && if w'.poller.failures == OFFLINE_AFTER && w.poller.nodeId.Some?
                    then !online' && w'.offlineSent == w.offlineSent + 1
                    else online' == online && w'.offlineSent == w.offlineSent
  {
    match MarkOf(env, p)
    case Match => MatchedPollIsOnline(env, w.house, p.fetch.state, p.fetch.info, p.fetch.guest, n, p.clock);
    case Miss => FailByCount(env, w, p.clock(0), n);
    case _ =>
  }

  /** Some poll before `k` resolved to the entry's household. */
  predicate Known(env: Env, ps: seq<Poll>, k: nat, n: string)
    requires k <= |ps|
  {
    exists i :: 0 <= i < k && Resolves(env, ps[i], n)
  }

  /** How many runs of counted failures reached three, for a node whose id was already known. */
  function Streaks(env: Env, ps: seq<Poll>, k: nat, n: string): nat
    requires k <= |ps|
  {
    if k == 0 then 0
    else
      Streaks(env, ps, k - 1, n)
      + if MarkOf(env, ps[k - 1]).Miss? && Trailing(Marks(env, ps, k)) == OFFLINE_AFTER && Known(env, ps, k - 1, n)
        then 1 else 0
  }

  lemma {:induction false} MatchIsKnown(env: Env, ps: seq<Poll>, k: nat, n: string)
    requires k <= |ps| && Stable(env, ps, n) && Match in Marks(env, ps, k)
    ensures Known(env, ps, k, n)
  {
    if k > 0 {
      if MarkOf(env, ps[k - 1]).Match? {
        assert SameNode(env, ps[k - 1], n);
        assert Resolves(env, ps[k - 1], n);
      } else {
        MatchIsKnown(env, ps, k - 1, n);
      }
    }
  }

  predicate Tracks(w: World, marks: seq<Mark>, known: bool, streaks: nat, n: string) {
    && (NodeOf(w.house, n).online <==> ShouldBeOnline(marks))
    && w.poller.failures == Trailing(marks) && w.offlineSent == streaks
    && w.poller.nodeId == if known then Some(n) else None
  }

  lemma TracksStep(env: Env, w: World, p: Poll, n: string, marks: seq<Mark>, known: bool, streaks: nat)
    requires n != "" && SameNode(env, p, n) && Tracks(w, marks, known, streaks, n)
    requires ShouldBeOnline(marks) ==> known
    ensures var m := MarkOf(env, p);
            var marks' := if m.Neutral? then marks else marks + [m];
            Tracks(Handle(env, w, p), marks', known || Resolves(env, p, n),
                   streaks + (if m.Miss? && Trailing(marks') == OFFLINE_AFTER && known then 1 else 0), n)
  {
    var m := MarkOf(env, p);
    HandleByMark(env, w, p, n);
    if !m.Neutral? {
      ShouldBeOnlineStep(marks, m);
      if Trailing(marks) >= OFFLINE_AFTER {
        LongStreakIsOffline(marks);
      }
      assert (marks + [m])[..|marks|] == marks;
    }
  }

  lemma KnownStep(env: Env, ps: seq<Poll>, k: nat, n: string)
    requires 0 < k <= |ps|
    ensures Known(env, ps, k, n) <==> Known(env, ps, k - 1, n) || Resolves(env, ps[k - 1], n)
  {
    if Known(env, ps, k, n) {
      var i :| 0 <= i < k && Resolves(env, ps[i], n);
      assert i == k - 1 || Known(env, ps, k - 1, n);
    }
  }

  lemma {:induction false} RunTracks(env: Env, ps: seq<Poll>, k: nat, n: string)
    requires k <= |ps| && Stable(env, ps, n)
    ensures Tracks(RunPolls(env, ps, k), Marks(env, ps, k), Known(env, ps, k, n), Streaks(env, ps, k, n), n)
  {
    if k > 0 {
      RunTracks(env, ps, k - 1, n);
      assert SameNode(env, ps[k - 1], n);
      KnownStep(env, ps, k, n);
      if ShouldBeOnline(Marks(env, ps, k - 1)) {
        MatchIsKnown(env, ps, k - 1, n);
      }
      TracksStep(env, RunPolls(env, ps, k - 1), ps[k - 1], n, Marks(env, ps, k - 1),
                 Known(env, ps, k - 1, n), Streaks(env, ps, k - 1, n));
    }
  }

  /** After any run of non-overlapping polls of a node with a stable id, the node is online iff
      there was a matched success and since the last one no three consecutive counted failures;
      and exactly one offline message was sent per streak reaching three. */
  lemma OnlineFollowsStreaks(env: Env, ps: seq<Poll>, n: string)
    requires Stable(env, ps, n)
    ensures NodeOf(RunPolls(env, ps, |ps|).house, n).online <==> ShouldBeOnline(Marks(env, ps, |ps|))
    ensures RunPolls(env, ps, |ps|).offlineSent == Streaks(env, ps, |ps|, n)
  {
    RunTracks(env, ps, |ps|, n);
  }
}
