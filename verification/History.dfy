/** What a run leaves behind, said without the machine: every field of a node is the content of
    the last accepted message that carries it. */
module History {
  import opened Json
  import opened Models
  import opened Household

  // ---- what one arrival carries ----

  function IdentityIn(a: Arrival): Option<NodeState> {
    if a.Accepted? && a.report.Identity? then Some(a.report.state) else None
  }

  function GenerationIn(a: Arrival): Option<int> {
    if a.Accepted? && a.report.Identity? then a.report.state.generation else None
  }

  function FirmwareIn(a: Arrival): Option<string> {
    if a.Accepted? && a.report.Identity? then a.report.state.firmware else None
  }

  function StatusIn(a: Arrival): Option<bool> {
    if a.Accepted? && a.report.Online? then Some(a.report.up) else None
  }

  function WillIn(a: Arrival): Option<bool> {
    if a.Accepted? && a.report.Will? then Some(a.report.alive) else None
  }

  /** A sign of life: any status word, or a will saying online. */
  function SignIn(a: Arrival): Option<real> {
    if a.Accepted? && (a.report.Online? || a.report == Will(true)) then Some(a.at.now) else None
  }

  function SnapshotIn(a: Arrival): Option<NodeHealth> {
    if a.Accepted? && a.report.Snapshot? then Some(a.report.health) else None
  }

  function SecurityIn(a: Arrival): Option<SecurityState> {
    if a.Accepted? && a.report.SecurityWas? then Some(a.report.security) else None
  }

  function OutcomeIn(a: Arrival): Option<BackupOutcome> {
    if a.Accepted? && a.report.BackupWas? then Some(a.report.outcome) else None
  }

  function RecordIn(a: Arrival): Option<BackupRecord> {
    if a.Accepted? && a.report.Backup? then Some(a.report.record) else None
  }

  function AuthIn(a: Arrival): Option<LastAuth> {
    if a.Accepted? && a.report.Auth? then Some(a.report.auth) else None
  }

  function GuestIn(a: Arrival): Option<GuestState> {
    if a.Accepted? && a.report.Guest? then Some(a.report.guest) else None
  }

  function ChangeIn(a: Arrival): Option<LockChange> {
    if a.Accepted? && a.report.Change? then Some(a.report.change) else None
  }

  /** A lock reading by either document: the state it says, and whether it is an event. */
  function ReadingIn(a: Arrival): Option<bool> {
    if a.Accepted? && (a.report.Change? || a.report.Snapshot?) then Some(a.report.Change?) else None
  }

  /** A lock event worth announcing: device-initiated, recent when it arrived, and explained
      without raising first. */
  function NewsIn(env: Env, a: Arrival): Option<Key> {
    if a.Accepted? && a.report.Change? && DeviceInitiated(a.report.change.source)
       && IsRecent(env, a.report.change.timestamp, a.at.now) && a.at.Decides()
    then Some(KeyOf(a.report.change)) else None
  }

  // ---- looking back ----

  predicate Registered(tape: seq<Arrival>, k: nat, n: string)
    requires k <= |tape|
  {
    exists i :: 0 <= i < k && Registers(tape[i], n)
  }

  /** Message `i` concerns node `n`. A will does only once the node is registered: it carries no
      household identity and creates nothing. */
  predicate Counts(tape: seq<Arrival>, i: nat, n: string)
    requires i < |tape|
  {
    tape[i].Accepted? && tape[i].node == n && (tape[i].report.Will? ==> Registered(tape, i, n))
  }

  /** What the last message about node `n` to carry it, among the first `k`, carried. */
  function Latest<T>(tape: seq<Arrival>, k: nat, n: string, carried: Arrival -> Option<T>): Option<T>
    requires k <= |tape|
  {
    if k == 0 then None
    else if Counts(tape, k - 1, n) && carried(tape[k - 1]).Some? then carried(tape[k - 1])
    else Latest(tape, k - 1, n, carried)
  }

  /** `Latest` is what its name says: found at a position with nothing of the kind after it. */
  lemma {:induction false} LatestIsLast<T>(tape: seq<Arrival>, k: nat, n: string, carried: Arrival -> Option<T>)
    returns (i: int)
    requires k <= |tape|
    ensures -1 <= i < k
    ensures i < 0 ==> Latest(tape, k, n, carried).None?
    ensures i >= 0 ==> Counts(tape, i, n) && carried(tape[i]).Some? && Latest(tape, k, n, carried) == carried(tape[i])
    ensures forall j :: i < j < k ==> !(Counts(tape, j, n) && carried(tape[j]).Some?)
  {
    if k == 0 {
      i := -1;
    } else if Counts(tape, k - 1, n) && carried(tape[k - 1]).Some? {
      i := k - 1;
    } else {
      i := LatestIsLast(tape, k - 1, n, carried);
    }
  }

  function LatestNews(env: Env, tape: seq<Arrival>, k: nat, n: string): Option<Key>
    requires k <= |tape|
  {
    Latest(tape, k, n, a => NewsIn(env, a))
  }

  /** The node record the first `k` messages of a history call for. */
  function NodeAfter(env: Env, tape: seq<Arrival>, k: nat, n: string): NodeRecord
    requires k <= |tape|
  {
    var identity := Latest(tape, k, n, IdentityIn).GetOr(NodeState(n, "other", "UNKNOWN", None, None));
    NodeRecord(
      identity.name, identity.role, identity.state,
      Latest(tape, k, n, GenerationIn), Latest(tape, k, n, FirmwareIn),
      Latest(tape, k, n, StatusIn).GetOr(false), Latest(tape, k, n, WillIn), Latest(tape, k, n, SignIn),
      Latest(tape, k, n, SnapshotIn), Latest(tape, k, n, SecurityIn), Latest(tape, k, n, OutcomeIn),
      Latest(tape, k, n, RecordIn), Latest(tape, k, n, AuthIn), Latest(tape, k, n, GuestIn),
      Latest(tape, k, n, ChangeIn), Latest(tape, k, n, ReadingIn).GetOr(false),
      LatestNews(env, tape, k, n))
  }

  function After(env: Env, tape: seq<Arrival>, k: nat): House
    requires k <= |tape|
  {
    Run(env, EMPTY, tape[..k])
  }

  lemma AfterStep(env: Env, tape: seq<Arrival>, k: nat)
    requires k < |tape|
    ensures After(env, tape, k + 1) == Step(env, After(env, tape, k), tape[k])
  {
    assert tape[..k + 1][..k] == tape[..k];
  }

  lemma RegisteredStep(tape: seq<Arrival>, k: nat, n: string)
    requires k < |tape|
    ensures Registered(tape, k + 1, n) <==> Registered(tape, k, n) || Registers(tape[k], n)
  {
  }

  lemma NodeAfterSkip(env: Env, tape: seq<Arrival>, k: nat, n: string)
    requires k < |tape| && !Counts(tape, k, n)
    ensures NodeAfter(env, tape, k + 1, n) == NodeAfter(env, tape, k, n)
  {
  }

  lemma NodeAfterLockReport(env: Env, tape: seq<Arrival>, k: nat, n: string)
    requires k < |tape| && Counts(tape, k, n)
    requires tape[k].report.Change? || tape[k].report.Snapshot?
    ensures NodeAfter(env, tape, k + 1, n)
         == Merge(env, NodeAfter(env, tape, k, n), tape[k].report, tape[k].at)
  {
  }

  lemma NodeAfterPresence(env: Env, tape: seq<Arrival>, k: nat, n: string)
    requires k < |tape| && Counts(tape, k, n)
    requires tape[k].report.Online? || tape[k].report.Will? || tape[k].report.Identity?
    ensures NodeAfter(env, tape, k + 1, n)
         == Merge(env, NodeAfter(env, tape, k, n), tape[k].report, tape[k].at)
  {
  }

  lemma NodeAfterMerge(env: Env, tape: seq<Arrival>, k: nat, n: string)
    requires k < |tape| && Counts(tape, k, n)
    ensures NodeAfter(env, tape, k + 1, n)
         == Merge(env, NodeAfter(env, tape, k, n), tape[k].report, tape[k].at)
  {
    match tape[k].report
    case Change(_) => NodeAfterLockReport(env, tape, k, n);
    case Snapshot(_) => NodeAfterLockReport(env, tape, k, n);
    case Online(_) => NodeAfterPresence(env, tape, k, n);
    case Will(_) => NodeAfterPresence(env, tape, k, n);
    case Identity(_) => NodeAfterPresence(env, tape, k, n);
    case _ =>
  }

  /** Every message sequence leaves exactly the registry its history calls for. */
  lemma {:induction false} HistoryDeterminesNodes(env: Env, tape: seq<Arrival>, k: nat, n: string)
    requires k <= |tape|
    ensures n in After(env, tape, k).nodes <==> Registered(tape, k, n)
    ensures NodeOf(After(env, tape, k), n) == NodeAfter(env, tape, k, n)
  {
    if k > 0 {
      HistoryDeterminesNodes(env, tape, k - 1, n);
      AfterStep(env, tape, k - 1);
      RegisteredStep(tape, k - 1, n);
      StepNode(env, After(env, tape, k - 1), tape[k - 1], n);
      if Counts(tape, k - 1, n) {
        NodeAfterMerge(env, tape, k - 1, n);
      } else {
        NodeAfterSkip(env, tape, k - 1, n);
      }
    }
  }

  /** The code a lock document carries: the event's own, or the snapshot's sample. */
  function CodeOf(r: Report): Option<int>
    requires r.Change? || r.Snapshot?
  {
    if r.Change? then Some(r.change.current) else r.health.lockCurrent
  }

  /** The code of a node's freshest lock report. */
  function FreshCode(node: NodeRecord): Option<int> {
    if node.changeIsFresh && node.lockChange.Some? then Some(node.lockChange.value.current)
    else if node.health.Some? then node.health.value.lockCurrent
    else None
  }

  /** The lock's numbering: every other code, or none, is unknown. */
  predicate ReadsAs(code: Option<int>, state: LockState) {
    && (state == Unlocked <==> code == Some(0)) && (state == Locked <==> code == Some(1))
    && (state == Jammed <==> code == Some(2)) && (state == Unlocking <==> code == Some(4))
    && (state == Locking <==> code == Some(5))
  }

  lemma FreshCodeReads(node: NodeRecord)
    ensures ReadsAs(FreshCode(node), node.LockState())
  {
  }

  /** The lock state entities see is what the code of the latest lock document of either kind says. */
  lemma LockStateIsLatestReading(env: Env, tape: seq<Arrival>, k: nat, n: string) returns (i: int)
    requires k <= |tape|
    ensures -1 <= i < k
    ensures forall j :: i < j < k && Counts(tape, j, n) ==> !tape[j].report.Change? && !tape[j].report.Snapshot?
    ensures i >= 0 ==> Counts(tape, i, n) && (tape[i].report.Change? || tape[i].report.Snapshot?)
    ensures FreshCode(NodeOf(After(env, tape, k), n)) == if i < 0 then None else CodeOf(tape[i].report)
    ensures ReadsAs(if i < 0 then None else CodeOf(tape[i].report), NodeOf(After(env, tape, k), n).LockState())
  {
    HistoryDeterminesNodes(env, tape, k, n);
    i := LatestIsLast(tape, k, n, ReadingIn);
    var change := LatestIsLast(tape, k, n, ChangeIn);
    var snapshot := LatestIsLast(tape, k, n, SnapshotIn);
    assert change == i || snapshot == i;
    FreshCodeReads(NodeOf(After(env, tape, k), n));
  }

  /** A node is available iff its last status word was online and its last will, if it had one
      while registered, was online too. */
  lemma AvailableIffLastWords(env: Env, tape: seq<Arrival>, k: nat, n: string) returns (status: int, will: int)
    requires k <= |tape|
    ensures -1 <= status < k && -1 <= will < k
    ensures status >= 0 ==> Counts(tape, status, n) && tape[status].report.Online?
    ensures will >= 0 ==> Counts(tape, will, n) && tape[will].report.Will?
    ensures forall j :: status < j < k && Counts(tape, j, n) ==> !tape[j].report.Online?
    ensures forall j :: will < j < k && Counts(tape, j, n) ==> !tape[j].report.Will?
    ensures NodeOf(After(env, tape, k), n).Available()
       <==> status >= 0 && tape[status].report.up && (will >= 0 ==> tape[will].report.alive)
  {
    HistoryDeterminesNodes(env, tape, k, n);
    status := LatestIsLast(tape, k, n, StatusIn);
    will := LatestIsLast(tape, k, n, WillIn);
  }

  /** The same over raw deliveries: the registry depends only on what they read as. */
  lemma DeliveriesDetermineNodes(env: Env, ds: seq<Delivery>, n: string)
    ensures var tape := ReadAll(env, ds);
            && (n in HandleAll(env, EMPTY, ds).nodes <==> Registered(tape, |tape|, n))
            && NodeOf(HandleAll(env, EMPTY, ds), n) == NodeAfter(env, tape, |tape|, n)
  {
    var tape := ReadAll(env, ds);
    assert tape[..|tape|] == tape;
    HistoryDeterminesNodes(env, tape, |tape|, n);
  }
}
