/** What rejected messages do to a whole run: nothing, but for the nodes they register, whose wills
    count from then on. */
module Refusals {
  import opened Json
  import opened Models
  import opened Household
  import opened History

  /** A history without its refusals. */
  function Heard(tape: seq<Arrival>): seq<Arrival> {
    if tape == [] then []
    else
      var last := tape[|tape| - 1];
      Heard(tape[..|tape| - 1]) + if last.Refused? then [] else [last]
  }

  /** An accepted report, not a will, has registered node `n` before `k`. */
  predicate HeardFrom(tape: seq<Arrival>, k: nat, n: string)
    requires k <= |tape|
  {
    exists i :: 0 <= i < k && tape[i].Accepted? && tape[i].node == n && !tape[i].report.Will?
  }

  /** A will that counts only because a refusal has registered its node. */
  predicate EarlyWill(tape: seq<Arrival>, i: int, n: string)
    requires i < |tape|
  {
    i >= 0 && Counts(tape, i, n) && tape[i].report.Will? && !HeardFrom(tape, i, n)
  }

  /** Where the last message about node `n` to carry it lies, or -1. */
  function LastAt<T>(tape: seq<Arrival>, k: nat, n: string, carried: Arrival -> Option<T>): (i: int)
    requires k <= |tape|
    ensures -1 <= i < k
  {
    if k == 0 then -1
    else if Counts(tape, k - 1, n) && carried(tape[k - 1]).Some? then k - 1
    else LastAt(tape, k - 1, n, carried)
  }

  /** The run so far, and the same without its refusals. */
  function HeardAfter(env: Env, tape: seq<Arrival>, k: nat): House
    requires k <= |tape|
  {
    Run(env, EMPTY, Heard(tape[..k]))
  }

  lemma HeardStep(env: Env, tape: seq<Arrival>, k: nat)
    requires k < |tape|
    ensures HeardAfter(env, tape, k + 1)
         == if tape[k].Refused? then HeardAfter(env, tape, k) else Step(env, HeardAfter(env, tape, k), tape[k])
  {
    assert tape[..k + 1][..k] == tape[..k];
    var before := Heard(tape[..k]);
    if tape[k].Refused? {
      assert before + [] == before;
    } else {
      assert (before + [tape[k]])[..|before|] == before;
    }
  }

  /** A record but for the two fields a will sets. */
  function ButWills(node: NodeRecord): NodeRecord {
    node.(lwtOnline := None, lastSeen := None)
  }

  /** How node `n` of a run relates to that of the run without refusals. */
  predicate Alike(tape: seq<Arrival>, k: nat, n: string, node: NodeRecord, heard: NodeRecord)
    requires k <= |tape|
  {
    AlikeBut(node, heard, EarlyWill(tape, LastAt(tape, k, n, WillIn), n),
        EarlyWill(tape, LastAt(tape, k, n, SignIn), n))
  }

  /** The same but for the will's word and the sign of life, where those were only let in. */
  predicate AlikeBut(node: NodeRecord, heard: NodeRecord, word: bool, sign: bool) {
    && ButWills(node) == ButWills(heard)
    && (if word then node.lwtOnline.Some? && heard.lwtOnline.None? else node.lwtOnline == heard.lwtOnline)
    && (if sign then node.lastSeen.Some? && heard.lastSeen.None? else node.lastSeen == heard.lastSeen)
  }

  predicate SameNotices(a: seq<Notice>, b: seq<Notice>) {
    |a| == |b| && forall i :: 0 <= i < |a| ==> a[i].about == b[i].about && a[i].pending == b[i].pending
  }

  predicate SameStory(t: House, u: House) {
    t.log == u.log && t.contexts == u.contexts && t.pending == u.pending && SameNotices(t.notices, u.notices)
  }

  lemma HeardFromStep(tape: seq<Arrival>, k: nat, n: string)
    requires k < |tape|
    ensures HeardFrom(tape, k + 1, n)
       <==> HeardFrom(tape, k, n) || (tape[k].Accepted? && tape[k].node == n && !tape[k].report.Will?)
    ensures HeardFrom(tape, k, n) ==> Registered(tape, k, n)
  {
    if i :| 0 <= i < k && tape[i].Accepted? && tape[i].node == n && !tape[i].report.Will? {
      assert Registers(tape[i], n);
    }
  }

  lemma ButWillsMerge(env: Env, a: NodeRecord, b: NodeRecord, n: string, r: Report, at: Moment)
    requires ButWills(a) == ButWills(b)
    ensures ButWills(Merge(env, a, r, at)) == ButWills(Merge(env, b, r, at))
    ensures CauseFor(env, n, a, r, at) == CauseFor(env, n, b, r, at)
    ensures r.Will? ==> ButWills(Merge(env, a, r, at)) == ButWills(a)
  {
  }

  lemma {:induction false} AlikeAfter(env: Env, tape: seq<Arrival>, k: nat, n: string)
    requires k <= |tape|
    ensures n in HeardAfter(env, tape, k).nodes <==> HeardFrom(tape, k, n)
    ensures Alike(tape, k, n, NodeOf(After(env, tape, k), n), NodeOf(HeardAfter(env, tape, k), n))
  {
    if k > 0 {
      AlikeAfter(env, tape, k - 1, n);
      AlikeStep(env, tape, k - 1, n);
    }
  }

  /** Only a will sets the will's word, and only signs of life set the last-seen time. */
  lemma WillFieldsMerge(env: Env, node: NodeRecord, r: Report, at: Moment)
    ensures Merge(env, node, r, at).lwtOnline == if r.Will? then Some(r.alive) else node.lwtOnline
    ensures Merge(env, node, r, at).lastSeen
         == if r.Online? || r == Will(true) then Some(at.now) else node.lastSeen
  {
  }

  lemma MergeAlike(env: Env, node: NodeRecord, heard: NodeRecord, r: Report, at: Moment, word: bool, sign: bool)
    requires AlikeBut(node, heard, word, sign)
    ensures AlikeBut(Merge(env, node, r, at), Merge(env, heard, r, at),
                     word && !r.Will?, sign && !r.Online? && r != Will(true))
  {
    ButWillsMerge(env, node, heard, "", r, at);
    WillFieldsMerge(env, node, r, at);
    WillFieldsMerge(env, heard, r, at);
  }

  /** A will that only the refusals let in. */
  lemma MergeLetIn(env: Env, node: NodeRecord, heard: NodeRecord, alive: bool, at: Moment, word: bool, sign: bool)
    requires AlikeBut(node, heard, word, sign) && heard.lwtOnline.None? && heard.lastSeen.None?
    ensures AlikeBut(Merge(env, node, Will(alive), at), heard, true, sign || alive)
  {
  }

  lemma LastAtStep(tape: seq<Arrival>, k: nat, n: string)
    requires k < |tape|
    ensures LastAt(tape, k + 1, n, WillIn)
         == if Counts(tape, k, n) && tape[k].report.Will? then k else LastAt(tape, k, n, WillIn)
    ensures LastAt(tape, k + 1, n, SignIn)
         == if Counts(tape, k, n) && (tape[k].report.Online? || tape[k].report == Will(true)) then k
            else LastAt(tape, k, n, SignIn)
  {
  }

  lemma AlikeStep(env: Env, tape: seq<Arrival>, k: nat, n: string)
    requires k < |tape|
    requires n in HeardAfter(env, tape, k).nodes <==> HeardFrom(tape, k, n)
    requires Alike(tape, k, n, NodeOf(After(env, tape, k), n), NodeOf(HeardAfter(env, tape, k), n))
    ensures n in HeardAfter(env, tape, k + 1).nodes <==> HeardFrom(tape, k + 1, n)
    ensures Alike(tape, k + 1, n, NodeOf(After(env, tape, k + 1), n), NodeOf(HeardAfter(env, tape, k + 1), n))
  {
    var t, u, a := After(env, tape, k), HeardAfter(env, tape, k), tape[k];
    var node, heard := NodeOf(t, n), NodeOf(u, n);
    var word, sign := EarlyWill(tape, LastAt(tape, k, n, WillIn), n), EarlyWill(tape, LastAt(tape, k, n, SignIn), n);
    AfterStep(env, tape, k);
    HeardStep(env, tape, k);
    HeardFromStep(tape, k, n);
    LastAtStep(tape, k, n);
    HistoryDeterminesNodes(env, tape, k, n);
    StepNode(env, t, a, n);
    StepNode(env, u, a, n);
    if Counts(tape, k, n) {
      if EarlyWill(tape, k, n) {
        MergeLetIn(env, node, heard, a.report.alive, a.at, word, sign);
      } else {
        MergeAlike(env, node, heard, a.report, a.at, word, sign);
      }
    }
  }

  lemma {:induction false} SameStoryAfter(env: Env, tape: seq<Arrival>, k: nat)
    requires k <= |tape|
    ensures SameStory(After(env, tape, k), HeardAfter(env, tape, k))
  {
    if k > 0 {
      SameStoryAfter(env, tape, k - 1);
      AfterStep(env, tape, k - 1);
      HeardStep(env, tape, k - 1);
      var a := tape[k - 1];
      if a.Accepted? {
        AlikeAfter(env, tape, k - 1, a.node);
        SameStoryStep(env, After(env, tape, k - 1), HeardAfter(env, tape, k - 1), a);
      }
    }
  }

  /** `t` tells what `s` told, then this cause in a notice about `about`. */
  predicate Tells(s: House, t: House, cause: Option<Cause>, logs: bool, about: string) {
    var told := Attribute(s, cause, logs);
    && t.log == told.log && t.contexts == told.contexts && t.pending == map[]
    && t.notices == s.notices + [Notice(about, t.nodes.Keys, told.pending)]
  }

  lemma TellingAlike(s: House, t: House, u: House, v: House, cause: Option<Cause>, logs: bool, about: string)
    requires SameStory(s, u) && Tells(s, t, cause, logs, about) && Tells(u, v, cause, logs, about)
    ensures SameStory(t, v)
  {
  }

  lemma AcceptedTells(env: Env, s: House, a: Arrival)
    requires a.Accepted?
    ensures Tells(s, Step(env, s, a), CauseFor(env, a.node, NodeOf(s, a.node), a.report, a.at), a.at.Logs(), a.node)
  {
  }

  lemma SameStoryStep(env: Env, t: House, u: House, a: Arrival)
    requires a.Accepted? && SameStory(t, u) && ButWills(NodeOf(t, a.node)) == ButWills(NodeOf(u, a.node))
    ensures SameStory(Step(env, t, a), Step(env, u, a))
  {
    ButWillsMerge(env, NodeOf(t, a.node), NodeOf(u, a.node), a.node, a.report, a.at);
    AcceptedTells(env, t, a);
    AcceptedTells(env, u, a);
    var cause := CauseFor(env, a.node, NodeOf(t, a.node), a.report, a.at);
    TellingAlike(t, Step(env, t, a), u, Step(env, u, a), cause, a.at.Logs(), a.node);
  }

  /** Over a run, refusals change neither the log, nor the causes shown, nor any field of a node but
      the two a will sets. Each of those differs from the run without refusals exactly when the last
      message to set it is a will that came after a refusal had registered the node and before any
      accepted report did. */
  lemma RefusalsOnlyLetWillsIn(env: Env, tape: seq<Arrival>, n: string)
    ensures var t, u := Run(env, EMPTY, tape), Run(env, EMPTY, Heard(tape));
            var node, heard := NodeOf(t, n), NodeOf(u, n);
            && SameStory(t, u)
            && node == heard.(lwtOnline := node.lwtOnline, lastSeen := node.lastSeen)
            && (node.lwtOnline != heard.lwtOnline <==> EarlyWill(tape, LastAt(tape, |tape|, n, WillIn), n))
            && (node.lastSeen != heard.lastSeen <==> EarlyWill(tape, LastAt(tape, |tape|, n, SignIn), n))
  {
    assert tape[..|tape|] == tape;
    SameStoryAfter(env, tape, |tape|);
    AlikeAfter(env, tape, |tape|, n);
    var node, heard := NodeOf(Run(env, EMPTY, tape), n), NodeOf(Run(env, EMPTY, Heard(tape)), n);
    assert ButWills(node).(lwtOnline := node.lwtOnline, lastSeen := node.lastSeen) == node;
    assert ButWills(heard).(lwtOnline := node.lwtOnline, lastSeen := node.lastSeen)
        == heard.(lwtOnline := node.lwtOnline, lastSeen := node.lastSeen);
  }

  /** Such a will exists: a refusal, then an offline will, leave a node that knows it is offline. */
  lemma RefusalLetsWillIn(env: Env, n: string, at: Moment)
    ensures var tape := [Refused(Some(n)), Accepted(n, Will(false), at)];
            && NodeOf(Run(env, EMPTY, tape), n).lwtOnline == Some(false)
            && NodeOf(Run(env, EMPTY, Heard(tape)), n).lwtOnline == None
  {
    var tape := [Refused(Some(n)), Accepted(n, Will(false), at)];
    assert tape[..1] == [Refused(Some(n))] && tape[..1][..0] == [];
    assert Run(env, EMPTY, tape[..1]) == Register(EMPTY, n);
    HeardStep(env, tape, 0);
    HeardStep(env, tape, 1);
    assert tape[..2] == tape;
  }
}
