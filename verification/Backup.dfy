/** The backup store (backup.py): a sliding window per node kept in one interleaved list, its
    persistence, and the copy a restore picks. */
module Backup {
  import opened Json
  import opened Lists

  /** A backup as the node produced it. `nodeTime` keeps its JSON kind: a boolean passes for an
      integer in Python. */
  datatype StoredBackup = StoredBackup(
    nodeId: string, household: string, created: string, nodeTime: Json, blob: string, credentials: bool)

  /** One record object. Two copies may hold equal records; pruning tells them apart. */
  class Copy {
    const data: StoredBackup

    constructor (data: StoredBackup)
      ensures this.data == data
    {
      this.data := data;
    }
  }

  // ---- selecting from a list ----

  function Select<T>(s: seq<T>, p: T -> bool): seq<T> {
    if s == [] then []
    else Select(s[..|s| - 1], p) + if p(s[|s| - 1]) then [s[|s| - 1]] else []
  }

  function Both<T>(p: T -> bool, q: T -> bool): T -> bool {
    x => p(x) && q(x)
  }

  function In<T(==)>(s: seq<T>): T -> bool {
    x => x in s
  }

  function NotIn<T(==)>(s: seq<T>): T -> bool {
    x => x !in s
  }

  lemma {:induction false} SelectAppend<T>(a: seq<T>, b: seq<T>, p: T -> bool)
    ensures Select(a + b, p) == Select(a, p) + Select(b, p)
  {
    if b == [] {
      assert a + b == a;
    } else {
      SelectAppend(a, b[..|b| - 1], p);
      assert (a + b)[..|a + b| - 1] == a + b[..|b| - 1];
    }
  }

  lemma {:induction false} SelectTwice<T>(s: seq<T>, p: T -> bool, q: T -> bool)
    ensures Select(Select(s, p), q) == Select(s, Both(p, q))
  {
    if s != [] {
      SelectTwice(s[..|s| - 1], p, q);
      SelectAppend(Select(s[..|s| - 1], p), if p(s[|s| - 1]) then [s[|s| - 1]] else [], q);
    }
  }

  lemma {:induction false} SelectSame<T>(s: seq<T>, p: T -> bool, q: T -> bool)
    requires forall i :: 0 <= i < |s| ==> (p(s[i]) <==> q(s[i]))
    ensures Select(s, p) == Select(s, q)
  {
    if s != [] {
      SelectSame(s[..|s| - 1], p, q);
    }
  }

  lemma {:induction false} SelectAll<T>(s: seq<T>, p: T -> bool)
    requires forall i :: 0 <= i < |s| ==> p(s[i])
    ensures Select(s, p) == s
  {
    if s != [] {
      SelectAll(s[..|s| - 1], p);
    }
  }

  lemma {:induction false} SelectNone<T>(s: seq<T>, p: T -> bool)
    requires forall i :: 0 <= i < |s| ==> !p(s[i])
    ensures Select(s, p) == []
  {
    if s != [] {
      SelectNone(s[..|s| - 1], p);
    }
  }

  lemma {:induction false} SelectHolds<T>(s: seq<T>, p: T -> bool, x: T)
    ensures x in Select(s, p) <==> x in s && p(x)
  {
    if s != [] {
      SelectHolds(s[..|s| - 1], p, x);
      assert s == s[..|s| - 1] + [s[|s| - 1]];
    }
  }

  lemma {:induction false} SelectKeepsDistinct<T>(s: seq<T>, p: T -> bool)
    requires Distinct(s)
    ensures Distinct(Select(s, p))
  {
    if s != [] {
      SelectKeepsDistinct(s[..|s| - 1], p);
      SelectHolds(s[..|s| - 1], p, s[|s| - 1]);
    }
  }

  // ---- the store ----

  function OfNode(node: string): Copy -> bool {
    (b: Copy) => b.data.nodeId == node
  }

  function ForNode(backups: seq<Copy>, node: string): seq<Copy> {
    Select(backups, OfNode(node))
  }

  /** The objects that fell out of a node's window; a slice bound past the end is the end. */
  function Doomed(backups: seq<Copy>, node: string, keep: int): seq<Copy> {
    var mine := ForNode(backups, node);
    var excess := |mine| - keep;
    if excess <= 0 then [] else if excess > |mine| then mine else mine[..excess]
  }

  function Prune(backups: seq<Copy>, node: string, keep: int): seq<Copy> {
    Select(backups, NotIn(Doomed(backups, node, keep)))
  }

  /** What a store that keeps `keep` per node holds after adding `history` in order. */
  function Kept(keep: int, history: seq<Copy>): seq<Copy> {
    if history == [] then []
    else
      var b := history[|history| - 1];
      Prune(Kept(keep, history[..|history| - 1]) + [b], b.data.nodeId, keep)
  }

  function Latest(backups: seq<Copy>, node: Option<string>): Option<Copy> {
    var candidates := if node.None? then backups else ForNode(backups, node.value);
    if candidates == [] then None else Some(candidates[|candidates| - 1])
  }

  function Values(backups: seq<Copy>): seq<StoredBackup> {
    seq(|backups|, i requires 0 <= i < |backups| => backups[i].data)
  }

  class BackupStore {
    const keep: int
    var backups: seq<Copy>
    var saved: Json

    constructor (keep: int)
      ensures this.keep == keep && backups == [] && saved == JNull
    {
      this.keep, backups, saved := keep, [], JNull;
    }

    /** Append, slide the node's window, and write the list out. */
    method Add(backup: Copy)
      modifies this
      ensures backups == Prune(old(backups) + [backup], backup.data.nodeId, keep)
      ensures saved == Document(Values(backups))
      ensures forall history :: old(backups) == Kept(keep, history) ==> backups == Kept(keep, history + [backup])
    {
      assert forall history: seq<Copy> :: (history + [backup])[..|history|] == history;
      backups := backups + [backup];
      PruneNode(backup.data.nodeId);
      saved := Document(Values(backups));
    }

    method PruneNode(node: string)
      modifies this`backups
      ensures backups == Prune(old(backups), node, keep)
    {
      var mine := ForNode(backups, node);
      var excess := |mine| - keep;
      if excess <= 0 {
        SelectAll(backups, NotIn([]));
        return;
      }
      var doomed := if excess > |mine| then mine else mine[..excess];
      backups := Select(backups, NotIn(doomed));
    }

    /** Replace the list by the usable records of a stored document, each a new object. */
    method Load(show: Json -> string, raw: Json)
      modifies this`backups
      ensures fresh(set b | b in backups) && Distinct(backups)
      ensures Values(backups) == Loaded(show, raw)
    {
      var entries := Entries(raw);
      var loaded: seq<Copy> := [];
      for k := 0 to |entries|
        invariant fresh(set b | b in loaded) && Distinct(loaded)
        invariant Values(loaded) == LoadedFrom(show, entries[..k])
      {
        var record := FromDict(show, entries[k]);
        ghost var was := loaded;
        if record.Some? {
          var b := new Copy(record.value);
          loaded := loaded + [b];
          assert Values(loaded) == Values(was) + [b.data];
        }
        assert entries[..k + 1][..k] == entries[..k];
      }
      assert entries[..|entries|] == entries;
      backups := loaded;
    }
  }

  // ---- the window ----

  lemma LastOfLast<T>(k: int, s: seq<T>, x: T)
    ensures Last(k, Last(k, s) + [x]) == Last(k, s + [x])
  {
  }

  /** Dropping the first objects of a node's list, by identity, leaves the rest of it. */
  lemma DropDoomed(mine: seq<Copy>, doomed: seq<Copy>)
    requires Distinct(mine) && doomed <= mine
    ensures Select(mine, NotIn(doomed)) == mine[|doomed|..]
  {
    var rest := mine[|doomed|..];
    assert mine == doomed + rest;
    SelectAppend(doomed, rest, NotIn(doomed));
    SelectNone(doomed, NotIn(doomed));
    SelectAll(rest, NotIn(doomed));
  }

  lemma Commute(s: seq<Copy>, p: Copy -> bool, q: Copy -> bool)
    ensures Select(Select(s, p), q) == Select(Select(s, q), p)
  {
    SelectTwice(s, p, q);
    SelectTwice(s, q, p);
    SelectSame(s, Both(p, q), Both(q, p));
  }

  lemma OwnIsPruned(backups: seq<Copy>, node: string, keep: int)
    requires Distinct(backups)
    ensures ForNode(Prune(backups, node, keep), node) == Last(keep, ForNode(backups, node))
  {
    var doomed, mine := Doomed(backups, node, keep), ForNode(backups, node);
    Commute(backups, NotIn(doomed), OfNode(node));
    SelectKeepsDistinct(backups, OfNode(node));
    DropDoomed(mine, doomed);
  }

  lemma OtherIsNotPruned(backups: seq<Copy>, node: string, keep: int, other: string)
    requires other != node
    ensures ForNode(Prune(backups, node, keep), other) == ForNode(backups, other)
  {
    var doomed, theirs := Doomed(backups, node, keep), ForNode(backups, other);
    Commute(backups, NotIn(doomed), OfNode(other));
    forall i | 0 <= i < |theirs| ensures theirs[i] !in doomed {
      SelectHolds(backups, OfNode(other), theirs[i]);
      SelectHolds(backups, OfNode(node), theirs[i]);
    }
    SelectAll(theirs, NotIn(doomed));
  }

  /** Pruning a list whose records are different objects shortens the node's own list to its
      window and no other node's. */
  lemma PruneIsPerNode(backups: seq<Copy>, node: string, keep: int, other: string)
    requires Distinct(backups)
    ensures ForNode(Prune(backups, node, keep), other)
         == if other == node then Last(keep, ForNode(backups, node)) else ForNode(backups, other)
  {
    if other == node {
      OwnIsPruned(backups, node, keep);
    } else {
      OtherIsNotPruned(backups, node, keep, other);
    }
  }

  lemma ShorterIsDistinct(history: seq<Copy>)
    requires Distinct(history) && history != []
    ensures Distinct(history[..|history| - 1]) && history[|history| - 1] !in history[..|history| - 1]
  {
  }

  /** A selection of a list, extended by a new element and selected from again, is a selection
      of the list extended by that element. */
  lemma SelectAfterAppend(s: seq<Copy>, held: seq<Copy>, x: Copy, p: Copy -> bool)
    requires held == Select(s, In(held)) && x !in s
    ensures var r := Select(held + [x], p); r == Select(s + [x], In(r))
  {
    var longer := held + [x];
    var r := Select(longer, p);
    SelectSame(s, In(held), In(longer));
    SelectAppend(s, [x], In(longer));
    SelectAll([x], In(longer));
    SelectTwice(s + [x], In(longer), p);
    forall i | 0 <= i < |s + [x]| ensures In(r)((s + [x])[i]) <==> Both(In(longer), p)((s + [x])[i]) {
      SelectHolds(longer, p, (s + [x])[i]);
    }
    SelectSame(s + [x], Both(In(longer), p), In(r));
  }

  /** The list is the history with some records left out, in the order they were added. */
  lemma {:induction false} KeptIsSubsequence(keep: int, history: seq<Copy>)
    requires Distinct(history)
    ensures Kept(keep, history) == Select(history, In(Kept(keep, history)))
  {
    if history != [] {
      var before, b := history[..|history| - 1], history[|history| - 1];
      ShorterIsDistinct(history);
      KeptIsSubsequence(keep, before);
      var held := Kept(keep, before);
      SelectAfterAppend(before, held, b, NotIn(Doomed(held + [b], b.data.nodeId, keep)));
      assert before + [b] == history;
    }
  }

  lemma KeptIsDistinct(keep: int, history: seq<Copy>, x: Copy)
    requires Distinct(history)
    ensures Distinct(Kept(keep, history)) && (x in Kept(keep, history) ==> x in history)
  {
    KeptIsSubsequence(keep, history);
    SelectKeepsDistinct(history, In(Kept(keep, history)));
    SelectHolds(history, In(Kept(keep, history)), x);
  }

  lemma KeptAppend(keep: int, before: seq<Copy>, b: Copy)
    ensures Kept(keep, before + [b]) == Prune(Kept(keep, before) + [b], b.data.nodeId, keep)
  {
    assert (before + [b])[..|before|] == before;
  }

  lemma ForNodeAppend(backups: seq<Copy>, b: Copy, node: string)
    ensures ForNode(backups + [b], node)
         == if b.data.nodeId == node then ForNode(backups, node) + [b] else ForNode(backups, node)
  {
    assert (backups + [b])[..|backups|] == backups;
  }

  lemma WindowStep(keep: int, before: seq<Copy>, b: Copy, node: string)
    requires Distinct(Kept(keep, before) + [b])
    requires ForNode(Kept(keep, before), node) == Last(keep, ForNode(before, node))
    ensures ForNode(Kept(keep, before + [b]), node) == Last(keep, ForNode(before + [b], node))
  {
    var held := Kept(keep, before);
    KeptAppend(keep, before, b);
    PruneIsPerNode(held + [b], b.data.nodeId, keep, node);
    ForNodeAppend(held, b, node);
    ForNodeAppend(before, b, node);
    LastOfLast(keep, ForNode(before, node), b);
  }

  lemma NextIsDistinct(keep: int, history: seq<Copy>)
    requires Distinct(history) && history != []
    ensures var before := history[..|history| - 1]; Distinct(Kept(keep, before) + [history[|history| - 1]])
  {
    ShorterIsDistinct(history);
    KeptIsDistinct(keep, history[..|history| - 1], history[|history| - 1]);
  }

  /** From an empty store, after any interleaving of adds of different record objects, each
      node's list is exactly the last `keep` added for it, in order. */
  lemma {:induction false} WindowPerNode(keep: int, history: seq<Copy>, node: string)
    requires Distinct(history)
    ensures ForNode(Kept(keep, history), node) == Last(keep, ForNode(history, node))
  {
    if history != [] {
      var before, b := history[..|history| - 1], history[|history| - 1];
      ShorterIsDistinct(history);
      WindowPerNode(keep, before, node);
      NextIsDistinct(keep, history);
      WindowStep(keep, before, b, node);
      assert history == before + [b];
    }
  }

  lemma PruneFitting(backups: seq<Copy>, node: string, keep: int)
    requires |ForNode(backups, node)| <= keep
    ensures Prune(backups, node, keep) == backups
  {
    SelectAll(backups, NotIn([]));
  }

  lemma ForNodeGrows(backups: seq<Copy>, k: nat, node: string)
    requires k <= |backups|
    ensures |ForNode(backups[..k], node)| <= |ForNode(backups, node)|
  {
    assert backups == backups[..k] + backups[k..];
    SelectAppend(backups[..k], backups[k..], OfNode(node));
  }

  lemma FittingStep(keep: int, before: seq<Copy>, b: Copy)
    requires Kept(keep, before) == before && |ForNode(before + [b], b.data.nodeId)| <= keep
    ensures Kept(keep, before + [b]) == before + [b]
  {
    KeptAppend(keep, before, b);
    PruneFitting(before + [b], b.data.nodeId, keep);
  }

  lemma {:induction false} FittingUpTo(keep: int, backups: seq<Copy>, k: nat)
    requires k <= |backups| && forall i :: 0 <= i < |backups| ==> |ForNode(backups, backups[i].data.nodeId)| <= keep
    ensures Kept(keep, backups[..k]) == backups[..k]
  {
    if k > 0 {
      FittingUpTo(keep, backups, k - 1);
      assert backups[..k] == backups[..k - 1] + [backups[k - 1]];
      ForNodeGrows(backups, k, backups[k - 1].data.nodeId);
      FittingStep(keep, backups[..k - 1], backups[k - 1]);
    }
  }

  /** A list that fits the windows is its own history: after a restart, adding goes on as if the
      records still held had been added one by one. */
  lemma FittingListIsKept(keep: int, backups: seq<Copy>)
    requires forall i :: 0 <= i < |backups| ==> |ForNode(backups, backups[i].data.nodeId)| <= keep
    ensures Kept(keep, backups) == backups
  {
    FittingUpTo(keep, backups, |backups|);
    assert backups[..|backups|] == backups;
  }

  /** Adding for one node leaves every other node's list as it was. */
  lemma OtherNodesAreUntouched(keep: int, history: seq<Copy>, b: Copy, other: string)
    requires Distinct(history + [b]) && other != b.data.nodeId
    ensures ForNode(Kept(keep, history + [b]), other) == ForNode(Kept(keep, history), other)
  {
    var held := Kept(keep, history);
    ShorterIsDistinct(history + [b]);
    assert (history + [b])[..|history|] == history;
    KeptIsDistinct(keep, history, b);
    PruneIsPerNode(held + [b], b.data.nodeId, keep, other);
    assert (held + [b])[..|held|] == held;
  }

  lemma LatestOfAll(keep: int, history: seq<Copy>)
    requires Distinct(history) && keep >= 1
    ensures Latest(Kept(keep, history), None) == Latest(history, None)
  {
    if history == [] {
      assert Kept(keep, history) == [];
    } else {
      SelectAll(history, OfHousehold(""));
      SelectAll(Kept(keep, history), OfHousehold(""));
      NewestIsKept(keep, history, OfHousehold(""));
      LastIsSelected(keep, history, OfHousehold(""));
    }
  }

  /** What is selected last is the last that fits. */
  lemma {:induction false} LastThatFits<T>(s: seq<T>, p: T -> bool) returns (i: int)
    ensures -1 <= i < |s| && (i < 0 <==> Select(s, p) == [])
    ensures i >= 0 ==> p(s[i]) && Select(s, p)[|Select(s, p)| - 1] == s[i]
    ensures forall j :: i < j < |s| ==> !p(s[j])
  {
    if s == [] {
      i := -1;
    } else if p(s[|s| - 1]) {
      i := |s| - 1;
    } else {
      i := LastThatFits(s[..|s| - 1], p);
    }
  }

  lemma LatestIsKept(keep: int, history: seq<Copy>, node: Option<string>)
    requires Distinct(history) && keep >= 1
    ensures Latest(Kept(keep, history), node) == Latest(history, node)
  {
    if node.Some? {
      WindowPerNode(keep, history, node.value);
    } else {
      LatestOfAll(keep, history);
    }
  }

  /** The newest copy, of one node or of all, is the one added last. */
  lemma LatestIsNewest(keep: int, history: seq<Copy>, node: Option<string>) returns (i: int)
    requires Distinct(history) && keep >= 1
    ensures -1 <= i < |history|
    ensures Latest(Kept(keep, history), node) == if i < 0 then None else Some(history[i])
    ensures i >= 0 && node.Some? ==> history[i].data.nodeId == node.value
    ensures forall j :: i < j < |history| ==> node.Some? && history[j].data.nodeId != node.value
  {
    LatestIsKept(keep, history, node);
    if node.Some? {
      i := LastThatFits(history, OfNode(node.value));
    } else {
      i := |history| - 1;
    }
  }

  lemma OneIsKept(b: Copy)
    ensures Kept(1, [b]) == [b]
  {
    assert [b][..0] == [] && [] + [b] == [b];
    SelectAll([b], OfNode(b.data.nodeId));
    PruneFitting([b], b.data.nodeId, 1);
  }

  lemma BothAreDoomed(b: Copy)
    ensures Prune([b, b], b.data.nodeId, 1) == []
  {
    SelectAll([b, b], OfNode(b.data.nodeId));
    assert Doomed([b, b], b.data.nodeId, 1) == [b];
    SelectNone([b, b], NotIn([b]));
  }

  /** Different objects are needed: the same object added twice is dropped altogether by the
      first pruning that dooms it. */
  lemma SameObjectTwiceIsLost(b: Copy)
    ensures Kept(1, [b, b]) == []
  {
    var twice := [b, b];
    OneIsKept(b);
    BothAreDoomed(b);
    assert twice[..1] == [b] && [b] + [b] == twice;
  }

  /** One add slides the node's window exactly when the object added is not the very one that
      falls out of it. */
  lemma AddSlidesWindowIff(backups: seq<Copy>, b: Copy, keep: int)
    requires Distinct(backups) && |ForNode(backups, b.data.nodeId)| <= keep
    ensures var mine := ForNode(backups, b.data.nodeId);
            ForNode(Prune(backups + [b], b.data.nodeId, keep), b.data.nodeId) == Last(keep, mine + [b])
            <==> !(keep > 0 && |mine| == keep && b == mine[0])
  {
    var mine := ForNode(backups, b.data.nodeId);
    SelectKeepsDistinct(backups, OfNode(b.data.nodeId));
    AddDooms(backups, b, keep);
    if |mine| < keep {
      SelectAll(mine + [b], NotIn([]));
    } else if keep == 0 {
      SelectNone(mine + [b], NotIn([b]));
    } else {
      DropOldest(mine, b);
      OldestIsGone(mine, b, keep);
    }
  }

  /** What an add prunes: nothing while there is room, then the oldest of the node's list. */
  lemma AddDooms(backups: seq<Copy>, b: Copy, keep: int)
    requires |ForNode(backups, b.data.nodeId)| <= keep
    ensures var mine := ForNode(backups, b.data.nodeId);
            ForNode(Prune(backups + [b], b.data.nodeId, keep), b.data.nodeId)
            == Select(mine + [b], NotIn(if |mine| < keep then [] else if mine == [] then [b] else [mine[0]]))
  {
    var node := b.data.nodeId;
    SelectAppend(backups, [b], OfNode(node));
    SelectAll([b], OfNode(node));
    var mine, doomed := ForNode(backups, node), Doomed(backups + [b], node, keep);
    assert doomed == if |mine| < keep then [] else if mine == [] then [b] else [mine[0]];
    Commute(backups + [b], NotIn(doomed), OfNode(node));
  }

  lemma OldestIsGone(mine: seq<Copy>, b: Copy, keep: int)
    requires mine != [] && keep == |mine|
    ensures Last(keep, mine + [b]) == mine[1..] + [b] && Last(keep, mine + [b]) != mine[1..]
  {
  }

  lemma DropOldest(mine: seq<Copy>, b: Copy)
    requires Distinct(mine) && mine != []
    ensures Select(mine + [b], NotIn([mine[0]])) == if b == mine[0] then mine[1..] else mine[1..] + [b]
  {
    SelectAppend(mine, [b], NotIn([mine[0]]));
    DropDoomed(mine, [mine[0]]);
    if b == mine[0] {
      SelectNone([b], NotIn([mine[0]]));
    } else {
      SelectAll([b], NotIn([mine[0]]));
    }
  }

  // ---- restoring ----

  function OfHousehold(household: string): Copy -> bool {
    (b: Copy) => household == "" || b.data.household == household
  }

  /** The stored copy a restore picks for a household; an unknown household matches any. */
  function Restored(backups: seq<Copy>, household: string): Option<Copy> {
    var stored := Select(backups, OfHousehold(household));
    if stored == [] then None else Some(stored[|stored| - 1])
  }

  /** The copy a restore picks is the last of the household, or the last of all when the household is
      not known. */
  lemma RestoredIsLast(backups: seq<Copy>, household: string) returns (i: int)
    ensures -1 <= i < |backups|
    ensures Restored(backups, household) == if i < 0 then None else Some(backups[i])
    ensures i >= 0 ==> household == "" || backups[i].data.household == household
    ensures forall j :: i < j < |backups| ==> household != "" && backups[j].data.household != household
  {
    i := LastThatFits(backups, OfHousehold(household));
  }

  lemma {:induction false} LastSelected<T>(s: seq<T>, p: T -> bool, q: T -> bool)
    requires Select(s, p) != [] && q(Select(s, p)[|Select(s, p)| - 1])
    ensures var r := Select(s, Both(p, q)); r != [] && r[|r| - 1] == Select(s, p)[|Select(s, p)| - 1]
  {
    if !p(s[|s| - 1]) {
      LastSelected(s[..|s| - 1], p, q);
    }
  }

  /** All of a node's records fit, or none do. */
  ghost predicate PerNode(history: seq<Copy>, fits: Copy -> bool) {
    forall i, j :: 0 <= i < |history| && 0 <= j < |history| && history[i].data.nodeId == history[j].data.nodeId
      ==> (fits(history[i]) <==> fits(history[j]))
  }

  /** The last record that fits is the last of its node, so it is still held. */
  lemma NewestIsKept(keep: int, history: seq<Copy>, fits: Copy -> bool)
    requires Distinct(history) && keep >= 1 && Select(history, fits) != [] && PerNode(history, fits)
    ensures Select(history, fits)[|Select(history, fits)| - 1] in Kept(keep, history)
  {
    var newest := Select(history, fits)[|Select(history, fits)| - 1];
    var node := newest.data.nodeId;
    SelectHolds(history, fits, newest);
    LastSelected(history, fits, OfNode(node));
    SelectSame(history, Both(fits, OfNode(node)), OfNode(node));
    WindowPerNode(keep, history, node);
    SelectHolds(Kept(keep, history), OfNode(node), newest);
  }

  lemma LastIsSelected(keep: int, history: seq<Copy>, fits: Copy -> bool)
    requires Distinct(history) && Select(history, fits) != []
    requires Select(history, fits)[|Select(history, fits)| - 1] in Kept(keep, history)
    ensures var r := Select(Kept(keep, history), fits);
            r != [] && r[|r| - 1] == Select(history, fits)[|Select(history, fits)| - 1]
  {
    var kept := Kept(keep, history);
    KeptIsSubsequence(keep, history);
    LastSelected(history, fits, In(kept));
    SelectTwice(history, fits, In(kept));
    Commute(history, fits, In(kept));
  }

  lemma NothingFits(keep: int, history: seq<Copy>, fits: Copy -> bool)
    requires Distinct(history) && Select(history, fits) == []
    ensures Select(Kept(keep, history), fits) == []
  {
    var kept := Kept(keep, history);
    forall i | 0 <= i < |kept| ensures !fits(kept[i]) {
      KeptIsDistinct(keep, history, kept[i]);
      SelectHolds(history, fits, kept[i]);
    }
    SelectNone(kept, fits);
  }

  /** A record is still held exactly when it is among the last of its node. */
  lemma KeptIff(keep: int, history: seq<Copy>, b: Copy)
    requires Distinct(history)
    ensures b in Kept(keep, history) <==> b in Last(keep, ForNode(history, b.data.nodeId))
  {
    WindowPerNode(keep, history, b.data.nodeId);
    SelectHolds(Kept(keep, history), OfNode(b.data.nodeId), b);
  }

  lemma KeptIsRestored(keep: int, history: seq<Copy>, household: string)
    requires Distinct(history) && Restored(history, household).Some?
    ensures Restored(history, household).value in Kept(keep, history)
        ==> Restored(Kept(keep, history), household) == Restored(history, household)
  {
    if Restored(history, household).value in Kept(keep, history) {
      LastIsSelected(keep, history, OfHousehold(household));
    }
  }

  lemma RestoredIsKept(keep: int, history: seq<Copy>, household: string)
    requires Restored(Kept(keep, history), household).Some?
    ensures Restored(Kept(keep, history), household).value in Kept(keep, history)
  {
    SelectHolds(Kept(keep, history), OfHousehold(household), Restored(Kept(keep, history), household).value);
  }

  /** A restore uses the newest backup ever taken in the household exactly when none was taken, or the
      newest is still among the last `keep` of its node: the window goes by node alone. */
  lemma RestoreUsesNewestIff(keep: int, history: seq<Copy>, household: string)
    requires Distinct(history)
    ensures Restored(Kept(keep, history), household) == Restored(history, household)
       <==> var newest := Restored(history, household);
            newest.None? || newest.value in Last(keep, ForNode(history, newest.value.data.nodeId))
  {
    if Restored(history, household).None? {
      NothingFits(keep, history, OfHousehold(household));
    } else {
      KeptIff(keep, history, Restored(history, household).value);
      KeptIsRestored(keep, history, household);
      if Restored(Kept(keep, history), household).Some? {
        RestoredIsKept(keep, history, household);
      }
    }
  }

  /** A node that moved to another household can push the newest backup of the old one out. */
  lemma MovedNodeLosesOld(a: Copy, b: Copy)
    requires a != b && a.data.nodeId == b.data.nodeId
    requires a.data.household != "" && a.data.household != b.data.household
    ensures Restored([a, b], a.data.household) == Some(a)
    ensures Restored(Kept(1, [a, b]), a.data.household) != Some(a)
  {
    var history, node, fits := [a, b], a.data.nodeId, OfHousehold(a.data.household);
    assert [a, b] == [a] + [b];
    SelectAppend([a], [b], fits);
    SelectAll([a], fits);
    SelectNone([b], fits);
    SelectAll(history, OfNode(node));
    RestoreUsesNewestIff(1, history, a.data.household);
  }

  lemma RestoredIsRecent(keep: int, history: seq<Copy>, household: string, fits: Copy -> bool)
    requires Distinct(history) && keep >= 1 && PerNode(history, fits)
    requires fits == OfHousehold(household) && Restored(history, household).Some?
    ensures var newest := Restored(history, household).value;
            newest in Last(keep, ForNode(history, newest.data.nodeId))
  {
    var newest := Restored(history, household).value;
    NewestIsKept(keep, history, fits);
    KeptIff(keep, history, newest);
  }

  /** While every node stays in one household, a restore uses the newest backup ever taken in
      the household, or none only when none was. */
  lemma RestoreUsesNewest(keep: int, history: seq<Copy>, household: string)
    requires Distinct(history) && keep >= 1 && PerNode(history, OfHousehold(household))
    ensures Restored(Kept(keep, history), household) == Restored(history, household)
  {
    RestoreUsesNewestIff(keep, history, household);
    if Restored(history, household).Some? {
      RestoredIsRecent(keep, history, household, OfHousehold(household));
    }
  }

  // ---- persistence ----

  function AsDict(b: StoredBackup): Json {
    JObj(map["node_id" := JStr(b.nodeId), "household_id" := JStr(b.household), "created" := JStr(b.created),
             "node_time" := b.nodeTime, "blob" := JStr(b.blob), "includes_credentials" := JBool(b.credentials)])
  }

  /** The document that is saved. */
  function Document(backups: seq<StoredBackup>): Json {
    JObj(map["backups" := JList(seq(|backups|, i requires 0 <= i < |backups| => AsDict(backups[i])))])
  }

  /** `str(value or "")`. */
  function TextOf(show: Json -> string, j: Json): string {
    if Truthy(j) then show(j) else ""
  }

  predicate Usable(j: Json) {
    && j.JObj? && Get(j.fields, "blob").JStr? && Get(j.fields, "blob").text != ""
    && Get(j.fields, "node_id").JStr? && Get(j.fields, "node_id").text != ""
  }

  function FromDict(show: Json -> string, j: Json): Option<StoredBackup> {
    if !Usable(j) then None
    else
      var time := Get(j.fields, "node_time");
      Some(StoredBackup(
        Get(j.fields, "node_id").text, TextOf(show, Get(j.fields, "household_id")),
            TextOf(show, Get(j.fields, "created")),
        if time.JInt? || time.JBool? then time else JNull, Get(j.fields, "blob").text,
        Get(j.fields, "includes_credentials") == JBool(true)))
  }

  function Entries(raw: Json): seq<Json> {
    if raw.JObj? && Get(raw.fields, "backups").JList? then Get(raw.fields, "backups").items else []
  }

  function LoadedFrom(show: Json -> string, entries: seq<Json>): seq<StoredBackup> {
    if entries == [] then []
    else
      var record := FromDict(show, entries[|entries| - 1]);
      LoadedFrom(show, entries[..|entries| - 1]) + if record.Some? then [record.value] else []
  }

  function Loaded(show: Json -> string, raw: Json): seq<StoredBackup> {
    LoadedFrom(show, Entries(raw))
  }

  /** What a record must be to survive a restart. */
  predicate Qualifies(b: StoredBackup) {
    b.nodeId != "" && b.blob != ""
  }

  predicate Typed(b: StoredBackup) {
    b.nodeTime.JNull? || b.nodeTime.JInt? || b.nodeTime.JBool?
  }

  /** What Python takes for an integer, a boolean included; nothing otherwise. */
  function WholeNumber(j: Json): Json {
    match j
    case JInt(_) => j
    case JBool(_) => j
    case _ => JNull
  }

  /** What an entry of the file is loaded as: it must be an object with a node id and a blob, and
      everything else has a fallback. */
  lemma EntryIsReadIff(show: Json -> string, j: Json, b: StoredBackup)
    ensures FromDict(show, j) == Some(b)
       <==> && j.JObj? && Get(j.fields, "node_id") == JStr(b.nodeId) && b.nodeId != ""
            && Get(j.fields, "blob") == JStr(b.blob) && b.blob != ""
            && b.household == (if Truthy(Get(j.fields, "household_id")) then show(Get(j.fields, "household_id"))
                else "")
            && b.created == (if Truthy(Get(j.fields, "created")) then show(Get(j.fields, "created")) else "")
            && b.nodeTime == WholeNumber(Get(j.fields, "node_time"))
            && b.credentials == (Get(j.fields, "includes_credentials") == JBool(true))
  {
  }

  lemma RecordRoundTrip(show: Json -> string, b: StoredBackup)
    requires Typed(b) && forall s :: show(JStr(s)) == s
    ensures FromDict(show, AsDict(b)) == if Qualifies(b) then Some(b) else None
  {
    assert "node_id"[5] == 'i' && "node_time"[5] == 't' && |"household_id"| == 12 && "created"[0] == 'c';
    assert "blob"[0] == 'b' && "includes_credentials"[0] == 'i';
  }

  /** Loading a saved store gives back exactly the records with a node id and a blob, in order. */
  lemma {:induction false} SaveThenLoad(show: Json -> string, backups: seq<StoredBackup>)
    requires forall s :: show(JStr(s)) == s
    requires forall i :: 0 <= i < |backups| ==> Typed(backups[i])
    ensures Loaded(show, Document(backups)) == Select(backups, Qualifies)
  {
    if backups != [] {
      var before, b := backups[..|backups| - 1], backups[|backups| - 1];
      SaveThenLoad(show, before);
      RecordRoundTrip(show, b);
      assert Entries(Document(backups))[..|before|] == Entries(Document(before));
    }
  }

  /** Nothing is lost over a restart exactly when every record qualifies. */
  lemma RestartLosesNothing(show: Json -> string, backups: seq<StoredBackup>)
    requires forall s :: show(JStr(s)) == s
    requires forall i :: 0 <= i < |backups| ==> Typed(backups[i])
    ensures Loaded(show, Document(backups)) == backups <==> forall b :: b in backups ==> Qualifies(b)
  {
    SaveThenLoad(show, backups);
    if forall b :: b in backups ==> Qualifies(b) {
      SelectAll(backups, Qualifies);
    }
    forall b | b in backups ensures b in Select(backups, Qualifies) ==> Qualifies(b) {
      SelectHolds(backups, Qualifies, b);
    }
  }

  lemma {:induction false} LoadedQualify(show: Json -> string, entries: seq<Json>)
    ensures forall b :: b in LoadedFrom(show, entries) ==> Qualifies(b) && Typed(b)
  {
    if entries != [] {
      LoadedQualify(show, entries[..|entries| - 1]);
    }
  }

  /** Whatever the file held, saving what was loaded and loading it again changes nothing. */
  lemma LoadingSettles(show: Json -> string, raw: Json)
    requires forall s :: show(JStr(s)) == s
    ensures Loaded(show, Document(Loaded(show, raw))) == Loaded(show, raw)
  {
    LoadedQualify(show, Entries(raw));
    RestartLosesNothing(show, Loaded(show, raw));
  }
}
