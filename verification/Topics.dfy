/** The household topic scheme (const.py), its parser, and the gate every inbound message passes
    (mqtt.py). */
module Topics {
  import opened Json
  import opened Models

  // ---- splitting and joining topic levels ----

  function Split(s: string): (levels: seq<string>)
    ensures |levels| > 0
  {
    if s == "" then [""]
    else if s[0] == '/' then [""] + Split(s[1..])
    else
      var rest := Split(s[1..]);
      [[s[0]] + rest[0]] + rest[1..]
  }

  function Join(levels: seq<string>): string
    requires |levels| > 0
  {
    if |levels| == 1 then levels[0] else levels[0] + "/" + Join(levels[1..])
  }

  predicate Level(s: string) {
    '/' !in s
  }

  lemma {:induction false} JoinAfterSplit(s: string)
    ensures Join(Split(s)) == s
  {
    if s != "" {
      JoinAfterSplit(s[1..]);
      var rest := Split(s[1..]);
      if s[0] == '/' {
        assert Split(s)[1..] == rest;
      } else if |rest| > 1 {
        assert Split(s)[1..] == rest[1..];
      }
    }
  }

  /** The first level of a topic is cut off by its first slash. */
  lemma {:induction false} SplitLevel(level: string, rest: string)
    requires Level(level)
    ensures Split(level + "/" + rest) == [level] + Split(rest)
  {
    var s := level + "/" + rest;
    if level == "" {
      assert s[1..] == rest;
    } else {
      assert s[1..] == level[1..] + "/" + rest;
      SplitLevel(level[1..], rest);
      assert Split(s) == [[s[0]] + level[1..]] + Split(rest);
      assert [s[0]] + level[1..] == level;
    }
  }

  lemma {:induction false} SplitGivesLevels(s: string)
    ensures forall i :: 0 <= i < |Split(s)| ==> Level(Split(s)[i])
    ensures |Split(s)| == 1 <==> Level(s)
  {
    if s != "" {
      SplitGivesLevels(s[1..]);
      if s[0] != '/' {
        assert s == [s[0]] + s[1..];
      }
    }
  }

  // ---- building topics ----

  const ROOT := "homekey"
  const HOUSEHOLD := "household"
  const NODES := "nodes"

  function NodeBase(household: string, node: string): string {
    ROOT + "/" + HOUSEHOLD + "/" + household + "/" + NODES + "/" + node
  }

  /** `""` stands for an absent subtopic: both are falsy. */
  function NodeTopic(household: string, node: string, subtopic: string): string {
    if subtopic != "" then NodeBase(household, node) + "/" + subtopic else NodeBase(household, node)
  }

  // ---- parsing topics ----

  predicate IdCharacter(c: char) {
    'a' <= c <= 'z' || 'A' <= c <= 'Z' || '0' <= c <= '9' || c == '_' || c == '-'
  }

  predicate ValidId(s: string) {
    0 < |s| <= 64 && forall i :: 0 <= i < |s| ==> IdCharacter(s[i])
  }

  const RESERVED: set<string> := {"events", "backup/request", "backup/data", "restore/request", "restore/status"}

  datatype LegacyKind = WillStatus | LegacyState | LegacyAuth

  datatype ParsedTopic =
    | OfNode(household: string, node: string, subtopic: string, reserved: bool)
    | OfClient(client: string, kind: LegacyKind)

  function KindOfSuffix(suffix: string): Option<LegacyKind> {
    match suffix
    case "status" => Some(WillStatus)
    case "homekit/state" => Some(LegacyState)
    case "homekey/auth" => Some(LegacyAuth)
    case _ => None
  }

  function ParseLegacy(topic: string, prefix: string): Option<ParsedTopic> {
    if !(prefix <= topic) then None
    else
      var levels := Split(topic[|prefix|..]);
      if |levels| == 1 || levels[0] == "" then None
      else
        var kind := KindOfSuffix(Join(levels[1..]));
        if kind.None? then None else Some(OfClient(levels[0], kind.value))
  }

  function ParseTopic(topic: string, legacyPrefix: Option<string>): Option<ParsedTopic> {
    var levels := Split(topic);
    if levels[0] == ROOT then
      if |levels| >= 6 && levels[1] == HOUSEHOLD && ValidId(levels[2]) && levels[3] == NODES && ValidId(levels[4]) then
        var subtopic := Join(levels[5..]);
        Some(OfNode(levels[2], levels[4], subtopic, subtopic in RESERVED))
      else None
    else if legacyPrefix.Some? && legacyPrefix.value != "" then ParseLegacy(topic, legacyPrefix.value)
    else None
  }

  // ---- the gate ----

  /** The nine subtopics the integration acts upon. */
  function KnownSubtopic(name: string): Option<Subtopic> {
    match name
    case "state" => Some(State)
    case "health" => Some(Health)
    case "backup/last" => Some(BackupLast)
    case "last_auth" => Some(LastAuthTopic)
    case "lock/last" => Some(LockLast)
    case "guest/status" => Some(GuestStatus)
    case "status" => Some(Status)
    case "security" => Some(Security)
    case "backup/status" => Some(BackupStatus)
    case _ => None
  }

  /** The message handed to the callback, if any. */
  function OnMessage(household: string, legacyPrefix: Option<string>, topic: string,
      payload: Payload): Option<Message> {
    match ParseTopic(topic, legacyPrefix)
    case None => None
    case Some(OfNode(h, n, name, reserved)) =>
      if reserved || KnownSubtopic(name).None? then None
      else Some(Message(h, Some(n), KnownSubtopic(name).value, payload))
    case Some(OfClient(client, kind)) =>
      if kind.WillStatus? then Some(Message(household, Some(client), LegacyStatus, payload)) else None
  }

  // ---- properties ----

  lemma ValidIdIsLevel(s: string)
    requires ValidId(s)
    ensures Level(s)
  {
    forall i | 0 <= i < |s| ensures s[i] != '/' { assert IdCharacter(s[i]); }
  }

  lemma FixedLevels()
    ensures Level(ROOT) && Level(HOUSEHOLD) && Level(NODES)
  {
  }

  lemma InnerLevels(h: string, n: string, rest: string)
    requires Level(h) && Level(n)
    ensures Split(h + "/" + (NODES + "/" + (n + "/" + rest))) == [h, NODES, n] + Split(rest)
  {
    FixedLevels();
    SplitLevel(n, rest);
    SplitLevel(NODES, n + "/" + rest);
    SplitLevel(h, NODES + "/" + (n + "/" + rest));
  }

  lemma OuterLevels(t: string)
    ensures Split(ROOT + "/" + (HOUSEHOLD + "/" + t)) == [ROOT, HOUSEHOLD] + Split(t)
  {
    FixedLevels();
    SplitLevel(HOUSEHOLD, t);
    SplitLevel(ROOT, HOUSEHOLD + "/" + t);
  }

  lemma BaseIsNested(h: string, n: string, rest: string)
    ensures NodeBase(h, n) + "/" + rest == ROOT + "/" + (HOUSEHOLD + "/" + (h + "/" + (NODES + "/" + (n + "/" + rest))))
  {
  }

  /** The levels of a node-level topic. */
  lemma NodeLevels(h: string, n: string, rest: string)
    requires Level(h) && Level(n)
    ensures Split(NodeBase(h, n) + "/" + rest) == [ROOT, HOUSEHOLD, h, NODES, n] + Split(rest)
  {
    BaseIsNested(h, n, rest);
    InnerLevels(h, n, rest);
    OuterLevels(h + "/" + (NODES + "/" + (n + "/" + rest)));
  }

  /** Documented, and not implemented by any firmware. */
  predicate Reserved(subtopic: string) {
    || subtopic == "events" || subtopic == "backup/request" || subtopic == "backup/data"
    || subtopic == "restore/request" || subtopic == "restore/status"
  }

  lemma ReservedIff(subtopic: string)
    ensures subtopic in RESERVED <==> Reserved(subtopic)
  {
  }

  /** Building then parsing gives back what was built from, whatever the subtopic. */
  lemma ParsingInvertsBuilding(h: string, n: string, subtopic: string, legacyPrefix: Option<string>)
    requires ValidId(h) && ValidId(n) && subtopic != ""
    ensures ParseTopic(NodeTopic(h, n, subtopic), legacyPrefix) == Some(OfNode(h, n, subtopic, Reserved(subtopic)))
  {
    ReservedIff(subtopic);
    ValidIdIsLevel(h);
    ValidIdIsLevel(n);
    NodeLevels(h, n, subtopic);
    var levels := Split(NodeTopic(h, n, subtopic));
    assert levels[5..] == Split(subtopic);
    JoinAfterSplit(subtopic);
  }

  lemma {:induction false} JoinAppend(a: seq<string>, b: seq<string>)
    requires |a| > 0 && |b| > 0
    ensures Join(a + b) == Join(a) + "/" + Join(b)
  {
    if |a| > 1 {
      JoinAppend(a[1..], b);
      assert (a + b)[1..] == a[1..] + b;
    } else {
      assert (a + b)[1..] == b;
    }
  }

  lemma JoinBase(h: string, n: string)
    ensures Join([ROOT, HOUSEHOLD, h, NODES, n]) == NodeBase(h, n)
  {
    assert Join([n]) == n;
    assert [NODES, n][1..] == [n] && [h, NODES, n][1..] == [NODES, n];
    assert [HOUSEHOLD, h, NODES, n][1..] == [h, NODES, n];
    assert [ROOT, HOUSEHOLD, h, NODES, n][1..] == [HOUSEHOLD, h, NODES, n];
    var nodes := NODES + "/" + n;
    assert Join([NODES, n]) == nodes;
    assert Join([h, NODES, n]) == h + "/" + nodes;
    assert Join([HOUSEHOLD, h, NODES, n]) == HOUSEHOLD + "/" + (h + "/" + nodes);
    assert NodeBase(h, n) == ROOT + "/" + (HOUSEHOLD + "/" + (h + "/" + nodes));
  }

  /** Parsing then building gives back the topic exactly when it names a subtopic. */
  lemma BuildingInvertsParsing(topic: string, legacyPrefix: Option<string>)
    requires var p := ParseTopic(topic, legacyPrefix); p.Some? && p.value.OfNode?
    ensures var p := ParseTopic(topic, legacyPrefix).value;
            && ValidId(p.household) && ValidId(p.node) && (p.reserved <==> Reserved(p.subtopic))
            && topic == NodeBase(p.household, p.node) + "/" + p.subtopic
            && (NodeTopic(p.household, p.node, p.subtopic) == topic <==> p.subtopic != "")
  {
    var levels := Split(topic);
    JoinAfterSplit(topic);
    ReservedIff(ParseTopic(topic, legacyPrefix).value.subtopic);
    var base := [ROOT, HOUSEHOLD, levels[2], NODES, levels[4]];
    assert levels == base + levels[5..];
    JoinAppend(base, levels[5..]);
    JoinBase(levels[2], levels[4]);
  }

  lemma KnownIsNotReserved(name: string)
    requires KnownSubtopic(name).Some?
    ensures !Reserved(name) && name != ""
  {
    assert "events"[0] == 'e' && "backup/request"[7] == 'r' && "backup/data"[7] == 'd';
    assert "restore/request"[0] == 'r' && "restore/status"[0] == 'r';
  }

  // ---- the contract, spelled out ----

  const SMALL := "abcdefghijklmnopqrstuvwxyz"
  const CAPITAL := "ABCDEFGHIJKLMNOPQRSTUVWXYZ"
  const ALPHABET: string := SMALL + CAPITAL + "0123456789_-"

  /** One to 64 letters, figures, underscores and hyphens. */
  predicate Identifier(s: string) {
    1 <= |s| <= 64 && forall i :: 0 <= i < |s| ==> s[i] in ALPHABET
  }

  lemma SmallIff(c: char)
    ensures c in SMALL <==> 'a' <= c <= 'z'
  {
  }

  lemma CapitalIff(c: char)
    ensures c in CAPITAL <==> 'A' <= c <= 'Z'
  {
  }

  lemma OtherIff(c: char)
    ensures c in "0123456789_-" <==> '0' <= c <= '9' || c == '_' || c == '-'
  {
  }

  lemma IdentifierIff(s: string)
    ensures ValidId(s) <==> Identifier(s)
  {
    forall i | 0 <= i < |s| ensures IdCharacter(s[i]) <==> s[i] in ALPHABET {
      SmallIff(s[i]);
      CapitalIff(s[i]);
      OtherIff(s[i]);
    }
  }

  /** The nine subtopics a node reports on. */
  predicate Reported(t: Subtopic) {
    !t.LegacyStatus? && !t.Other?
  }

  function SubtopicText(t: Subtopic): string {
    match t
    case Status => "status"
    case State => "state"
    case Health => "health"
    case Security => "security"
    case BackupStatus => "backup/status"
    case BackupLast => "backup/last"
    case LastAuthTopic => "last_auth"
    case GuestStatus => "guest/status"
    case LockLast => "lock/last"
    case LegacyStatus => ""
    case Other(text) => text
  }

  lemma KnownIff(name: string, t: Subtopic)
    ensures KnownSubtopic(name) == Some(t) <==> Reported(t) && name == SubtopicText(t)
  {
  }

  function Tree(h: string, n: string): string {
    "homekey/household/" + h + "/nodes/" + n
  }

  lemma TreeIsBase(h: string, n: string)
    ensures NodeBase(h, n) == Tree(h, n)
  {
    assert ROOT + "/" + HOUSEHOLD + "/" == "homekey/household/" && "/" + NODES + "/" == "/nodes/";
    assert NodeBase(h, n) == (ROOT + "/" + HOUSEHOLD + "/") + h + ("/" + NODES + "/") + n;
  }

  /** A node topic of the contract. */
  predicate NamesNode(topic: string, h: string, n: string, t: Subtopic) {
    Identifier(h) && Identifier(n) && Reported(t) && topic == Tree(h, n) + "/" + SubtopicText(t)
  }

  predicate InTree(topic: string) {
    topic == "homekey" || "homekey/" <= topic
  }

  lemma InTreeIff(topic: string)
    ensures Split(topic)[0] == ROOT <==> InTree(topic)
  {
    JoinAfterSplit(topic);
    FixedLevels();
    if topic == ROOT {
      SplitGivesLevels(topic);
    } else if "homekey/" <= topic {
      assert "homekey/" == ROOT + "/";
      assert topic == ROOT + "/" + topic[8..];
      SplitLevel(ROOT, topic[8..]);
    }
  }

  /** The will of a client whose name starts with the configured prefix, outside the contract's
      own tree. */
  predicate NamesWill(topic: string, legacyPrefix: Option<string>, client: string) {
    && legacyPrefix.Some? && legacyPrefix.value != "" && client != "" && Level(client)
    && topic == legacyPrefix.value + client + "/status" && !InTree(topic)
  }

  lemma NodeTopicPasses(household: string, legacyPrefix: Option<string>, topic: string, payload: Payload,
                        h: string, n: string, t: Subtopic)
    requires NamesNode(topic, h, n, t)
    ensures OnMessage(household, legacyPrefix, topic, payload) == Some(Message(h, Some(n), t, payload))
  {
    var name := SubtopicText(t);
    KnownIff(name, t);
    KnownIsNotReserved(name);
    IdentifierIff(h);
    IdentifierIff(n);
    TreeIsBase(h, n);
    ParsingInvertsBuilding(h, n, name, legacyPrefix);
  }

  lemma StatusIsOneLevel()
    ensures Split("status") == ["status"] && Join(["status"]) == "status"
  {
    SplitGivesLevels("status");
    JoinAfterSplit("status");
    assert Level("status");
    assert Split("status") == [Split("status")[0]];
  }

  lemma WillPasses(household: string, legacyPrefix: Option<string>, topic: string, payload: Payload, client: string)
    requires NamesWill(topic, legacyPrefix, client)
    ensures OnMessage(household, legacyPrefix, topic, payload) == Some(Message(household, Some(client), LegacyStatus,
        payload))
  {
    var rest := client + "/" + "status";
    InTreeIff(topic);
    assert "/status" == "/" + "status";
    assert topic == legacyPrefix.value + rest;
    assert topic[|legacyPrefix.value|..] == rest;
    SplitLevel(client, "status");
    StatusIsOneLevel();
    assert Split(rest)[1..] == ["status"];
  }

  lemma PassedNodeTopic(topic: string, legacyPrefix: Option<string>)
    requires var p := ParseTopic(topic, legacyPrefix);
             p.Some? && p.value.OfNode? && KnownSubtopic(p.value.subtopic).Some?
    ensures var p := ParseTopic(topic, legacyPrefix).value;
            NamesNode(topic, p.household, p.node, KnownSubtopic(p.subtopic).value)
  {
    var p := ParseTopic(topic, legacyPrefix).value;
    BuildingInvertsParsing(topic, legacyPrefix);
    KnownIff(p.subtopic, KnownSubtopic(p.subtopic).value);
    IdentifierIff(p.household);
    IdentifierIff(p.node);
    TreeIsBase(p.household, p.node);
  }

  lemma StatusParts(rest: string)
    requires |Split(rest)| > 1 && KindOfSuffix(Join(Split(rest)[1..])) == Some(WillStatus)
    ensures rest == Split(rest)[0] + "/status" && Level(Split(rest)[0])
  {
    JoinAfterSplit(rest);
    SplitGivesLevels(rest);
    assert Join(Split(rest)[1..]) == "status";
    assert "/status" == "/" + "status";
  }

  lemma PassedWill(topic: string, legacyPrefix: Option<string>)
    requires var p := ParseTopic(topic, legacyPrefix); p.Some? && p.value.OfClient? && p.value.kind.WillStatus?
    ensures NamesWill(topic, legacyPrefix, ParseTopic(topic, legacyPrefix).value.client)
  {
    var prefix := legacyPrefix.value;
    var rest := topic[|prefix|..];
    InTreeIff(topic);
    StatusParts(rest);
    assert topic == prefix + rest;
    assert topic == prefix + Split(rest)[0] + "/status";
  }

  /** The gate is exact: a callback runs iff the topic is a node topic of the contract or the
      will of a client with the configured prefix. */
  lemma GateIsExact(household: string, legacyPrefix: Option<string>, topic: string, payload: Payload)
    ensures OnMessage(household, legacyPrefix, topic, payload).Some? <==>
            || (exists h, n, t :: NamesNode(topic, h, n, t))
            || (exists client :: NamesWill(topic, legacyPrefix, client))
  {
    if OnMessage(household, legacyPrefix, topic, payload).Some? {
      var p := ParseTopic(topic, legacyPrefix).value;
      if p.OfNode? {
        PassedNodeTopic(topic, legacyPrefix);
      } else {
        PassedWill(topic, legacyPrefix);
      }
    }
    if h, n, t :| NamesNode(topic, h, n, t) {
      NodeTopicPasses(household, legacyPrefix, topic, payload, h, n, t);
    } else if client :| NamesWill(topic, legacyPrefix, client) {
      WillPasses(household, legacyPrefix, topic, payload, client);
    }
  }

  /** No two node topics of the contract are the same text. */
  lemma NodeTopicsDiffer(h: string, n: string, name: string, h': string, n': string, name': string)
    requires ValidId(h) && ValidId(n) && name != "" && ValidId(h') && ValidId(n') && name' != ""
    requires NodeTopic(h, n, name) == NodeTopic(h', n', name')
    ensures h == h' && n == n' && name == name'
  {
    ParsingInvertsBuilding(h, n, name, None);
    ParsingInvertsBuilding(h', n', name', None);
  }
}
