/** The documents of the household contract and their validating constructors (models.py),
    the message type the two transports share (mqtt.py), and the lock vocabulary (const.py). */
module Models {
  import opened Json

  datatype LockState = Unlocked | Locked | Jammed | Unknown | Unlocking | Locking

  function LockStateOf(code: int): LockState {
    match code
    case 0 => Unlocked
    case 1 => Locked
    case 2 => Jammed
    case 4 => Unlocking
    case 5 => Locking
    case _ => Unknown
  }

  datatype LockSource = HomeKit | HomeKey | Mqtt | Api | Device | UnknownSource

  function SourceOf(text: string): Result<LockSource> {
    match text
    case "homekit" => Ok(HomeKit)
    case "homekey" => Ok(HomeKey)
    case "mqtt" => Ok(Mqtt)
    case "api" => Ok(Api)
    case "device" => Ok(Device)
    case "unknown" => Ok(UnknownSource)
    case _ => Rejected
  }

  /** The sources Home Assistant did not cause itself. */
  predicate DeviceInitiated(source: LockSource) {
    source.HomeKit? || source.HomeKey? || source.Device?
  }

  datatype SecurityState = SecurityOk | SecurityWarning | SecurityError

  function SecurityOf(text: string): Result<SecurityState> {
    match text
    case "OK" => Ok(SecurityOk)
    case "WARNING" => Ok(SecurityWarning)
    case "ERROR" => Ok(SecurityError)
    case _ => Rejected
  }

  datatype BackupOutcome = Completed | Failed

  function OutcomeOf(text: string): Result<BackupOutcome> {
    match text
    case "completed" => Ok(Completed)
    case "failed" => Ok(Failed)
    case _ => Rejected
  }

  datatype AuthResult = Success | Failure

  function AuthResultOf(text: string): Result<AuthResult> {
    match text
    case "SUCCESS" => Ok(Success)
    case "FAILURE" => Ok(Failure)
    case _ => Rejected
  }

  /** A text read as a date: it is none, it is one that cannot be (the reader raises), or it is a
      time in epoch seconds. */
  datatype Stamp = NotADate | Impossible | Epoch(seconds: real)

  /** What a coordinator is built with: its household, and three functions of the platform -
      rendering epoch seconds (None when out of range), reading a date back, and `str()` of a
      JSON value. Any choice will do. */
  datatype Env = Env(household: string, iso: real -> Option<string>, parse: string -> Stamp, show: Json -> string)

  // ---- documents ----

  datatype NodeState = NodeState(
    name: string, role: string, state: string, generation: Option<int>, firmware: Option<string>)

  datatype NodeHealth = NodeHealth(
    network: string, mqtt: string, nfc: string, certificate: string, mqttError: Option<int>,
    lockCurrent: Option<int>, lockTarget: Option<int>, backup: Option<string>,
    firmware: Option<string>, uptime: Option<int>, freeHeap: Option<int>,
    resetReason: Option<string>, securityAllOk: Option<bool>, securityWarnings: Option<string>)

  datatype BackupRecord = BackupRecord(status: BackupOutcome, timestamp: Option<string>)

  datatype LastAuth = LastAuth(
    authType: string, result: AuthResult, timestamp: Option<string>, issuer: Option<string>)

  datatype LockChange = LockChange(
    current: int, source: LockSource, target: Option<int>, timestamp: Option<string>)

  datatype GuestTag = GuestTag(
    tagId: string, uid: string, title: string, enabled: bool, validFrom: int, validUntil: int,
    lastUsedAt: int, useCount: int)

  datatype GuestState = GuestState(
    enabled: bool, defaultValidity: int, capacity: int, count: int, wallClock: int,
    tags: seq<GuestTag>, writeArmed: bool, canWrite: Option<bool>,
    lastWriteResult: Option<string>, lastWriteMessage: Option<string>)

  function NormaliseTimestamp(env: Env, value: Json): Result<Option<string>> {
    match value
    case JNull => Ok(None)
    case JInt(n) => if env.iso(n as real).Some? then Ok(env.iso(n as real)) else Rejected
    case JFloat(r) => if env.iso(r).Some? then Ok(env.iso(r)) else Rejected
    case JStr(s) => Ok(Some(s))
    case _ => Rejected
  }

  /** Identity fields may be absent, but a present one must match the topic. */
  predicate IdentityOk(env: Env, doc: Doc, node: string) {
    && ("household_id" in doc ==> RequireStr(doc, "household_id") == Ok(env.household))
    && ("node_id" in doc ==> RequireStr(doc, "node_id") == Ok(node))
  }

  function ParseState(env: Env, payload: Json, node: string): Result<NodeState> {
    var doc :- RequireDict(payload);
    if RequireStr(doc, "household_id") != Ok(env.household) then Rejected
    else if RequireStr(doc, "node_id") != Ok(node) then Rejected
    else
      var name :- OptionalStr(doc, "node_name");
      var role :- OptionalStr(doc, "node_role");
      var state :- OptionalStr(doc, "node_state");
      var generation :- OptionalInt(doc, "generation");
      var firmware :- OptionalStr(doc, "firmware_version");
      Ok(NodeState(OrText(name, node), OrText(role, "other"), OrText(state, "UNKNOWN"),
                   generation, firmware))
  }

  function ParseHealth(env: Env, payload: Json, node: string): Result<NodeHealth> {
    var doc :- RequireDict(payload);
    if !IdentityOk(env, doc, node) then Rejected
    else if !(Get(doc, "security").JNull? || Get(doc, "security").JObj?) then Rejected
    else
      var security := SubDoc(doc, "security");
      var network :- OptionalStr(doc, "network");
      var mqtt :- RequireStr(doc, "mqtt");
      var nfc :- OptionalStr(doc, "nfc");
      var certificate :- OptionalStr(doc, "certificate");
      var mqttError :- OptionalInt(doc, "mqtt_error");
      var current :- OptionalInt(doc, "lock_current");
      var target :- OptionalInt(doc, "lock_target");
      var backup :- OptionalStr(doc, "backup");
      var firmware :- OptionalStr(doc, "firmware_version");
      var uptime :- OptionalInt(doc, "uptime");
      var freeHeap :- OptionalInt(doc, "free_heap");
      var resetReason :- OptionalStr(doc, "reset_reason");
      var allOk :- OptionalBool(security, "all_ok");
      var warnings :- OptionalStr(security, "warnings");
      Ok(NodeHealth(OrText(network, "UNKNOWN"), mqtt, OrText(nfc, "unknown"),
                    OrText(certificate, "unknown"), mqttError, current, target, backup, firmware,
                    uptime, freeHeap, resetReason, allOk, warnings))
  }

  function ParseBackup(env: Env, payload: Json, node: string): Result<BackupRecord> {
    var doc :- RequireDict(payload);
    if !IdentityOk(env, doc, node) then Rejected
    else
      var text :- RequireStr(doc, "status");
      var status :- OutcomeOf(text);
      var timestamp :- NormaliseTimestamp(env, Get(doc, "timestamp"));
      Ok(BackupRecord(status, timestamp))
  }

  function ParseAuth(env: Env, payload: Json, node: string): Result<LastAuth> {
    var doc :- RequireDict(payload);
    if !IdentityOk(env, doc, node) then Rejected
    else
      var text :- RequireStr(doc, "result");
      var result :- AuthResultOf(text);
      var authType :- OptionalStr(doc, "type");
      var timestamp :- NormaliseTimestamp(env, Get(doc, "timestamp"));
      var issuer :- OptionalStr(doc, "issuer");
      Ok(LastAuth(OrText(authType, "HomeKey"), result, timestamp, issuer))
  }

  function ParseChange(env: Env, payload: Json, node: string): Result<LockChange> {
    var doc :- RequireDict(payload);
    if !IdentityOk(env, doc, node) then Rejected
    else
      var current :- OptionalInt(doc, "current");
      if current.None? then Rejected
      else
        var text :- OptionalStr(doc, "source");
        if text.None? then Rejected
        else
          var source :- SourceOf(text.value);
          var target :- OptionalInt(doc, "target");
          var timestamp :- NormaliseTimestamp(env, Get(doc, "timestamp"));
          Ok(LockChange(current.value, source, target, timestamp))
  }

  function ParseTag(item: Json): Result<GuestTag> {
    var doc :- RequireDict(item);
    var tagId :- RequireStr(doc, "tag_id");
    var uid :- OptionalStr(doc, "uid");
    var title :- OptionalStr(doc, "label");
    var enabled :- OptionalBool(doc, "enabled");
    var validFrom :- OptionalInt(doc, "valid_from");
    var validUntil :- OptionalInt(doc, "valid_until");
    var lastUsedAt :- OptionalInt(doc, "last_used_at");
    var useCount :- OptionalInt(doc, "use_count");
    Ok(GuestTag(tagId, uid.GetOr(""), title.GetOr(""), enabled != Some(false), validFrom.GetOr(0),
                validUntil.GetOr(0), lastUsedAt.GetOr(0), useCount.GetOr(0)))
  }

  function ParseTags(items: seq<Json>): Result<seq<GuestTag>> {
    if items == [] then Ok([])
    else
      var tag :- ParseTag(items[0]);
      var rest :- ParseTags(items[1..]);
      Ok([tag] + rest)
  }

  function ParseGuest(payload: Json): Result<GuestState> {
    var doc :- RequireDict(payload);
    var raw := Get(doc, "tags");
    if !(raw.JNull? || raw.JList?) then Rejected
    else
      var tags :- ParseTags(if raw.JList? then raw.items else []);
      var write := SubDoc(doc, "write");
      var canWrite :- OptionalBool(write, "can_write");
      var enabled :- OptionalBool(doc, "enabled");
      var validity :- OptionalInt(doc, "default_validity_seconds");
      var capacity :- OptionalInt(doc, "capacity");
      var count :- OptionalInt(doc, "count");
      var wallClock :- OptionalInt(doc, "wall_clock");
      var armed :- OptionalBool(write, "armed");
      var lastResult :- OptionalStr(write, "last_result");
      var lastMessage :- OptionalStr(write, "last_message");
      Ok(GuestState(enabled == Some(true), validity.GetOr(0), capacity.GetOr(0), count.GetOr(0),
                    wallClock.GetOr(0), tags, armed == Some(true), canWrite, lastResult, lastMessage))
  }

  // ---- plain-text payloads ----

  predicate IsSpace(c: char) {
    var code := c as int;
    9 <= code <= 13 || 28 <= code <= 32 || code in {0x85, 0xA0, 0x1680, 0x2028, 0x2029, 0x202F, 0x205F, 0x3000}
    || 0x2000 <= code <= 0x200A
  }

  function StripLeft(s: string): string {
    if s != "" && IsSpace(s[0]) then StripLeft(s[1..]) else s
  }

  function StripRight(s: string): string {
    if s != "" && IsSpace(s[|s| - 1]) then StripRight(s[..|s| - 1]) else s
  }

  function Strip(s: string): string {
    StripRight(StripLeft(s))
  }

  /** ASCII lower-casing: no accepted word has another character that lower-cases into it. */
  function Lower(s: string): string {
    seq(|s|, i requires 0 <= i < |s| => if 'A' <= s[i] <= 'Z' then s[i] - 'A' + 'a' else s[i])
  }

  // ---- messages ----

  datatype Subtopic =
    | Status | State | Health | Security | BackupStatus | BackupLast | LastAuthTopic | GuestStatus
    | LockLast | LegacyStatus | Other(text: string)

  /** A payload as its readers see it: `Doc` is a text that decodes as JSON, `Text` any other
      text. No word a plain subtopic accepts decodes as JSON, in any case or padding. */
  datatype Payload = Text(text: string) | Document(json: Json)

  datatype Message = Message(household: string, node: Option<string>, subtopic: Subtopic, payload: Payload)

  /** Where explaining a lock change raises, if it does: before it has attached anything, or once
      the entry is handed to the logbook. */
  datatype Fault = NoFault | EarlyFault | LogFault

  /** One reading of the wall clock, and what befalls an explanation attempted just then. */
  datatype Moment = Moment(now: real, fault: Fault) {
    predicate Decides() {
      !fault.EarlyFault?
    }

    predicate Logs() {
      fault.NoFault?
    }
  }

  datatype Delivery = Delivery(message: Message, at: Moment)

  predicate IsJsonTopic(t: Subtopic) {
    t.State? || t.Health? || t.BackupLast? || t.LastAuthTopic? || t.LockLast? || t.GuestStatus?
  }

  function Word(p: Payload): string {
    if p.Text? then Strip(p.text) else ""
  }

  function ParseOnline(p: Payload): Result<bool> {
    match Lower(Word(p))
    case "online" => Ok(true)
    case "offline" => Ok(false)
    case _ => Rejected
  }

  /** What an accepted message reports. */
  datatype Report =
    | Online(up: bool)
    | Will(alive: bool)
    | Identity(state: NodeState)
    | Snapshot(health: NodeHealth)
    | Change(change: LockChange)
    | SecurityWas(security: SecurityState)
    | BackupWas(outcome: BackupOutcome)
    | Backup(record: BackupRecord)
    | Auth(auth: LastAuth)
    | Guest(guest: GuestState)

  /** Validate a payload for a subtopic that has a handler. */
  function ParseReport(env: Env, t: Subtopic, p: Payload, node: string): Result<Report>
    requires !t.Other?
  {
    if IsJsonTopic(t) && p.Text? then Rejected
    else
      match t
      case LegacyStatus => var up :- ParseOnline(p); Ok(Will(up))
      case Status => var up :- ParseOnline(p); Ok(Online(up))
      case State => var v :- ParseState(env, p.json, node); Ok(Identity(v))
      case Health => var v :- ParseHealth(env, p.json, node); Ok(Snapshot(v))
      case LockLast => var v :- ParseChange(env, p.json, node); Ok(Change(v))
      case Security => var v :- SecurityOf(Word(p)); Ok(SecurityWas(v))
      case BackupStatus => var v :- OutcomeOf(Lower(Word(p))); Ok(BackupWas(v))
      case BackupLast => var v :- ParseBackup(env, p.json, node); Ok(Backup(v))
      case LastAuthTopic => var v :- ParseAuth(env, p.json, node); Ok(Auth(v))
      case GuestStatus => var v :- ParseGuest(p.json); Ok(Guest(v))
  }

  /** What a delivery amounts to for one household. `Refused(Some(n))` is a validation failure
      on a subtopic whose handler registers its node before validating. */
  datatype Arrival =
    | Ignored
    | Refused(registers: Option<string>)
    | Accepted(node: string, report: Report, at: Moment)

  function Read(env: Env, d: Delivery): Arrival {
    var m := d.message;
    if m.household != env.household then Ignored
    else if IsJsonTopic(m.subtopic) && m.payload.Text? then Refused(None)
    else if m.subtopic.Other? || m.node.None? || m.node == Some("") then Ignored
    else
      var r := ParseReport(env, m.subtopic, m.payload, m.node.value);
      if r.Ok? then Accepted(m.node.value, r.value, d.at)
      else Refused(if m.subtopic.Health? || m.subtopic.LockLast? then m.node else None)
  }
}
