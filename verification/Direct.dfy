/** The broker-less transport (direct.py): a polled response restated as the messages MQTT would
    have delivered. */
module Direct {
  import opened Json
  import opened Models

  /** The firmware's "the lock was not reported". */
  predicate NotReported(j: Json) {
    j == JInt(255) || j == JFloat(255.0)
  }

  function Or(a: Json, b: Json): Json {
    if Truthy(a) then a else b
  }

  function When(condition: bool, key: string, value: Json): Doc {
    if condition then map[key := value] else map[]
  }

  /** `state.get(key) or {}`, then used as an object: None when that raises. */
  function Section(state: Doc, key: string): Option<Doc> {
    if !Truthy(Get(state, key)) then Some(map[])
    else if Get(state, key).JObj? then Some(Get(state, key).fields)
    else None
  }

  function Flag(ok: bool): Json {
    JStr(if ok then "OK" else "ERROR")
  }

  /** The health document of firmware that has only the structured fields. */
  function HealthFromSections(state: Doc): Option<Doc> {
    var lock, reader, mqtt := Section(state, "lock"), Section(state, "reader"), Section(state, "mqtt");
    if lock.None? || reader.None? || mqtt.None? then None
    else
      var available := Truthy(Get(lock.value, "available"));
      Some(map["network" := JStr("UNKNOWN"), "certificate" := JStr("unknown"),
               "nfc" := Flag(Truthy(Get(reader.value, "connected"))),
               "mqtt" := Flag(Truthy(Get(mqtt.value, "connected")))]
           + When(Truthy(Get(state, "firmware")), "firmware_version", Get(state, "firmware"))
           + When(available && !Get(lock.value, "current").JNull?, "lock_current", Get(lock.value, "current"))
           + When(available && !Get(lock.value, "target").JNull?, "lock_target", Get(lock.value, "target")))
  }

  function DropSentinel(doc: Doc, key: string): Doc {
    if NotReported(Get(doc, key)) then doc - {key} else doc
  }

  function HealthDocument(state: Doc): Option<Doc> {
    var health := Get(state, "health");
    if health.JObj? then Some(DropSentinel(DropSentinel(health.fields, "lock_current"), "lock_target"))
    else HealthFromSections(state)
  }

  // ---- identity ----

  datatype Resolved = NoNodeId | NoHousehold | Found(household: string, node: string)

  function Str(env: Env, j: Json): string {
    if j.JStr? then j.text else env.show(j)
  }

  function ResolveIdentity(env: Env, state: Doc, info: Doc): Resolved {
    var node := Or(Get(state, "node_id"), Get(SubDoc(info, "device"), "node_id"));
    if !Truthy(node) then NoNodeId
    else if !Truthy(Get(state, "household_id")) then NoHousehold
    else Found(Str(env, Get(state, "household_id")), Str(env, node))
  }

  function IdentityDocument(state: Doc, info: Doc, household: string, node: string): Doc {
    var name := Or(Get(state, "node_name"), Get(SubDoc(info, "device"), "node_name"));
    map["household_id" := JStr(household), "node_id" := JStr(node)]
    + When(Truthy(name), "node_name", name)
    + When(Truthy(Get(state, "node_role")), "node_role", Get(state, "node_role"))
    + When(Truthy(Get(state, "node_state")), "node_state", Get(state, "node_state"))
    + When(Get(state, "generation").JInt?, "generation", Get(state, "generation"))
    + When(Truthy(Get(state, "firmware")), "firmware_version", Get(state, "firmware"))
  }

  // ---- messages ----

  predicate SendsLock(state: Doc) {
    Get(state, "lock_last").JObj? && Truthy(Get(SubDoc(state, "lock_last"), "source"))
  }

  predicate SendsSecurity(state: Doc) {
    Get(state, "security").JStr? && SecurityOf(Get(state, "security").text).Ok?
  }

  predicate SendsBackup(state: Doc) {
    Get(state, "backup_status").JStr? && OutcomeOf(Get(state, "backup_status").text).Ok?
  }

  predicate SendsAuth(state: Doc) {
    var result := Get(SubDoc(state, "last_auth"), "result");
    Get(state, "last_auth").JObj? && result.JStr? && AuthResultOf(result.text).Ok?
  }

  /** Looking up an unhashable `result` among the known ones raises a TypeError. */
  predicate AuthRaises(state: Doc) {
    var result := Get(SubDoc(state, "last_auth"), "result");
    Get(state, "last_auth").JObj? && (result.JList? || result.JObj?)
  }

  /** The slots of a poll, in delivery order; an empty slot sends nothing. The last one is the
      guest document, fetched from its own endpoint. */
  const SLOTS: nat := 8

  function Slot(sent: bool, household: string, node: string, t: Subtopic, p: Payload): Option<Message> {
    if sent then Some(Message(household, Some(node), t, p)) else None
  }

  function Plain(state: Doc, key: string): Payload {
    Text(if Get(state, key).JStr? then Get(state, key).text else "")
  }

  /** Slot `k` of a response: the lock event before the health document it explains, the last
      authorisation after both. */
  function SlotAt(state: Doc, info: Doc, guest: Option<Json>, h: string, n: string, k: nat): Option<Message> {
    match k
    case 0 => Slot(true, h, n, Status, Text("online"))
    case 1 => Slot(SendsLock(state), h, n, LockLast, Document(Get(state, "lock_last")))
    case 2 => Slot(true, h, n, State, Document(JObj(IdentityDocument(state, info, h, n))))
    case 3 => Slot(true, h, n, Health, Document(JObj(HealthDocument(state).GetOr(map[]))))
    case 4 => Slot(SendsSecurity(state), h, n, Security, Plain(state, "security"))
    case 5 => Slot(SendsBackup(state), h, n, BackupStatus, Plain(state, "backup_status"))
    case 6 => Slot(SendsAuth(state), h, n, LastAuthTopic, Document(Get(state, "last_auth")))
    case _ => Slot(guest.Some? && guest != Some(JNull), h, n, GuestStatus, Document(guest.GetOr(JNull)))
  }

  /** None when restating the response raises (an AttributeError or a TypeError). */
  function Slots(state: Doc, info: Doc, guest: Option<Json>, h: string, n: string): Option<seq<Option<Message>>> {
    if HealthDocument(state).None? || AuthRaises(state) then None
    else Some(seq(SLOTS, k requires 0 <= k < SLOTS => SlotAt(state, info, guest, h, n, k)))
  }

  /** The messages of the first `k` slots, each with the moment it is handled at. */
  function Stamped(slots: seq<Option<Message>>, clock: nat -> Moment, k: nat): seq<Delivery>
    requires k <= |slots|
  {
    if k == 0 then []
    else
      Stamped(slots, clock, k - 1)
      + (if slots[k - 1].Some? then [Delivery(slots[k - 1].value, clock(k - 1))] else [])
  }
}
