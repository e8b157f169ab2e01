/** The health a polled response says: its embedded health document, less the not-reported sentinel,
    or - from firmware that has none - its lock, reader and broker sections. */
module PolledHealth {
  import opened Json
  import opened Models
  import opened Payloads
  import opened Household
  import opened History
  import opened Direct
  import opened Polling

  // ---- reading documents ----

  /** Two documents that read the same at every key but the two lock codes. */
  ghost predicate SameButCodes(a: Doc, b: Doc) {
    forall key :: key != "lock_current" && key != "lock_target" ==>
      Get(a, key) == Get(b, key) && (key in a <==> key in b)
  }

  lemma NotCodes()
    ensures "household_id" != "lock_current" && "household_id" != "lock_target"
    ensures "node_id" != "lock_current" && "node_id" != "lock_target"
    ensures "network" != "lock_current" && "network" != "lock_target"
    ensures "mqtt" != "lock_current" && "mqtt" != "lock_target"
    ensures "nfc" != "lock_current" && "nfc" != "lock_target"
    ensures "certificate" != "lock_current" && "certificate" != "lock_target"
    ensures "mqtt_error" != "lock_current" && "mqtt_error" != "lock_target"
    ensures "backup" != "lock_current" && "backup" != "lock_target"
    ensures "firmware_version" != "lock_current" && "firmware_version" != "lock_target"
    ensures "uptime" != "lock_current" && "uptime" != "lock_target"
    ensures "free_heap" != "lock_current" && "free_heap" != "lock_target"
    ensures "reset_reason" != "lock_current" && "reset_reason" != "lock_target"
    ensures "security" != "lock_current" && "security" != "lock_target"
  {
    assert |"node_id"| == 7;
    assert |"network"| == 7;
    assert |"mqtt"| == 4;
    assert |"nfc"| == 3;
    assert |"mqtt_error"| == 10;
    assert |"backup"| == 6;
    assert |"firmware_version"| == 16;
    assert |"uptime"| == 6;
    assert |"free_heap"| == 9;
    assert |"security"| == 8;
    assert "certificate"[0] == 'c' && "reset_reason"[0] == 'r' && "household_id"[0] == 'h';
    assert "lock_current"[0] == 'l' && "lock_target"[0] == 'l' && |"lock_current"| == 12 && |"lock_target"| == 11;
  }

  lemma FieldsReadAlike(doc: Doc, dropped: Doc)
    requires SameButCodes(doc, dropped)
    ensures Get(dropped, "mqtt") == Get(doc, "mqtt")
    ensures Get(dropped, "network") == Get(doc, "network")
    ensures Get(dropped, "nfc") == Get(doc, "nfc")
    ensures Get(dropped, "certificate") == Get(doc, "certificate")
    ensures Get(dropped, "mqtt_error") == Get(doc, "mqtt_error")
    ensures Get(dropped, "backup") == Get(doc, "backup")
    ensures Get(dropped, "firmware_version") == Get(doc, "firmware_version")
    ensures Get(dropped, "uptime") == Get(doc, "uptime")
    ensures Get(dropped, "free_heap") == Get(doc, "free_heap")
    ensures Get(dropped, "reset_reason") == Get(doc, "reset_reason")
    ensures Get(dropped, "security") == Get(doc, "security")
  {
    NotCodes();
  }

  function Dropped(doc: Doc): Doc {
    DropSentinel(DropSentinel(doc, "lock_current"), "lock_target")
  }

  lemma GetWhen(doc: Doc, condition: bool, key: string, value: Json, other: string)
    ensures Get(doc + When(condition, key, value), other) == if condition && key == other then value
        else Get(doc, other)
  {
  }

  /** A truthy value, or none. */
  function Given(j: Json): Json {
    if Truthy(j) then j else JNull
  }

  // ---- firmware that embeds its health document ----

  /** A lock code, absent where it holds the sentinel. */
  predicate CodeSays(j: Json, v: Option<int>) {
    if j == JInt(255) || j == JFloat(255.0) then v.None? else j == IntJson(v)
  }

  predicate SaysEmbedded(env: Env, doc: Doc, n: string, h: NodeHealth) {
    && SaysHealth(env, doc - {"lock_current", "lock_target"}, n, h.(lockCurrent := None, lockTarget := None))
    && CodeSays(Get(doc, "lock_current"), h.lockCurrent) && CodeSays(Get(doc, "lock_target"), h.lockTarget)
  }

  lemma CodesDiffer()
    ensures "lock_current" != "lock_target"
  {
    assert |"lock_current"| == 12 && |"lock_target"| == 11;
  }

  lemma BareReads(doc: Doc)
    ensures var bare := doc - {"lock_current", "lock_target"};
            SameButCodes(doc, bare) && Get(bare, "lock_current") == JNull && Get(bare, "lock_target") == JNull
  {
  }

  lemma DroppedSays(doc: Doc)
    ensures SameButCodes(doc, Dropped(doc))
    ensures forall v :: CodeSays(Get(doc, "lock_current"), v) <==> Get(Dropped(doc), "lock_current") == IntJson(v)
    ensures forall v :: CodeSays(Get(doc, "lock_target"), v) <==> Get(Dropped(doc), "lock_target") == IntJson(v)
  {
    CodesDiffer();
  }

  /** Documents that differ in the codes alone say the same but for the codes. */
  lemma SaysAlike(env: Env, a: Doc, b: Doc, n: string, h: NodeHealth, g: NodeHealth)
    requires SameButCodes(a, b) && g == h.(lockCurrent := g.lockCurrent, lockTarget := g.lockTarget)
    requires Get(a, "lock_current") == IntJson(h.lockCurrent) && Get(a, "lock_target") == IntJson(h.lockTarget)
    requires Get(b, "lock_current") == IntJson(g.lockCurrent) && Get(b, "lock_target") == IntJson(g.lockTarget)
    ensures SaysHealth(env, a, n, h) <==> SaysHealth(env, b, n, g)
  {
    NotCodes();
    FieldsReadAlike(a, b);
  }

  lemma EmbeddedIff(env: Env, doc: Doc, n: string, h: NodeHealth)
    ensures ParseHealth(env, JObj(Dropped(doc)), n) == Ok(h) <==> SaysEmbedded(env, doc, n, h)
  {
    HealthIff(env, JObj(Dropped(doc)), n, h);
    BareReads(doc);
    DroppedSays(doc);
    if CodeSays(Get(doc, "lock_current"), h.lockCurrent) && CodeSays(Get(doc, "lock_target"), h.lockTarget) {
      SaysAlike(env, Dropped(doc), doc - {"lock_current", "lock_target"}, n, h,
                h.(lockCurrent := None, lockTarget := None));
    }
  }

  // ---- firmware that does not ----

  /** What the lock section says under a key, when the lock is available. */
  function OfLock(state: Doc, key: string): Json {
    var lock := SubDoc(state, "lock");
    if Truthy(Get(lock, "available")) then Get(lock, key) else JNull
  }

  function Connected(state: Doc, section: string): string {
    if Truthy(Get(SubDoc(state, section), "connected")) then "OK" else "ERROR"
  }

  /** A falsy section counts as an empty one; any other must be an object. */
  predicate Sectioned(state: Doc) {
    && (Truthy(Get(state, "lock")) ==> Get(state, "lock").JObj?)
    && (Truthy(Get(state, "reader")) ==> Get(state, "reader").JObj?)
    && (Truthy(Get(state, "mqtt")) ==> Get(state, "mqtt").JObj?)
  }

  predicate SaysSections(state: Doc, h: NodeHealth) {
    && h == NodeHealth("UNKNOWN", Connected(state, "mqtt"), Connected(state, "reader"), "unknown", None,
                       h.lockCurrent, h.lockTarget, None, h.firmware, None, None, None, None, None)
    && OfLock(state, "current") == IntJson(h.lockCurrent) && OfLock(state, "target") == IntJson(h.lockTarget)
    && Given(Get(state, "firmware")) == TextJson(h.firmware)
  }

  function FixedSections(state: Doc): Doc {
    map["network" := JStr("UNKNOWN"), "certificate" := JStr("unknown"),
        "nfc" := JStr(Connected(state, "reader")), "mqtt" := JStr(Connected(state, "mqtt"))]
  }

  lemma SectionsAre(state: Doc)
    requires Sectioned(state)
    ensures var lock, firmware := SubDoc(state, "lock"), Get(state, "firmware");
            var available := Truthy(Get(lock, "available"));
            HealthFromSections(state) ==
            Some(FixedSections(state) + When(Truthy(firmware), "firmware_version", firmware)
                 + When(available && !Get(lock, "current").JNull?, "lock_current", Get(lock, "current"))
                 + When(available && !Get(lock, "target").JNull?, "lock_target", Get(lock, "target")))
  {
    assert Section(state, "lock") == Some(SubDoc(state, "lock"));
    assert Section(state, "reader") == Some(SubDoc(state, "reader"));
    assert Section(state, "mqtt") == Some(SubDoc(state, "mqtt"));
  }

  /** Reading one key of the document made from the sections. */
  lemma SectionsReadAt(state: Doc, key: string)
    requires Sectioned(state)
    ensures HealthFromSections(state).Some?
    ensures Get(HealthFromSections(state).value, key) ==
            if key == "lock_target" && OfLock(state, "target") != JNull then OfLock(state, "target")
            else if key == "lock_current" && OfLock(state, "current") != JNull then OfLock(state, "current")
            else if key == "firmware_version" && Truthy(Get(state, "firmware")) then Get(state, "firmware")
            else if key == "mqtt" then JStr(Connected(state, "mqtt"))
            else if key == "nfc" then JStr(Connected(state, "reader"))
            else if key == "certificate" then JStr("unknown")
            else if key == "network" then JStr("UNKNOWN")
            else JNull
    ensures key in HealthFromSections(state).value ==> Get(HealthFromSections(state).value, key) != JNull
  {
    var lock := SubDoc(state, "lock");
    var available := Truthy(Get(lock, "available"));
    var d0 := FixedSections(state);
    var d1 := d0 + When(Truthy(Get(state, "firmware")), "firmware_version", Get(state, "firmware"));
    var d2 := d1 + When(available && !Get(lock, "current").JNull?, "lock_current", Get(lock, "current"));
    SectionsAre(state);
    GetWhen(d0, Truthy(Get(state, "firmware")), "firmware_version", Get(state, "firmware"), key);
    GetWhen(d1, available && !Get(lock, "current").JNull?, "lock_current", Get(lock, "current"), key);
    GetWhen(d2, available && !Get(lock, "target").JNull?, "lock_target", Get(lock, "target"), key);
  }

  /** `doc` reads as the document made from the sections of this response. */
  predicate ReadsAsSections(doc: Doc, state: Doc) {
    && "household_id" !in doc && "node_id" !in doc
    && Get(doc, "network") == JStr("UNKNOWN") && Get(doc, "certificate") == JStr("unknown")
    && Get(doc, "nfc") == JStr(Connected(state, "reader")) && Get(doc, "mqtt") == JStr(Connected(state, "mqtt"))
    && Get(doc, "firmware_version") == Given(Get(state, "firmware"))
    && Get(doc, "lock_current") == OfLock(state, "current") && Get(doc, "lock_target") == OfLock(state, "target")
    && Get(doc, "mqtt_error") == JNull && Get(doc, "backup") == JNull && Get(doc, "uptime") == JNull
    && Get(doc, "free_heap") == JNull && Get(doc, "reset_reason") == JNull && Get(doc, "security") == JNull
  }

  lemma HealthKeysDiffer(key: string)
    requires key in {"household_id", "node_id", "mqtt_error", "backup", "uptime", "free_heap", "reset_reason",
        "security"}
    ensures key !in {"network", "certificate", "nfc", "mqtt", "firmware_version", "lock_current", "lock_target"}
  {
    NotCodes();
    assert |key| == 6 || |key| == 7 || |key| == 8 || |key| == 9 || |key| == 10 || |key| == 12;
    assert key[0] in "hnmbufrs" && "lock_current"[0] == 'l' && "certificate"[0] == 'c' && "network"[1] == 'e';
    assert |"network"| == 7 && |"certificate"| == 11 && |"nfc"| == 3 && |"mqtt"| == 4 && |"firmware_version"| == 16;
    assert |key| == 7 ==> key[1] == 'o';
  }

  lemma AbsentFromSections(state: Doc, key: string)
    requires Sectioned(state)
    requires key in {"household_id", "node_id", "mqtt_error", "backup", "uptime", "free_heap", "reset_reason",
        "security"}
    ensures HealthFromSections(state).Some? && key !in HealthFromSections(state).value
    ensures Get(HealthFromSections(state).value, key) == JNull
  {
    HealthKeysDiffer(key);
    SectionsReadAt(state, key);
  }

  lemma SentKeysDiffer()
    ensures "network" != "certificate" && "network" != "nfc" && "network" != "mqtt" && "network" != "firmware_version"
    ensures "certificate" != "nfc" && "certificate" != "mqtt" && "certificate" != "firmware_version"
    ensures "nfc" != "mqtt" && "nfc" != "firmware_version" && "mqtt" != "firmware_version"
  {
    assert |"network"| == 7 && |"certificate"| == 11 && |"nfc"| == 3 && |"mqtt"| == 4 && |"firmware_version"| == 16;
  }

  lemma SectionsRead(state: Doc)
    requires Sectioned(state)
    ensures HealthFromSections(state).Some? && ReadsAsSections(HealthFromSections(state).value, state)
  {
    NotCodes();
    CodesDiffer();
    SentKeysDiffer();
    SectionsReadAt(state, "network");
    SectionsReadAt(state, "certificate");
    SectionsReadAt(state, "nfc");
    SectionsReadAt(state, "mqtt");
    SectionsReadAt(state, "firmware_version");
    SectionsReadAt(state, "lock_current");
    SectionsReadAt(state, "lock_target");
    AbsentFromSections(state, "household_id");
    AbsentFromSections(state, "node_id");
    AbsentFromSections(state, "mqtt_error");
    AbsentFromSections(state, "backup");
    AbsentFromSections(state, "uptime");
    AbsentFromSections(state, "free_heap");
    AbsentFromSections(state, "reset_reason");
    AbsentFromSections(state, "security");
  }

  lemma SectionsSay(env: Env, doc: Doc, state: Doc, n: string, h: NodeHealth)
    requires ReadsAsSections(doc, state)
    ensures SaysHealth(env, doc, n, h) <==> SaysSections(state, h)
  {
  }

  lemma SectionsIff(env: Env, state: Doc, n: string, h: NodeHealth)
    requires Sectioned(state)
    ensures HealthFromSections(state).Some?
    ensures ParseHealth(env, JObj(HealthFromSections(state).value), n) == Ok(h) <==> SaysSections(state, h)
  {
    SectionsRead(state);
    HealthIff(env, JObj(HealthFromSections(state).value), n, h);
    SectionsSay(env, HealthFromSections(state).value, state, n, h);
  }

  // ---- the poll ----

  /** What a response says about its node's health, by either kind of firmware. */
  ghost predicate SaysPolled(env: Env, state: Doc, n: string, h: NodeHealth) {
    if Get(state, "health").JObj? then SaysEmbedded(env, SubDoc(state, "health"), n, h) else SaysSections(state, h)
  }

  /** Restating a response raises exactly when it has no health document and one of the sections is
      neither falsy nor an object, or when the result of its last authorisation cannot be looked up. */
  lemma RestatingRaisesIff(state: Doc, info: Doc, guest: Option<Json>, h: string, n: string)
    ensures Slots(state, info, guest, h, n).None?
       <==> || (!Get(state, "health").JObj? && !Sectioned(state))
            || (&& Get(state, "last_auth").JObj?
                && (Get(SubDoc(state, "last_auth"), "result").JList? || Get(SubDoc(state, "last_auth"),
                    "result").JObj?))
  {
    if !Get(state, "health").JObj? && Sectioned(state) {
      SectionsRead(state);
    }
  }

  lemma PolledHealthIff(env: Env, state: Doc, n: string, h: NodeHealth)
    requires HealthDocument(state).Some?
    ensures ParseHealth(env, JObj(HealthDocument(state).value), n) == Ok(h) <==> SaysPolled(env, state, n, h)
  {
    if Get(state, "health").JObj? {
      EmbeddedIff(env, SubDoc(state, "health"), n, h);
    } else {
      SectionsIff(env, state, n, h);
    }
  }

  lemma SlotReportsWhenSent(env: Env, state: Doc, info: Doc, guest: Option<Json>, n: string, k: nat)
    requires Slots(state, info, guest, env.household, n).Some? && k < SLOTS
    ensures var slot := SlotAt(state, info, guest, env.household, n, k);
            ReportsOf(env, Slots(state, info, guest, env.household, n).value, n)[k]
            == if slot.None? then None else ParseReport(env, SlotTopic(k), slot.value.payload, n).ToOption()
  {
  }

  lemma HealthSlotReports(env: Env, state: Doc, info: Doc, guest: Option<Json>, n: string)
    requires Slots(state, info, guest, env.household, n).Some?
    ensures HealthDocument(state).Some?
    ensures var r := ParseHealth(env, JObj(HealthDocument(state).value), n);
            ReportsOf(env, Slots(state, info, guest, env.household, n).value, n)[3] ==
                (if r.Ok? then Some(Snapshot(r.value)) else None)
  {
    SlotReportsWhenSent(env, state, info, guest, n, 3);
    assert SlotAt(state, info, guest, env.household, n, 3).Some?;
  }

  lemma PolledNode(env: Env, s: House, slots: seq<Option<Message>>, n: string, clock: nat -> Moment)
    requires PollSlots(env, slots, n) && n != ""
    ensures PollReports(ReportsOf(env, slots, n))
    ensures NodeOf(PollHouse(env, s, slots, clock, SLOTS), n)
         == Polled(env, NodeOf(s, n), ReportsOf(env, slots, n), clock)
  {
    ReportsArePollReports(env, slots, n);
    PollTracksNode(env, s, slots, clock, n, SLOTS);
    FoldIsPolled(env, NodeOf(s, n), ReportsOf(env, slots, n), clock);
  }

  lemma PolledSnapshot(env: Env, node: NodeRecord, rs: seq<Option<Report>>, clock: nat -> Moment)
    requires PollReports(rs)
    ensures rs[3].Some? ==> rs[3].value.Snapshot?
    ensures var p := Polled(env, node, rs, clock);
            if rs[3].Some? then p.health == Some(rs[3].value.health) &&
                ReadsAs(rs[3].value.health.lockCurrent, p.LockState())
            else p.health == node.health
  {
    assert rs[3].Some? ==> KindOf(rs[3].value, Health);
    FreshCodeReads(Polled(env, node, rs, clock));
  }

  /** Whatever the response, the health it says is stored, and decides the lock's state; a response
      that says none leaves the health as it was. */
  lemma PollTakesHealth(env: Env, s: House, state: Doc, info: Doc, guest: Option<Json>, n: string,
                        clock: nat -> Moment)
    requires Slots(state, info, guest, env.household, n).Some? && n != ""
    ensures var node := NodeOf(PollHouse(env, s, Slots(state, info, guest, env.household, n).value, clock, SLOTS), n);
            && (forall h :: SaysPolled(env, state, n, h) ==>
                  node.health == Some(h) && ReadsAs(h.lockCurrent, node.LockState()))
            && ((forall h :: !SaysPolled(env, state, n, h)) ==> node.health == NodeOf(s, n).health)
  {
    var slots := Slots(state, info, guest, env.household, n).value;
    var rs := ReportsOf(env, slots, n);
    SlotsArePollSlots(env, state, info, guest, n);
    PolledNode(env, s, slots, n, clock);
    PolledSnapshot(env, NodeOf(s, n), rs, clock);
    HealthSlotReports(env, state, info, guest, n);
    forall h ensures rs[3] == Some(Snapshot(h)) <==> SaysPolled(env, state, n, h) {
      PolledHealthIff(env, state, n, h);
    }
  }
}
