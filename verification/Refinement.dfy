/** The direct transport refines the message transport: a well-typed response of the household is
    taken whole, and the node it leaves is the one the response describes. */
module Refinement {
  import opened Json
  import opened Models
  import opened Payloads
  import opened Household
  import opened History
  import opened Direct
  import opened Polling
  import opened PolledHealth

  predicate TextField(doc: Doc, key: string) {
    Get(doc, key).JNull? || Get(doc, key).JStr?
  }

  predicate IdentityTyped(state: Doc, info: Doc) {
    && TextField(state, "node_name") && TextField(SubDoc(info, "device"), "node_name")
    && TextField(state, "node_role") && TextField(state, "node_state") && TextField(state, "firmware")
  }

  ghost predicate SaysSomeEvent(env: Env, state: Doc, n: string) {
    exists v :: SaysChange(env, SubDoc(state, "lock_last"), n, v)
  }

  ghost predicate SaysSomeAuth(env: Env, state: Doc, n: string) {
    exists v :: SaysAuth(env, SubDoc(state, "last_auth"), n, v)
  }

  ghost predicate SaysSomeHealth(env: Env, state: Doc, n: string) {
    HealthDocument(state).Some? && exists h :: SaysPolled(env, state, n, h)
  }

  /** A response of documented shape, for this household and this node. Anything may stand in fields
      the restatement filters. */
  ghost predicate WellTyped(env: Env, state: Doc, info: Doc, n: string) {
    && n != "" && env.household != "" && !AuthRaises(state)
    && IdentityTyped(state, info) && SaysSomeHealth(env, state, n)
    && (SendsLock(state) ==> SaysSomeEvent(env, state, n)) && (SendsAuth(state) ==> SaysSomeAuth(env, state, n))
  }

  function TextAt(doc: Doc, key: string): string {
    if Get(doc, key).JStr? then Get(doc, key).text else ""
  }

  function FirstOf(a: string, b: string): string {
    if a != "" then a else b
  }

  function IntOf(doc: Doc, key: string): Option<int> {
    if Get(doc, key).JInt? then Some(Get(doc, key).n) else None
  }

  lemma IdentityKeysDiffer()
    ensures "household_id" != "node_id" && "household_id" != "node_name" && "household_id" != "node_role" &&
        "household_id" != "node_state" && "household_id" != "generation" && "household_id" != "firmware_version"
    ensures "node_id" != "node_name" && "node_id" != "node_role" && "node_id" != "node_state" &&
        "node_id" != "generation" && "node_id" != "firmware_version"
    ensures "node_name" != "node_role" && "node_name" != "node_state" && "node_name" != "generation" &&
        "node_name" != "firmware_version"
    ensures "node_role" != "node_state" && "node_role" != "generation" && "node_role" != "firmware_version"
    ensures "node_state" != "generation" && "node_state" != "firmware_version"
    ensures "generation" != "firmware_version"
  {
    assert |"household_id"| == 12;
    assert |"node_id"| == 7;
    assert |"node_name"| == 9;
    assert |"node_role"| == 9;
    assert |"node_state"| == 10;
    assert |"generation"| == 10;
    assert |"firmware_version"| == 16;
    assert "node_name"[5] == 'n' && "node_role"[5] == 'r';
    assert "node_state"[0] == 'n' && "generation"[0] == 'g';
  }

  /** Reading one key of the identity document: the last field set under it wins. */
  lemma IdentityReadsAt(state: Doc, info: Doc, h: string, n: string, key: string)
    ensures var name := Or(Get(state, "node_name"), Get(SubDoc(info, "device"), "node_name"));
            Get(IdentityDocument(state, info, h, n), key) ==
            if Truthy(Get(state, "firmware")) && key == "firmware_version" then Get(state, "firmware")
            else if Get(state, "generation").JInt? && key == "generation" then Get(state, "generation")
            else if Truthy(Get(state, "node_state")) && key == "node_state" then Get(state, "node_state")
            else if Truthy(Get(state, "node_role")) && key == "node_role" then Get(state, "node_role")
            else if Truthy(name) && key == "node_name" then name
            else if key == "node_id" then JStr(n)
            else if key == "household_id" then JStr(h)
            else JNull
  {
    var name := Or(Get(state, "node_name"), Get(SubDoc(info, "device"), "node_name"));
    var d0 := map["household_id" := JStr(h), "node_id" := JStr(n)];
    var d1 := d0 + When(Truthy(name), "node_name", name);
    var d2 := d1 + When(Truthy(Get(state, "node_role")), "node_role", Get(state, "node_role"));
    var d3 := d2 + When(Truthy(Get(state, "node_state")), "node_state", Get(state, "node_state"));
    var d4 := d3 + When(Get(state, "generation").JInt?, "generation", Get(state, "generation"));
    GetWhen(d0, Truthy(name), "node_name", name, key);
    GetWhen(d1, Truthy(Get(state, "node_role")), "node_role", Get(state, "node_role"), key);
    GetWhen(d2, Truthy(Get(state, "node_state")), "node_state", Get(state, "node_state"), key);
    GetWhen(d3, Get(state, "generation").JInt?, "generation", Get(state, "generation"), key);
    GetWhen(d4, Truthy(Get(state, "firmware")), "firmware_version", Get(state, "firmware"), key);
  }

  /** `doc` reads as the identity document of this response. */
  predicate ReadsAsIdentity(doc: Doc, state: Doc, info: Doc, h: string, n: string) {
    && Get(doc, "household_id") == JStr(h) && Get(doc, "node_id") == JStr(n)
    && Get(doc, "node_name") == Given(Or(Get(state, "node_name"), Get(SubDoc(info, "device"), "node_name")))
    && Get(doc, "node_role") == Given(Get(state, "node_role")) && Get(doc, "node_state") ==
        Given(Get(state, "node_state"))
    && Get(doc, "generation") == IntJson(IntOf(state, "generation"))
    && Get(doc, "firmware_version") == Given(Get(state, "firmware"))
  }

  /** Reading the identity document back. */
  lemma IdentityReads(state: Doc, info: Doc, h: string, n: string)
    ensures ReadsAsIdentity(IdentityDocument(state, info, h, n), state, info, h, n)
  {
    IdentityKeysDiffer();
    IdentityReadsAt(state, info, h, n, "household_id");
    IdentityReadsAt(state, info, h, n, "node_id");
    IdentityReadsAt(state, info, h, n, "node_name");
    IdentityReadsAt(state, info, h, n, "node_role");
    IdentityReadsAt(state, info, h, n, "node_state");
    IdentityReadsAt(state, info, h, n, "generation");
    IdentityReadsAt(state, info, h, n, "firmware_version");
  }

  /** What the identity part of a response says, with the documented fallbacks. */
  function IdentityOf(state: Doc, info: Doc, n: string): NodeState {
    NodeState(FirstOf(TextAt(state, "node_name"), FirstOf(TextAt(SubDoc(info, "device"), "node_name"), n)),
              FirstOf(TextAt(state, "node_role"), "other"), FirstOf(TextAt(state, "node_state"), "UNKNOWN"),
              IntOf(state, "generation"),
              if TextAt(state, "firmware") != "" then Some(TextAt(state, "firmware")) else None)
  }

  lemma IdentitySays(env: Env, doc: Doc, state: Doc, info: Doc, n: string)
    requires n != "" && env.household != "" && IdentityTyped(state, info)
    requires ReadsAsIdentity(doc, state, info, env.household, n)
    ensures SaysState(env, doc, n, IdentityOf(state, info, n))
  {
  }

  lemma IdentityIsTaken(env: Env, state: Doc, info: Doc, n: string)
    requires n != "" && env.household != "" && IdentityTyped(state, info)
    ensures ParseState(env, JObj(IdentityDocument(state, info, env.household, n)), n) == Ok(IdentityOf(state, info, n))
  {
    var doc := IdentityDocument(state, info, env.household, n);
    IdentityReads(state, info, env.household, n);
    IdentitySays(env, doc, state, info, n);
    StateIff(env, JObj(doc), n, IdentityOf(state, info, n));
  }

  lemma WordsAreStripped()
    ensures Strip("OK") == "OK" && Strip("WARNING") == "WARNING" && Strip("ERROR") == "ERROR"
    ensures Strip("completed") == "completed" && Strip("failed") == "failed"
    ensures Lower("completed") == "completed" && Lower("failed") == "failed"
  {
  }

  lemma SecurityIsTaken(env: Env, state: Doc, n: string)
    requires SendsSecurity(state)
    ensures ParseReport(env, Security, Plain(state, "security"), n)
         == Ok(SecurityWas(SecurityOf(Get(state, "security").text).value))
  {
    WordsAreStripped();
    assert SecurityOf(Word(Plain(state, "security"))) == SecurityOf(Get(state, "security").text);
  }

  lemma BackupIsTaken(env: Env, state: Doc, n: string)
    requires SendsBackup(state)
    ensures ParseReport(env, BackupStatus, Plain(state, "backup_status"), n)
         == Ok(BackupWas(OutcomeOf(Get(state, "backup_status").text).value))
  {
    WordsAreStripped();
    assert OutcomeOf(Lower(Word(Plain(state, "backup_status")))) == OutcomeOf(Get(state, "backup_status").text);
  }

  lemma HealthIsTaken(env: Env, state: Doc, n: string)
    requires SaysSomeHealth(env, state, n)
    ensures HealthDocument(state).Some?
    ensures ParseHealth(env, JObj(HealthDocument(state).value), n).Ok?
    ensures SaysPolled(env, state, n, ParseHealth(env, JObj(HealthDocument(state).value), n).value)
  {
    var h :| SaysPolled(env, state, n, h);
    PolledHealthIff(env, state, n, h);
  }

  // ---- the optional topics ----

  lemma WordSlotsReport(env: Env, state: Doc, info: Doc, guest: Option<Json>, n: string)
    requires Slots(state, info, guest, env.household, n).Some?
    ensures var rs := ReportsOf(env, Slots(state, info, guest, env.household, n).value, n);
            && rs[4] == (if SendsSecurity(state) then Some(SecurityWas(SecurityOf(Get(state, "security").text).value))
                else None)
            && rs[5] == (if SendsBackup(state) then Some(BackupWas(OutcomeOf(Get(state, "backup_status").text).value))
                else None)
  {
    SlotReportsWhenSent(env, state, info, guest, n, 4);
    SlotReportsWhenSent(env, state, info, guest, n, 5);
    if SendsSecurity(state) {
      SecurityIsTaken(env, state, n);
    }
    if SendsBackup(state) {
      BackupIsTaken(env, state, n);
    }
  }

  /** The lock event a response offers, the authorisation and the guest document. */
  ghost predicate OffersEvent(env: Env, state: Doc, n: string, v: LockChange) {
    Get(state, "lock_last").JObj? && SaysChange(env, SubDoc(state, "lock_last"), n, v)
  }

  ghost predicate OffersAuth(env: Env, state: Doc, n: string, v: LastAuth) {
    Get(state, "last_auth").JObj? && SaysAuth(env, SubDoc(state, "last_auth"), n, v)
  }

  ghost predicate OffersGuest(guest: Option<Json>, v: GuestState) {
    guest.Some? && guest.value.JObj? && SaysGuest(guest.value.fields, v)
  }

  lemma SlotReportIff(env: Env, state: Doc, info: Doc, guest: Option<Json>, n: string, k: nat, r: Report)
    requires Slots(state, info, guest, env.household, n).Some? && k < SLOTS
    ensures var slot := SlotAt(state, info, guest, env.household, n, k);
            ReportsOf(env, Slots(state, info, guest, env.household, n).value, n)[k] == Some(r)
            <==> slot.Some? && Carries(env, SlotTopic(k), slot.value.payload, n, r)
  {
    SlotReportsWhenSent(env, state, info, guest, n, k);
    if SlotAt(state, info, guest, env.household, n, k).Some? {
      ReportIff(env, SlotTopic(k), SlotAt(state, info, guest, env.household, n, k).value.payload, n, r);
    }
  }

  /** The three slots that hold documents of the response. */
  lemma DocumentSlots(state: Doc, info: Doc, guest: Option<Json>, h: string, n: string)
    ensures SlotAt(state, info, guest, h, n, 1)
         == Slot(SendsLock(state), h, n, LockLast, Document(Get(state, "lock_last")))
    ensures SlotAt(state, info, guest, h, n, 6)
         == Slot(SendsAuth(state), h, n, LastAuthTopic, Document(Get(state, "last_auth")))
    ensures SlotAt(state, info, guest, h, n, 7)
         == Slot(guest.Some? && guest != Some(JNull), h, n, GuestStatus, Document(guest.GetOr(JNull)))
  {
  }

  lemma EventIsSent(env: Env, state: Doc, n: string, v: LockChange)
    ensures SendsLock(state) && Carries(env, LockLast, Document(Get(state, "lock_last")), n, Change(v))
       <==> OffersEvent(env, state, n, v)
  {
  }

  lemma AuthIsSent(env: Env, state: Doc, n: string, v: LastAuth)
    ensures SendsAuth(state) && Carries(env, LastAuthTopic, Document(Get(state, "last_auth")), n, Auth(v))
       <==> OffersAuth(env, state, n, v)
  {
    WordsAreRead(AuthWord(v.result));
  }

  lemma GuestIsSent(env: Env, guest: Option<Json>, n: string, v: GuestState)
    ensures && guest.Some? && guest != Some(JNull)
            && Carries(env, GuestStatus, Document(guest.GetOr(JNull)), n, Guest(v))
       <==> OffersGuest(guest, v)
  {
  }

  lemma EventSlotReports(env: Env, state: Doc, info: Doc, guest: Option<Json>, n: string, v: LockChange)
    requires Slots(state, info, guest, env.household, n).Some?
    ensures ReportsOf(env, Slots(state, info, guest, env.household, n).value, n)[1] == Some(Change(v))
       <==> OffersEvent(env, state, n, v)
  {
    SlotReportIff(env, state, info, guest, n, 1, Change(v));
    DocumentSlots(state, info, guest, env.household, n);
    EventIsSent(env, state, n, v);
  }

  lemma AuthSlotReports(env: Env, state: Doc, info: Doc, guest: Option<Json>, n: string, v: LastAuth)
    requires Slots(state, info, guest, env.household, n).Some?
    ensures ReportsOf(env, Slots(state, info, guest, env.household, n).value, n)[6] == Some(Auth(v))
       <==> OffersAuth(env, state, n, v)
  {
    SlotReportIff(env, state, info, guest, n, 6, Auth(v));
    DocumentSlots(state, info, guest, env.household, n);
    AuthIsSent(env, state, n, v);
  }

  lemma GuestSlotReports(env: Env, state: Doc, info: Doc, guest: Option<Json>, n: string, v: GuestState)
    requires Slots(state, info, guest, env.household, n).Some?
    ensures ReportsOf(env, Slots(state, info, guest, env.household, n).value, n)[7] == Some(Guest(v))
       <==> OffersGuest(guest, v)
  {
    SlotReportIff(env, state, info, guest, n, 7, Guest(v));
    DocumentSlots(state, info, guest, env.household, n);
    GuestIsSent(env, guest, n, v);
  }

  lemma SecuritySlotReports(env: Env, state: Doc, info: Doc, guest: Option<Json>, n: string, v: SecurityState)
    requires Slots(state, info, guest, env.household, n).Some?
    ensures ReportsOf(env, Slots(state, info, guest, env.household, n).value, n)[4] == Some(SecurityWas(v))
       <==> Get(state, "security") == JStr(SecurityWord(v))
  {
    WordSlotsReport(env, state, info, guest, n);
    if Get(state, "security").JStr? {
      WordsAreRead(Get(state, "security").text);
    }
  }

  lemma OutcomeSlotReports(env: Env, state: Doc, info: Doc, guest: Option<Json>, n: string, v: BackupOutcome)
    requires Slots(state, info, guest, env.household, n).Some?
    ensures ReportsOf(env, Slots(state, info, guest, env.household, n).value, n)[5] == Some(BackupWas(v))
       <==> Get(state, "backup_status") == JStr(OutcomeWord(v))
  {
    WordSlotsReport(env, state, info, guest, n);
    if Get(state, "backup_status").JStr? {
      WordsAreRead(Get(state, "backup_status").text);
    }
  }

  lemma PolledRest(env: Env, node: NodeRecord, rs: seq<Option<Report>>, clock: nat -> Moment)
    requires PollReports(rs)
    ensures var p := Polled(env, node, rs, clock);
            && p.lwtOnline == node.lwtOnline && p.backup == node.backup
            && p.security == (if rs[4].Some? then Some(rs[4].value.security) else node.security)
            && p.backupStatus == (if rs[5].Some? then Some(rs[5].value.outcome) else node.backupStatus)
            && p.lastAuth == (if rs[6].Some? then Some(rs[6].value.auth) else node.lastAuth)
            && p.lockChange == (if rs[1].Some? then Some(rs[1].value.change) else node.lockChange)
            && p.guest == (if rs[7].Some? then Some(rs[7].value.guest) else node.guest)
            && p.online && p.lastSeen == Some(clock(0).now)
            && (rs[4].Some? ==> rs[4].value.SecurityWas?) && (rs[5].Some? ==> rs[5].value.BackupWas?)
            && (rs[6].Some? ==> rs[6].value.Auth?) && (rs[1].Some? ==> rs[1].value.Change?)
            && (rs[7].Some? ==> rs[7].value.Guest?)
  {
    assert rs[4].Some? ==> KindOf(rs[4].value, Security);
    assert rs[5].Some? ==> KindOf(rs[5].value, BackupStatus);
    assert rs[6].Some? ==> KindOf(rs[6].value, LastAuthTopic);
    assert rs[7].Some? ==> KindOf(rs[7].value, GuestStatus);
    assert rs[1].Some? ==> KindOf(rs[1].value, LockLast);
    assert rs[2].Some? ==> KindOf(rs[2].value, State);
  }

  /** Whatever the response, each optional topic it offers is stored as offered, and what it does not
      offer stays as it was. */
  lemma PollSetsTheRest(env: Env, s: House, state: Doc, info: Doc, guest: Option<Json>, n: string,
                        clock: nat -> Moment)
    requires Slots(state, info, guest, env.household, n).Some? && n != ""
    ensures var slots := Slots(state, info, guest, env.household, n).value;
            var node, before := NodeOf(PollHouse(env, s, slots, clock, SLOTS), n), NodeOf(s, n);
            && node.online && node.lastSeen == Some(clock(0).now)
            && node.lwtOnline == before.lwtOnline && node.backup == before.backup
            && (forall v :: OffersEvent(env, state, n, v) ==> node.lockChange == Some(v))
            && ((forall v :: !OffersEvent(env, state, n, v)) ==> node.lockChange == before.lockChange)
            && (forall v :: OffersAuth(env, state, n, v) ==> node.lastAuth == Some(v))
            && ((forall v :: !OffersAuth(env, state, n, v)) ==> node.lastAuth == before.lastAuth)
            && (forall v :: OffersGuest(guest, v) ==> node.guest == Some(v))
            && ((forall v :: !OffersGuest(guest, v)) ==> node.guest == before.guest)
  {
    var slots := Slots(state, info, guest, env.household, n).value;
    var rs := ReportsOf(env, slots, n);
    SlotsArePollSlots(env, state, info, guest, n);
    PolledNode(env, s, slots, n, clock);
    PolledRest(env, NodeOf(s, n), rs, clock);
    forall v ensures rs[1] == Some(Change(v)) <==> OffersEvent(env, state, n, v) {
      EventSlotReports(env, state, info, guest, n, v);
    }
    forall v ensures rs[6] == Some(Auth(v)) <==> OffersAuth(env, state, n, v) {
      AuthSlotReports(env, state, info, guest, n, v);
    }
    forall v ensures rs[7] == Some(Guest(v)) <==> OffersGuest(guest, v) {
      GuestSlotReports(env, state, info, guest, n, v);
    }
  }

  /** The same for the two words. */
  lemma PollSetsTheWords(env: Env, s: House, state: Doc, info: Doc, guest: Option<Json>, n: string,
                         clock: nat -> Moment)
    requires Slots(state, info, guest, env.household, n).Some? && n != ""
    ensures var slots := Slots(state, info, guest, env.household, n).value;
            var node, before := NodeOf(PollHouse(env, s, slots, clock, SLOTS), n), NodeOf(s, n);
            && (forall v :: Get(state, "security") == JStr(SecurityWord(v)) ==> node.security == Some(v))
            && ((forall v :: Get(state, "security") != JStr(SecurityWord(v))) ==> node.security == before.security)
            && (forall v :: Get(state, "backup_status") == JStr(OutcomeWord(v)) ==> node.backupStatus == Some(v))
            && ((forall v :: Get(state, "backup_status") != JStr(OutcomeWord(v))) ==>
                  node.backupStatus == before.backupStatus)
  {
    var slots := Slots(state, info, guest, env.household, n).value;
    var rs := ReportsOf(env, slots, n);
    SlotsArePollSlots(env, state, info, guest, n);
    PolledNode(env, s, slots, n, clock);
    PolledRest(env, NodeOf(s, n), rs, clock);
    forall v ensures rs[4] == Some(SecurityWas(v)) <==> Get(state, "security") == JStr(SecurityWord(v)) {
      SecuritySlotReports(env, state, info, guest, n, v);
    }
    forall v ensures rs[5] == Some(BackupWas(v)) <==> Get(state, "backup_status") == JStr(OutcomeWord(v)) {
      OutcomeSlotReports(env, state, info, guest, n, v);
    }
  }

  // ---- a well-typed response ----

  lemma IdentitySlotReports(env: Env, state: Doc, info: Doc, guest: Option<Json>, n: string)
    requires Slots(state, info, guest, env.household, n).Some?
    ensures var r := ParseState(env, JObj(IdentityDocument(state, info, env.household, n)), n);
            ReportsOf(env, Slots(state, info, guest, env.household, n).value, n)[2] ==
                (if r.Ok? then Some(Identity(r.value)) else None)
  {
    SlotReportsWhenSent(env, state, info, guest, n, 2);
    assert SlotAt(state, info, guest, env.household, n, 2).Some?;
  }

  lemma EventIsTaken(env: Env, state: Doc, info: Doc, guest: Option<Json>, n: string)
    requires Slots(state, info, guest, env.household, n).Some? && SendsLock(state) && SaysSomeEvent(env, state, n)
    ensures ReportsOf(env, Slots(state, info, guest, env.household, n).value, n)[1].Some?
  {
    var v :| SaysChange(env, SubDoc(state, "lock_last"), n, v);
    EventSlotReports(env, state, info, guest, n, v);
  }

  lemma AuthIsTaken(env: Env, state: Doc, info: Doc, guest: Option<Json>, n: string)
    requires Slots(state, info, guest, env.household, n).Some? && SendsAuth(state) && SaysSomeAuth(env, state, n)
    ensures ReportsOf(env, Slots(state, info, guest, env.household, n).value, n)[6].Some?
  {
    var v :| SaysAuth(env, SubDoc(state, "last_auth"), n, v);
    AuthSlotReports(env, state, info, guest, n, v);
  }

  /** The slots sent only when the response offers something for them. */
  lemma WhenSent(state: Doc, info: Doc, guest: Option<Json>, h: string, n: string)
    ensures SlotAt(state, info, guest, h, n, 1).Some? <==> SendsLock(state)
    ensures SlotAt(state, info, guest, h, n, 4).Some? <==> SendsSecurity(state)
    ensures SlotAt(state, info, guest, h, n, 5).Some? <==> SendsBackup(state)
    ensures SlotAt(state, info, guest, h, n, 6).Some? <==> SendsAuth(state)
  {
  }

  lemma SlotIsTaken(env: Env, state: Doc, info: Doc, guest: Option<Json>, n: string, k: nat)
    requires WellTyped(env, state, info, n) && Slots(state, info, guest, env.household, n).Some?
    requires k < 7 && SlotAt(state, info, guest, env.household, n, k).Some?
    ensures ReportsOf(env, Slots(state, info, guest, env.household, n).value, n)[k].Some?
  {
    WhenSent(state, info, guest, env.household, n);
    match k
    case 0 =>
      SlotsArePollSlots(env, state, info, guest, n);
      ReportsArePollReports(env, Slots(state, info, guest, env.household, n).value, n);
    case 1 => EventIsTaken(env, state, info, guest, n);
    case 2 =>
      IdentityIsTaken(env, state, info, n);
      IdentitySlotReports(env, state, info, guest, n);
    case 3 =>
      HealthIsTaken(env, state, n);
      HealthSlotReports(env, state, info, guest, n);
    case 6 => AuthIsTaken(env, state, info, guest, n);
    case _ => WordSlotsReport(env, state, info, guest, n);
  }

  /** Every slot of a well-typed response but the guest document is accepted when sent. */
  lemma SlotsAreTaken(env: Env, state: Doc, info: Doc, guest: Option<Json>, n: string)
    requires WellTyped(env, state, info, n)
    ensures Slots(state, info, guest, env.household, n).Some?
    ensures var slots := Slots(state, info, guest, env.household, n).value;
            forall k :: 0 <= k < 7 && slots[k].Some? ==> ReportsOf(env, slots, n)[k].Some?
  {
    HealthIsTaken(env, state, n);
    var slots := Slots(state, info, guest, env.household, n).value;
    forall k | 0 <= k < 7 && slots[k].Some?
      ensures ReportsOf(env, slots, n)[k].Some?
    {
      SlotIsTaken(env, state, info, guest, n, k);
    }
  }

  /** Every message a well-typed response is restated as is accepted, and the node is left with
      the response's identity, its health without the not-reported sentinel, and a lock state
      decided by that health rather than by the lock event. */
  lemma WellTypedPollIsTakenWhole(env: Env, s: House, state: Doc, info: Doc, guest: Option<Json>, n: string,
                                  clock: nat -> Moment)
    requires WellTyped(env, state, info, n)
    ensures Slots(state, info, guest, env.household, n).Some?
    ensures var slots := Slots(state, info, guest, env.household, n).value;
            forall k :: 0 <= k < 7 && slots[k].Some? ==> Read(env, Delivery(slots[k].value, clock(k))).Accepted?
    ensures var t := PollHouse(env, s, Slots(state, info, guest, env.household, n).value, clock, SLOTS);
            n in t.nodes && t.nodes[n].online && t.nodes[n].lastSeen == Some(clock(0).now)
            && t.nodes[n].name == FirstOf(TextAt(state, "node_name"),
                FirstOf(TextAt(SubDoc(info, "device"), "node_name"), n))
            && t.nodes[n].role == FirstOf(TextAt(state, "node_role"), "other")
            && t.nodes[n].state == FirstOf(TextAt(state, "node_state"), "UNKNOWN")
            && t.nodes[n].generation
               == (if Get(state, "generation").JInt? then Some(Get(state, "generation").n) else NodeOf(s, n).generation)
            && t.nodes[n].firmware
               == (if TextAt(state, "firmware") != "" then Some(TextAt(state, "firmware")) else NodeOf(s, n).firmware)
            && t.nodes[n].health.Some? && SaysPolled(env, state, n, t.nodes[n].health.value)
            && ReadsAs(t.nodes[n].health.value.lockCurrent, t.nodes[n].LockState())
  {
    SlotsAreTaken(env, state, info, guest, n);
    var slots := Slots(state, info, guest, env.household, n).value;
    SlotsArePollSlots(env, state, info, guest, n);
    ReportsArePollReports(env, slots, n);
    forall k | 0 <= k < 7 && slots[k].Some?
      ensures Read(env, Delivery(slots[k].value, clock(k))).Accepted?
    {
      SlotArrives(env, slots, n, k, clock(k));
    }
    HealthIsTaken(env, state, n);
    IdentityIsTaken(env, state, info, n);
    IdentitySlotReports(env, state, info, guest, n);
    HealthSlotReports(env, state, info, guest, n);
    PollTracksNode(env, s, slots, clock, n, SLOTS);
    FoldIsPolled(env, NodeOf(s, n), ReportsOf(env, slots, n), clock);
    PolledShows(env, NodeOf(s, n), ReportsOf(env, slots, n), clock,
                ParseState(env, JObj(IdentityDocument(state, info, env.household, n)), n).value,
                ParseHealth(env, JObj(HealthDocument(state).value), n).value);
  }

  /** The fields a poll leaves when its identity and health were accepted. */
  lemma PolledShows(env: Env, node: NodeRecord, rs: seq<Option<Report>>, clock: nat -> Moment, id: NodeState,
      h: NodeHealth)
    requires PollReports(rs) && rs[2] == Some(Identity(id)) && rs[3] == Some(Snapshot(h))
    ensures var p := Polled(env, node, rs, clock);
            && p.online && p.lastSeen == Some(clock(0).now) && p.health == Some(h)
            && p.name == id.name && p.role == id.role && p.state == id.state
            && p.generation == (if id.generation.Some? then id.generation else node.generation)
            && p.firmware == (if id.firmware.Some? then id.firmware else node.firmware)
            && ReadsAs(h.lockCurrent, p.LockState())
  {
    FreshCodeReads(Polled(env, node, rs, clock));
  }
}
