/** What a delivery says, read off its payload: the words of the plain topics and the fields of the
    documents. A message is taken in exactly when it says something, and as what it says. */
module Payloads {
  import opened Json
  import opened Models

  // ---- words ----

  predicate Blank(s: string) {
    forall i :: 0 <= i < |s| ==> IsSpace(s[i])
  }

  /** Among ASCII characters the blanks are the space, tab to carriage return, and the four separators. */
  lemma AsciiBlanks(c: char)
    requires c as int < 128
    ensures IsSpace(c) <==> c == ' ' || '\t' <= c <= '\r' || 0x1C <= c as int <= 0x1F
  {
  }

  /** The word, with any of its letters capital. */
  predicate Spells(w: string, word: string) {
    && |w| == |word|
    && forall i :: 0 <= i < |w| ==>
         w[i] == word[i] || ('a' <= word[i] <= 'z' && w[i] as int == word[i] as int - 32)
  }

  /** The payload is this text, blanks around it aside. */
  ghost predicate Holds(p: Payload, w: string) {
    p.Text? && exists a, b :: Blank(a) && Blank(b) && p.text == a + w + b
  }

  /** The payload is this word in any case, blanks around it aside. */
  ghost predicate Says(p: Payload, word: string) {
    exists w :: Spells(w, word) && Holds(p, w)
  }

  lemma {:induction false} StripLeftDrops(a: string, s: string)
    requires Blank(a) && (s == "" || !IsSpace(s[0]))
    ensures StripLeft(a + s) == s
  {
    if a == "" {
      assert a + s == s;
    } else {
      assert (a + s)[1..] == a[1..] + s && (a + s)[0] == a[0];
      StripLeftDrops(a[1..], s);
    }
  }

  lemma {:induction false} StripRightDrops(s: string, b: string)
    requires Blank(b) && (s == "" || !IsSpace(s[|s| - 1]))
    ensures StripRight(s + b) == s
  {
    if b == "" {
      assert s + b == s;
    } else {
      var cut := |b| - 1;
      assert (s + b)[..|s + b| - 1] == s + b[..cut] && (s + b)[|s + b| - 1] == b[cut];
      StripRightDrops(s, b[..cut]);
    }
  }

  lemma {:induction false} StripLeftKeeps(s: string) returns (a: string)
    ensures Blank(a) && s == a + StripLeft(s)
  {
    a := "";
    if s != "" && IsSpace(s[0]) {
      var rest := StripLeftKeeps(s[1..]);
      a := [s[0]] + rest;
    }
  }

  lemma {:induction false} StripRightKeeps(s: string) returns (b: string)
    ensures Blank(b) && s == StripRight(s) + b
  {
    b := "";
    if s != "" && IsSpace(s[|s| - 1]) {
      var rest := StripRightKeeps(s[..|s| - 1]);
      b := rest + [s[|s| - 1]];
    }
  }

  predicate Visible(w: string) {
    w != "" && !IsSpace(w[0]) && !IsSpace(w[|w| - 1])
  }

  lemma StripFinds(a: string, w: string, b: string)
    requires Visible(w) && Blank(a) && Blank(b)
    ensures Strip(a + w + b) == w
  {
    assert a + w + b == a + (w + b);
    StripLeftDrops(a, w + b);
    StripRightDrops(w, b);
  }

  lemma StripKeeps(s: string) returns (a: string, b: string)
    ensures Blank(a) && Blank(b) && s == a + Strip(s) + b
  {
    a := StripLeftKeeps(s);
    b := StripRightKeeps(StripLeft(s));
  }

  /** Stripping finds what is between the blanks. */
  lemma HoldsIff(p: Payload, w: string)
    requires Visible(w)
    ensures Word(p) == w <==> Holds(p, w)
  {
    if p.Text? && Word(p) == w {
      var a, b := StripKeeps(p.text);
    } else if Holds(p, w) {
      var a, b :| Blank(a) && Blank(b) && p.text == a + w + b;
      StripFinds(a, w, b);
    }
  }

  predicate SmallLetters(word: string) {
    word != "" && forall i :: 0 <= i < |word| ==> 'a' <= word[i] <= 'z'
  }

  lemma LowerIff(w: string, word: string)
    requires SmallLetters(word)
    ensures Lower(w) == word <==> Spells(w, word)
  {
    if Spells(w, word) {
      assert Lower(w) == word;
    }
    if Lower(w) == word {
      forall i | 0 <= i < |w|
        ensures w[i] == word[i] || ('a' <= word[i] <= 'z' && w[i] as int == word[i] as int - 32)
      {
        assert Lower(w)[i] == word[i];
      }
    }
  }

  lemma SaysIff(p: Payload, word: string)
    requires SmallLetters(word)
    ensures Lower(Word(p)) == word <==> Says(p, word)
  {
    if Lower(Word(p)) == word {
      LowerIff(Word(p), word);
      HoldsIff(p, Word(p));
    }
    if Says(p, word) {
      var w :| Spells(w, word) && Holds(p, w);
      LowerIff(w, word);
      HoldsIff(p, w);
    }
  }

  // ---- the vocabulary ----

  function SourceWord(s: LockSource): string {
    match s
    case HomeKit => "homekit"
    case HomeKey => "homekey"
    case Mqtt => "mqtt"
    case Api => "api"
    case Device => "device"
    case UnknownSource => "unknown"
  }

  function SecurityWord(s: SecurityState): string {
    match s
    case SecurityOk => "OK"
    case SecurityWarning => "WARNING"
    case SecurityError => "ERROR"
  }

  function OutcomeWord(o: BackupOutcome): string {
    match o
    case Completed => "completed"
    case Failed => "failed"
  }

  function AuthWord(r: AuthResult): string {
    match r
    case Success => "SUCCESS"
    case Failure => "FAILURE"
  }

  lemma WordsAreRead(text: string)
    ensures forall s :: SourceOf(text) == Ok(s) <==> text == SourceWord(s)
    ensures forall s :: SecurityOf(text) == Ok(s) <==> text == SecurityWord(s)
    ensures forall o :: OutcomeOf(text) == Ok(o) <==> text == OutcomeWord(o)
    ensures forall r :: AuthResultOf(text) == Ok(r) <==> text == AuthWord(r)
  {
  }

  // ---- fields ----

  /** An identity field is absent, or names what the topic does. */
  predicate Agrees(doc: Doc, key: string, value: string) {
    key in doc ==> doc[key] == JStr(value) && value != ""
  }

  predicate HasText(doc: Doc, key: string, value: string) {
    Get(doc, key) == JStr(value) && value != ""
  }

  function TextJson(v: Option<string>): Json {
    if v.Some? then JStr(v.value) else JNull
  }

  function IntJson(v: Option<int>): Json {
    if v.Some? then JInt(v.value) else JNull
  }

  function BoolJson(v: Option<bool>): Json {
    if v.Some? then JBool(v.value) else JNull
  }

  /** A text field with a default, which an empty text takes as well. */
  predicate TextOr(j: Json, default: string, v: string) {
    (j == JStr(v) && v != "") || ((j == JNull || j == JStr("")) && v == default)
  }

  predicate IntOrZero(j: Json, v: int) {
    j == JInt(v) || (j == JNull && v == 0)
  }

  /** A boolean field with a default. */
  predicate BoolOr(j: Json, default: bool, v: bool) {
    j == JBool(v) || (j == JNull && v == default)
  }

  /** A time: none, a text kept as it is, or epoch seconds the calendar can render. */
  predicate StampIs(env: Env, j: Json, v: Option<string>) {
    match j
    case JNull => v == None
    case JStr(text) => v == Some(text)
    case JInt(n) => v.Some? && v == env.iso(n as real)
    case JFloat(r) => v.Some? && v == env.iso(r)
    case _ => false
  }

  // ---- documents ----

  predicate SaysState(env: Env, doc: Doc, n: string, v: NodeState) {
    && HasText(doc, "household_id", env.household) && HasText(doc, "node_id", n)
    && TextOr(Get(doc, "node_name"), n, v.name) && TextOr(Get(doc, "node_role"), "other", v.role)
    && TextOr(Get(doc, "node_state"), "UNKNOWN", v.state)
    && Get(doc, "generation") == IntJson(v.generation) && Get(doc, "firmware_version") == TextJson(v.firmware)
  }

  predicate SaysHealth(env: Env, doc: Doc, n: string, v: NodeHealth) {
    var security := SubDoc(doc, "security");
    && Agrees(doc, "household_id", env.household) && Agrees(doc, "node_id", n)
    && TextOr(Get(doc, "network"), "UNKNOWN", v.network) && HasText(doc, "mqtt", v.mqtt)
    && TextOr(Get(doc, "nfc"), "unknown", v.nfc) && TextOr(Get(doc, "certificate"), "unknown", v.certificate)
    && Get(doc, "mqtt_error") == IntJson(v.mqttError)
    && Get(doc, "lock_current") == IntJson(v.lockCurrent) && Get(doc, "lock_target") == IntJson(v.lockTarget)
    && Get(doc, "backup") == TextJson(v.backup) && Get(doc, "firmware_version") == TextJson(v.firmware)
    && Get(doc, "uptime") == IntJson(v.uptime) && Get(doc, "free_heap") == IntJson(v.freeHeap)
    && Get(doc, "reset_reason") == TextJson(v.resetReason)
    && (Get(doc, "security").JNull? || Get(doc, "security").JObj?)
    && Get(security, "all_ok") == BoolJson(v.securityAllOk) && Get(security, "warnings") == TextJson(v.securityWarnings)
  }

  predicate SaysChange(env: Env, doc: Doc, n: string, v: LockChange) {
    && Agrees(doc, "household_id", env.household) && Agrees(doc, "node_id", n)
    && Get(doc, "current") == JInt(v.current) && Get(doc, "source") == JStr(SourceWord(v.source))
    && Get(doc, "target") == IntJson(v.target) && StampIs(env, Get(doc, "timestamp"), v.timestamp)
  }

  predicate SaysAuth(env: Env, doc: Doc, n: string, v: LastAuth) {
    && Agrees(doc, "household_id", env.household) && Agrees(doc, "node_id", n)
    && Get(doc, "result") == JStr(AuthWord(v.result)) && TextOr(Get(doc, "type"), "HomeKey", v.authType)
    && StampIs(env, Get(doc, "timestamp"), v.timestamp) && Get(doc, "issuer") == TextJson(v.issuer)
  }

  predicate SaysBackup(env: Env, doc: Doc, n: string, v: BackupRecord) {
    && Agrees(doc, "household_id", env.household) && Agrees(doc, "node_id", n)
    && Get(doc, "status") == JStr(OutcomeWord(v.status)) && StampIs(env, Get(doc, "timestamp"), v.timestamp)
  }

  predicate SaysTag(j: Json, v: GuestTag) {
    && j.JObj? && HasText(j.fields, "tag_id", v.tagId)
    && TextOr(Get(j.fields, "uid"), "", v.uid) && TextOr(Get(j.fields, "label"), "", v.title)
    && BoolOr(Get(j.fields, "enabled"), true, v.enabled)
    && IntOrZero(Get(j.fields, "valid_from"), v.validFrom) && IntOrZero(Get(j.fields, "valid_until"), v.validUntil)
    && IntOrZero(Get(j.fields, "last_used_at"), v.lastUsedAt) && IntOrZero(Get(j.fields, "use_count"), v.useCount)
  }

  predicate SaysTags(items: seq<Json>, v: seq<GuestTag>) {
    |items| == |v| && forall i :: 0 <= i < |v| ==> SaysTag(items[i], v[i])
  }

  predicate SaysGuest(doc: Doc, v: GuestState) {
    var write := SubDoc(doc, "write");
    && (Get(doc, "tags").JNull? || Get(doc, "tags").JList?)
    && SaysTags(if Get(doc, "tags").JList? then Get(doc, "tags").items else [], v.tags)
    && BoolOr(Get(doc, "enabled"), false, v.enabled) && BoolOr(Get(write, "armed"), false, v.writeArmed)
    && IntOrZero(Get(doc, "default_validity_seconds"), v.defaultValidity)
    && IntOrZero(Get(doc, "capacity"), v.capacity) && IntOrZero(Get(doc, "count"), v.count)
    && IntOrZero(Get(doc, "wall_clock"), v.wallClock) && Get(write, "can_write") == BoolJson(v.canWrite)
    && Get(write, "last_result") == TextJson(v.lastWriteResult)
    && Get(write, "last_message") == TextJson(v.lastWriteMessage)
  }

  // ---- they are read as what they say ----

  lemma TextIff(doc: Doc, key: string, v: Option<string>)
    ensures OptionalStr(doc, key) == Ok(v) <==> Get(doc, key) == TextJson(v)
  {
  }

  lemma IntIff(doc: Doc, key: string, v: Option<int>)
    ensures OptionalInt(doc, key) == Ok(v) <==> Get(doc, key) == IntJson(v)
  {
  }

  lemma BoolIff(doc: Doc, key: string, v: Option<bool>)
    ensures OptionalBool(doc, key) == Ok(v) <==> Get(doc, key) == BoolJson(v)
  {
  }

  lemma TextOrIff(doc: Doc, key: string, default: string, v: string)
    ensures OptionalStr(doc, key).Ok? && OrText(OptionalStr(doc, key).value, default) == v
       <==> TextOr(Get(doc, key), default, v)
  {
  }

  lemma IntOrZeroIff(doc: Doc, key: string, v: int)
    ensures OptionalInt(doc, key).Ok? && OptionalInt(doc, key).value.GetOr(0) == v <==> IntOrZero(Get(doc, key), v)
  {
  }

  lemma OnIff(doc: Doc, key: string, v: bool)
    ensures OptionalBool(doc, key).Ok? && (OptionalBool(doc, key).value == Some(true)) == v
       <==> BoolOr(Get(doc, key), false, v)
  {
  }

  lemma HasTextIff(doc: Doc, key: string, v: string)
    ensures RequireStr(doc, key) == Ok(v) <==> HasText(doc, key, v)
  {
  }

  lemma IdentityIff(env: Env, doc: Doc, n: string)
    ensures IdentityOk(env, doc, n) <==> Agrees(doc, "household_id", env.household) && Agrees(doc, "node_id", n)
  {
  }

  lemma StateIff(env: Env, j: Json, n: string, v: NodeState)
    ensures ParseState(env, j, n) == Ok(v) <==> j.JObj? && SaysState(env, j.fields, n, v)
  {
    if j.JObj? {
      var doc := j.fields;
      HasTextIff(doc, "household_id", env.household);
      HasTextIff(doc, "node_id", n);
      TextOrIff(doc, "node_name", n, v.name);
      TextOrIff(doc, "node_role", "other", v.role);
      TextOrIff(doc, "node_state", "UNKNOWN", v.state);
      IntIff(doc, "generation", v.generation);
      TextIff(doc, "firmware_version", v.firmware);
    }
  }

  lemma HealthIff(env: Env, j: Json, n: string, v: NodeHealth)
    ensures ParseHealth(env, j, n) == Ok(v) <==> j.JObj? && SaysHealth(env, j.fields, n, v)
  {
    if j.JObj? {
      var doc, security := j.fields, SubDoc(j.fields, "security");
      IdentityIff(env, doc, n);
      HasTextIff(doc, "mqtt", v.mqtt);
      TextOrIff(doc, "network", "UNKNOWN", v.network);
      TextOrIff(doc, "nfc", "unknown", v.nfc);
      TextOrIff(doc, "certificate", "unknown", v.certificate);
      IntIff(doc, "mqtt_error", v.mqttError);
      IntIff(doc, "lock_current", v.lockCurrent);
      IntIff(doc, "lock_target", v.lockTarget);
      TextIff(doc, "backup", v.backup);
      TextIff(doc, "firmware_version", v.firmware);
      IntIff(doc, "uptime", v.uptime);
      IntIff(doc, "free_heap", v.freeHeap);
      TextIff(doc, "reset_reason", v.resetReason);
      BoolIff(security, "all_ok", v.securityAllOk);
      TextIff(security, "warnings", v.securityWarnings);
    }
  }

  lemma ChangeIff(env: Env, j: Json, n: string, v: LockChange)
    ensures ParseChange(env, j, n) == Ok(v) <==> j.JObj? && SaysChange(env, j.fields, n, v)
  {
    if j.JObj? && Get(j.fields, "source").JStr? {
      WordsAreRead(Get(j.fields, "source").text);
    }
  }

  lemma AuthIff(env: Env, j: Json, n: string, v: LastAuth)
    ensures ParseAuth(env, j, n) == Ok(v) <==> j.JObj? && SaysAuth(env, j.fields, n, v)
  {
    if j.JObj? && Get(j.fields, "result").JStr? {
      WordsAreRead(Get(j.fields, "result").text);
    }
  }

  lemma BackupIff(env: Env, j: Json, n: string, v: BackupRecord)
    ensures ParseBackup(env, j, n) == Ok(v) <==> j.JObj? && SaysBackup(env, j.fields, n, v)
  {
    if j.JObj? && Get(j.fields, "status").JStr? {
      WordsAreRead(Get(j.fields, "status").text);
    }
  }

  lemma TagIff(j: Json, v: GuestTag)
    ensures ParseTag(j) == Ok(v) <==> SaysTag(j, v)
  {
  }

  lemma {:induction false} TagsIff(items: seq<Json>, v: seq<GuestTag>)
    ensures ParseTags(items) == Ok(v) <==> SaysTags(items, v)
  {
    if items != [] && v != [] {
      TagIff(items[0], v[0]);
      TagsIff(items[1..], v[1..]);
      assert v == [v[0]] + v[1..];
    }
  }

  lemma GuestIff(j: Json, v: GuestState)
    ensures ParseGuest(j) == Ok(v) <==> j.JObj? && SaysGuest(j.fields, v)
  {
    if j.JObj? {
      var doc, write := j.fields, SubDoc(j.fields, "write");
      TagsIff(if Get(doc, "tags").JList? then Get(doc, "tags").items else [], v.tags);
      OnIff(doc, "enabled", v.enabled);
      OnIff(write, "armed", v.writeArmed);
      IntOrZeroIff(doc, "default_validity_seconds", v.defaultValidity);
      IntOrZeroIff(doc, "capacity", v.capacity);
      IntOrZeroIff(doc, "count", v.count);
      IntOrZeroIff(doc, "wall_clock", v.wallClock);
      BoolIff(write, "can_write", v.canWrite);
      TextIff(write, "last_result", v.lastWriteResult);
      TextIff(write, "last_message", v.lastWriteMessage);
    }
  }

  // ---- messages ----

  /** What a payload on a subtopic says about node `n`, word by word and field by field. */
  ghost predicate Carries(env: Env, t: Subtopic, p: Payload, n: string, r: Report) {
    match r
    case Online(up) => t.Status? && Says(p, if up then "online" else "offline")
    case Will(alive) => t.LegacyStatus? && Says(p, if alive then "online" else "offline")
    case SecurityWas(v) => t.Security? && Holds(p, SecurityWord(v))
    case BackupWas(v) => t.BackupStatus? && Says(p, OutcomeWord(v))
    case Identity(v) => t.State? && p.Document? && p.json.JObj? && SaysState(env, p.json.fields, n, v)
    case Snapshot(v) => t.Health? && p.Document? && p.json.JObj? && SaysHealth(env, p.json.fields, n, v)
    case Change(v) => t.LockLast? && p.Document? && p.json.JObj? && SaysChange(env, p.json.fields, n, v)
    case Backup(v) => t.BackupLast? && p.Document? && p.json.JObj? && SaysBackup(env, p.json.fields, n, v)
    case Auth(v) => t.LastAuthTopic? && p.Document? && p.json.JObj? && SaysAuth(env, p.json.fields, n, v)
    case Guest(v) => t.GuestStatus? && p.Document? && p.json.JObj? && SaysGuest(p.json.fields, v)
  }

  lemma OnlineIff(p: Payload, up: bool)
    ensures ParseOnline(p) == Ok(up) <==> Says(p, if up then "online" else "offline")
  {
    SaysIff(p, if up then "online" else "offline");
  }

  lemma SecurityIff(p: Payload, v: SecurityState)
    ensures SecurityOf(Word(p)) == Ok(v) <==> Holds(p, SecurityWord(v))
  {
    WordsAreRead(Word(p));
    HoldsIff(p, SecurityWord(v));
  }

  lemma OutcomeIff(p: Payload, v: BackupOutcome)
    ensures OutcomeOf(Lower(Word(p))) == Ok(v) <==> Says(p, OutcomeWord(v))
  {
    WordsAreRead(Lower(Word(p)));
    SaysIff(p, OutcomeWord(v));
  }

  lemma WordIsReadIff(env: Env, t: Subtopic, p: Payload, n: string, r: Report)
    requires !t.Other? && (r.Online? || r.Will? || r.SecurityWas? || r.BackupWas?)
    ensures ParseReport(env, t, p, n) == Ok(r) <==> Carries(env, t, p, n, r)
  {
    match r
    case Online(up) => OnlineIff(p, up);
    case Will(alive) => OnlineIff(p, alive);
    case SecurityWas(v) => SecurityIff(p, v);
    case BackupWas(v) => OutcomeIff(p, v);
  }

  lemma DocumentIsReadIff(env: Env, t: Subtopic, p: Payload, n: string, r: Report)
    requires !t.Other? && p.Document? && !(r.Online? || r.Will? || r.SecurityWas? || r.BackupWas?)
    ensures ParseReport(env, t, p, n) == Ok(r) <==> Carries(env, t, p, n, r)
  {
    match r
    case Identity(v) => StateIff(env, p.json, n, v);
    case Snapshot(v) => HealthIff(env, p.json, n, v);
    case Change(v) => ChangeIff(env, p.json, n, v);
    case Backup(v) => BackupIff(env, p.json, n, v);
    case Auth(v) => AuthIff(env, p.json, n, v);
    case Guest(v) => GuestIff(p.json, v);
  }

  lemma ReportIff(env: Env, t: Subtopic, p: Payload, n: string, r: Report)
    requires !t.Other?
    ensures ParseReport(env, t, p, n) == Ok(r) <==> Carries(env, t, p, n, r)
  {
    if r.Online? || r.Will? || r.SecurityWas? || r.BackupWas? {
      WordIsReadIff(env, t, p, n, r);
    } else if p.Document? {
      DocumentIsReadIff(env, t, p, n, r);
    }
  }

  /** A delivery is accepted exactly when it is of this household, about a node, and says something;
      and it is accepted as what it says. */
  lemma DeliveryReadsIff(env: Env, d: Delivery, n: string, r: Report)
    ensures Read(env, d) == Accepted(n, r, d.at)
       <==> && d.message.household == env.household && d.message.node == Some(n) && n != ""
            && Carries(env, d.message.subtopic, d.message.payload, n, r)
  {
    if !d.message.subtopic.Other? {
      ReportIff(env, d.message.subtopic, d.message.payload, n, r);
    }
  }
}
