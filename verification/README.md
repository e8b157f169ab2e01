# HomeKey Household: a verified model

HomeKey Household is a Home Assistant integration for door locks. Nodes report over MQTT, or are
polled over their own API; a coordinator merges their reports into one registry, explains lock
changes in the activity log, and pushes the result to entities. Lock commands go out as
HMAC-authenticated messages that the node's firmware checks against a clock window and a bounded
replay window. This project models that behaviour in Dafny and proves what holds over every
message sequence, poll sequence and command sequence.

`dafny verify dfyconfig.toml` checks everything.

## How it is laid out

- `Json.dfy`, `Models.dfy`: JSON values, the documents of the household contract with their
  validators, and `Read`, which says what a delivered message amounts to. `Payloads.dfy`: the same
  said from the payload, word by word and field by field.
- `Household.dfy`: the coordinator as a step machine over what is read. A household is its
  registry, the reload pool, the pending causes, the log, the notifications and a context counter.
- `Coordinator.dfy`: the coordinator as the source has it - node objects updated field by field, a
  registry and a pool that share them, one handler per topic - each method proved against the
  step machine.
- `History.dfy`, `Attribution.dfy`, `Isolation.dfy`, `Invariants.dfy`, `Refusals.dfy`, `Readings.dfy`:
  whole runs. What a node record is, what the log says, that nodes do not interfere, what every step
  keeps, what rejected messages change, and what delivered payloads come to.
- `Direct.dfy`, `Polling.dfy`, `Naming.dfy`, `PolledHealth.dfy`, `Refinement.dfy`, `Poller.dfy`,
  `DirectPoller.dfy`: the direct transport, which restates a polled response as the messages MQTT would
  have delivered, whom it names, what it says, and its failure streaks.
- `Canonical.dfy`, `Commands.dfy`, `Firmware.dfy`, `Session.dfy`: the command protocol, its client,
  its verifier, and the two together over an at-least-once transport (QoS 1, section 4.3.2 of MQTT
  Version 5.0).
- `Topics.dfy`: topic building, parsing and the gate for inbound messages.
- `Backup.dfy`: the backup store, its window, its persistence and the copy a restore picks.
- `Confirm.dfy`, `Discovery.dfy`: waiting for a command to show, and adding entities for new nodes.
- `Lists.dfy`: two notions several components share.

## What stands for the outside world

- A payload is a text or a decoded JSON document; the JSON text encoding is not modelled. A message
  carries the clock reading at the moment it is handled, and where explaining a lock change raises
  just then, if it does: before a context and a key are set, or in the logbook.
- The calendar (rendering and parsing dates) and Python's `str()` are functions in `Env`. The
  theorems hold for any choice of them. Reading a date has three outcomes: no date, which counts as
  recent; a time; and an impossible date, on which the reader raises - the explanation is then
  swallowed, so such an event is not announced.
- The keyed hash is a parameter; what a theorem needs of it is in its `requires` (ASCII digests, or
  that one command's two texts do not collide). Key bytes are a parameter, because the client and
  the verifier derive them differently from hex text.
- Random draws, request ids, sleeping and the monotonic clock are parameters.
- `_dispatch` has no suspension point, so each message is one step.
- `House.contexts`, `Notice.about`, `Cause.via` and `offlineSent` are bookkeeping of the model.

## Where code and documentation differ

The model follows the code.

- `_WALL_CLOCK_FLOOR` is 2001-09-09T00:00:00Z, that is 999993600, although its comment says 1e9
  seconds (custom_components/homekey_household/coordinator.py:67-70).
- Health and lock/last register their node before validating (265-267, 288-289); other topics do not.
- "The same event must not be announced as news twice" (506-507) does not hold. The event path
  remembers one event only (505, 516), so two events delivered in turn are announced every time:
  `Attribution.AlternatingEventsRepeat`, and `Attribution.EventRepeatedIffOtherNews` for the exact
  condition. The snapshot fallback records nothing of what it announces (484-488), so it repeats an
  event too old to be news: `Attribution.FallbackRepeatsStaleEvents`, and
  `Attribution.FallbackSilencedIffEventAnnounced` for the exact condition.
- The nonce tracker's documentation says it retains two windows; once full it goes round from one
  window plus one to two windows, and holds two exactly when the number of nonces remembered is a
  multiple of the window (`Commands.RecallIsRecent`, `Commands.TwoWindowsIff`,
  custom_components/homekey_household/command.py:161-179). One tracker serves every node of the
  household (custom_components/homekey_household/mqtt.py:235), while each node has a window of its own,
  so beyond a bound it can reuse a nonce a node still remembers:
  `Session.CoversIff`, `Session.CoveredWhenRecent` and `Session.SharedTrackerForgets`.
- A tap is to be named after the person, not the mechanism
  (custom_components/homekey_household/coordinator.py:522-531). In a direct poll lock/last is delivered
  before last_auth (custom_components/homekey_household/direct.py:307-317, 385-395), so the name comes
  from what the node had reported before the poll: a tap whose authorisation arrives in the same
  response is logged with its mechanism, and stays so however often the response is repeated. See
  `Naming.PollNamesIff` for the exact condition, `Naming.TapInOneResponseIsUnnamed` and
  `Naming.TapStaysUnnamed`.
- Pruning goes by node id alone, so a node that moved to another household can push the newest backup
  of the old one out (`Backup.RestoreUsesNewestIff`, `Backup.MovedNodeLosesOld`). It removes by object
  identity, and records with an empty node id are stored but not loaded
  (custom_components/homekey_household/backup.py:105, 185-190).
- Unloading an entry drops the pool (custom_components/homekey_household/__init__.py:304), so pooled
  state outlives a coordinator only when another is built without an unload.

## Model

| member | source | states |
|---|---|---|
| `Coordinator.Coordinator.HandleMessage` | custom_components/homekey_household/coordinator.py:223-334 | handling one message in place takes the household, its log, notices, contexts and pool to exactly the next state of the step machine for what the message reads as (`Payloads.DeliveryReadsIff` says what that is), keeps every node object already registered and keeps the pool sharing the registry's nodes |
| `Coordinator.Coordinator.Accept` | custom_components/homekey_household/coordinator.py:326-334 | an accepted report is merged, pooled, announced to the listeners, and the causes are dropped |
| `Coordinator.Coordinator.DispatchLock` | custom_components/homekey_household/coordinator.py:264-300 | health and lock/last register their node before they validate, and a rejection leaves at most that default node |
| `Coordinator.Coordinator.AttributeLockChange` | custom_components/homekey_household/coordinator.py:448-488 | the snapshot path attaches a cause and a log entry exactly in the fallback's case, unless it raises first, and never marks the event as announced |
| `Coordinator.Coordinator.AttributeLockEvent` | custom_components/homekey_household/coordinator.py:490-519 | the event path attaches a cause exactly for a device-initiated, recent event that is not the one last announced, unless it raises first, and records it (`Attribution.EventAnnouncedExactlyWhenNew` says what that comes to) |
| `Coordinator.Coordinator.MergeNode` | custom_components/homekey_household/coordinator.py:364-380 | a state document replaces name, role and state, keeps generation and firmware when it carries none, and leaves every other field alone |
| `Coordinator.Coordinator.HandleLegacyStatus` | custom_components/homekey_household/coordinator.py:412-429 | a will changes a registered node only and never registers one |
| `Payloads.DeliveryReadsIff` | custom_components/homekey_household/coordinator.py:223-334 | a delivery is accepted iff it is of the household, names a node and its payload says something on its subtopic - and then as exactly what it says: a word in any case between any blanks, or a document field by field |
| `Payloads.SaysIff` | custom_components/homekey_household/coordinator.py:403-446 | stripping and lower-casing find a word of small letters iff the payload is that word in any case, with blanks around it |
| `Payloads.StateIff` | custom_components/homekey_household/models.py:217-267 | a state document is taken iff it names this household and node and its optional fields have their types, and reads back with the documented defaults |
| `Payloads.HealthIff` | custom_components/homekey_household/models.py:295-328 | a health document is taken iff it does not contradict the topic, has a broker state and its optional fields have their types; all fourteen fields read back |
| `Payloads.ChangeIff` | custom_components/homekey_household/models.py:411-435 | a lock event is taken iff it has a code, one of the six source words and a readable stamp; code, source, target and stamp read back |
| `Payloads.AuthIff` | custom_components/homekey_household/models.py:380-396 | an authorisation is taken iff it has one of the two result words; type, issuer and stamp read back |
| `Payloads.BackupIff` | custom_components/homekey_household/models.py:349-363 | a backup record is taken iff it has one of the two outcome words; the stamp reads back |
| `Payloads.GuestIff` | custom_components/homekey_household/models.py:481-561 | a guest document is taken iff all its tags and fields have their types; every field of every tag reads back in order |
| `Readings.WillIsTaken` | custom_components/homekey_household/coordinator.py:412-429 | one delivered will: saying "offline" it makes a registered node unavailable, saying "online" it is a sign of life at that moment, anything else or another node changes no node |
| `Readings.AvailableIffLastSaid` | custom_components/homekey_household/models.py:632-643 | over any deliveries a node is available iff the last status delivered for it said "online", and so did the last will delivered for it since it was registered, if any |
| `History.HistoryDeterminesNodes` | custom_components/homekey_household/coordinator.py:245-334 | after every message sequence a node is registered iff some message registered it, and each of its fields is the content of the last accepted message carrying it (wills count from registration on) |
| `History.LatestIsLast` | custom_components/homekey_household/coordinator.py:245-334 | the history lookup used above is found at a position after which nothing of its kind was accepted |
| `History.LockStateIsLatestReading` | custom_components/homekey_household/models.py:616-630 | the lock state is what the code of the latest accepted message among lock/last and health says: 0 unlocked, 1 locked, 2 jammed, 4 unlocking, 5 locking, anything else or none unknown |
| `Readings.LockStateIsLastCode` | custom_components/homekey_household/const.py:393-402 | the same over deliveries: it is what the `current` of the last lock event or the `lock_current` of the last health document says, whichever was delivered last |
| `History.AvailableIffLastWords` | custom_components/homekey_household/models.py:632-643 | a node is available iff its last status word was online and its last will, if any, was not offline |
| `History.DeliveriesDetermineNodes` | custom_components/homekey_household/coordinator.py:223-334 | the same for raw deliveries, including those that are ignored or rejected |
| `Attribution.LogTellsTheStory` | custom_components/homekey_household/coordinator.py:448-519 | the log of every run is exactly the list of causes its message history calls for, in order |
| `Attribution.EventAnnouncedExactlyWhenNew` | custom_components/homekey_household/coordinator.py:490-519 | the event path announces exactly the events from HomeKit, a HomeKey or the device that are at most 300 s old, undated, or dated before 2001-09-09, and that differ from the last one it announced for the node in the stamp, the code or the source, unless explaining them raises first |
| `Readings.TwoEventsAreLoggedIff` | custom_components/homekey_household/models.py:608-614 | of two lock events delivered in turn, both worth telling, both are logged iff they differ in the stamp, the code or the source |
| `Attribution.AnnouncedKeyIsNotRepeated` | custom_components/homekey_household/coordinator.py:472-478 | an announced event is never announced again by a snapshot until another event comes in, however often copies of it are delivered meanwhile |
| `Attribution.AnnouncedEventIsNotRepeated` | custom_components/homekey_household/coordinator.py:472-478 | in particular while it is the node's latest event |
| `Attribution.FallbackSilencedIffEventAnnounced` | custom_components/homekey_household/coordinator.py:461-488 | a snapshot that returns to the latest event's state from another known reading announces it iff it is device-initiated, the event path has not announced it, and explaining it does not raise first |
| `Attribution.FallbackSitsAtRealChange` | custom_components/homekey_household/coordinator.py:461-488 | every snapshot announcement lies at a change between two known readings, and names the latest event, which reached the new reading |
| `Attribution.PersonWasAuthorised` | custom_components/homekey_household/coordinator.py:522-540 | every person named was carried by the node's latest earlier authorisation, stamped as the event it explains |
| `Attribution.EventRepeatedIffOtherNews` | custom_components/homekey_household/coordinator.py:503-516 | after announcing an event, a later report of it that is news, with no announcement of it in between, is announced iff some message since carried news of another event of the node |
| `Attribution.AlternatingEventsRepeat` | custom_components/homekey_household/coordinator.py:505-516 | two recent events delivered in turn, A, B, A, are announced all three times: the event path remembers one event |
| `Attribution.FallbackRepeatsStaleEvents` | custom_components/homekey_household/coordinator.py:484-488 | an event too old to be news is announced by the fallback once per return to its state |
| `Attribution.StaleEventExists` | custom_components/homekey_household/coordinator.py:73-98 | there are such events: one dated years before it is delivered is not recent |
| `Isolation.NonInterference` | custom_components/homekey_household/coordinator.py:223-334 | a node's record and log entries after any run are those of the run restricted to messages naming that node and this household |
| `Isolation.InterleavingIsIrrelevant` | custom_components/homekey_household/coordinator.py:223-334 | runs that agree, node by node, on the messages naming it leave the same registry and the same entries for every node |
| `Invariants.RejectionIsHarmless` | custom_components/homekey_household/coordinator.py:230-237 | one message that fails validation changes no existing node, the log, the notices or the pool; it registers a default node exactly for a decodable health or lock/last document of an unknown node |
| `Refusals.RefusalsOnlyLetWillsIn` | custom_components/homekey_household/coordinator.py:245-334 | over a run, deleting all rejected messages changes neither the log, nor the causes shown, nor any node field but the will's word and the last-seen time; each of those differs exactly when the last message to set it is a will that came after a rejection had registered the node and before any accepted report did |
| `Refusals.RefusalLetsWillIn` | custom_components/homekey_household/coordinator.py:412-429 | such a will: after a rejected health document, an offline will counts that otherwise would not |
| `Invariants.RunSettled` | custom_components/homekey_household/coordinator.py:183-187 | between messages no cause is pending and the pool agrees with the registry; after an accepted message the two are equal; the registry never shrinks |
| `Invariants.ContextsJoinTheLog` | custom_components/homekey_household/coordinator.py:484-519 | only the node a message names has a cause during its notification, and when no explanation raises the contexts entities see correspond one to one, in order, with the log |
| `Invariants.StepShows` | custom_components/homekey_household/entity.py:31-42 | one step keeps the correspondence between contexts shown to entities and log entries |
| `Invariants.FaultsNeverGateState` | custom_components/homekey_household/coordinator.py:274-299 | wherever explaining a change raises, and whenever, every run has the same registry, pool and notifications but for announced keys and causes |
| `Invariants.WhatSurvivesAFault` | custom_components/homekey_household/coordinator.py:484-519 | raising in the logbook loses the entry and keeps the context and the announced key; raising before that leaves none of the three |
| `Invariants.ReattachResumes` | custom_components/homekey_household/coordinator.py:169-181 | a coordinator built over the pool after an accepted update keeps the same registry and logs the same causes under every continuation |
| `Polling.OnePollOneEntry` | custom_components/homekey_household/direct.py:276-397 | one direct poll adds at most one log entry |
| `Polling.RedeliveryIsQuiet` | custom_components/homekey_household/direct.py:763-819 | delivering the same response again later changes neither the log nor any field of any node but the last-seen time, unless explaining the event raised early the first time only |
| `Polling.AtMostOneCause` | custom_components/homekey_household/coordinator.py:472-478 | of the slots of a poll only the event or the snapshot finds a cause, never both |
| `Naming.PollLogIs` | custom_components/homekey_household/direct.py:789-793 | the entries of a poll are exactly what its slots find in the record each of them meets, in order |
| `Naming.PollNamesIff` | custom_components/homekey_household/direct.py:307-395 | an entry of a poll names a person iff it is a HomeKey tap and the node had, before the poll, reported an authorisation with a name and the event's stamp; it names that person, and otherwise the mechanism |
| `Naming.TapInOneResponseIsUnnamed` | custom_components/homekey_household/direct.py:307-395 | a tap whose authorisation arrives in the same response is logged with its mechanism, although the name is stored |
| `Naming.TapStaysUnnamed` | custom_components/homekey_household/direct.py:763-819 | and stays so however often the same response is polled again |
| `Naming.TapResponseIsOne` | custom_components/homekey_household/direct.py:307-395 | there are such responses, for every name and every stamp the node has not reported a name for |
| `Naming.AuthFirstNames` | custom_components/homekey_household/coordinator.py:532-540 | the same two messages in the other order name the person |
| `Polling.FoldIsPolled` | custom_components/homekey_household/direct.py:276-397 | the record after a poll in closed form, slot by slot |
| `Refinement.WellTypedPollIsTakenWhole` | custom_components/homekey_household/direct.py:276-397 | every message a well-typed response of the entry's household is restated as is accepted; the node is left with the response's identity (generation and firmware stay when it carries none), the health it says, and the lock state of that health's code |
| `Refinement.PollSetsTheRest` | custom_components/homekey_household/direct.py:304-395 | whatever the response, the lock event, the authorisation and the guest document it offers are stored field by field as offered; what it does not offer, the will's word and the last backup stay as they were |
| `Refinement.PollSetsTheWords` | custom_components/homekey_household/direct.py:355-382 | likewise its security word and its backup word |
| `PolledHealth.PollTakesHealth` | custom_components/homekey_household/direct.py:186-239 | whatever the response, the health it says is stored and its code decides the lock state; when it says none the health stays as it was |
| `PolledHealth.EmbeddedIff` | custom_components/homekey_household/direct.py:222-239 | an embedded health document is accepted iff it is a good one once codes of 255 are dropped, and reads back as it stands but for those |
| `PolledHealth.SectionsIff` | custom_components/homekey_household/direct.py:186-219 | without one, the health is accepted iff firmware and codes have their types: both codes from the lock section while the lock is available, "OK" for a connected reader and a connected broker and "ERROR" otherwise, the response's firmware, the two fixed words, and nothing else |
| `PolledHealth.RestatingRaisesIff` | custom_components/homekey_household/direct.py:199-201 | restating raises iff there is no health document and a section is neither falsy nor an object, or the result of the last authorisation cannot be looked up |
| `Refinement.IdentityIsTaken` | custom_components/homekey_household/direct.py:319-346 | the identity document is accepted and reads back as the response's name, role, state, generation and firmware with the documented fallbacks |
| `Polling.NamelessPollIsIgnored` | custom_components/homekey_household/direct.py:262-265 | messages addressed to an empty node id change nothing |
| `DirectPoller.DirectPoller.PollOnce` | custom_components/homekey_household/direct.py:763-819 | polling in place updates the poller and the coordinator exactly as the poll step says, including the raised and the unconverted errors |
| `DirectPoller.DirectPoller.PollSafely` | custom_components/homekey_household/direct.py:821-846 | the scheduled poll in place: failures are counted, the third in a row takes a known node offline, any other result resets the count |
| `DirectPoller.DirectPoller.Deliver` | custom_components/homekey_household/direct.py:790-816 | the slots of a poll reach the coordinator one by one, in order |
| `Poller.PollResolvesAs` | custom_components/homekey_household/direct.py:242-273 | the node id of the state document wins over that of the info document; without either, or without a household, the poll raises and changes nothing; another household is noted, its own is published |
| `Poller.OnlineFollowsStreaks` | custom_components/homekey_household/direct.py:763-859 | after any run of polls of a node with a stable id it is online iff there was a matched success with no three consecutive counted failures since, and exactly one offline message was sent per streak reaching three |
| `Poller.HandleByMark` | custom_components/homekey_household/direct.py:773-787 | what one poll does to the count, the presence and the offline messages, by kind: a matched success, a counted failure, a household mismatch (breaks a streak, does not restore online), or neither |
| `Canonical.CanonicalInputIsDecodable` | custom_components/homekey_household/command.py:125-153 | for integer timestamps, 32-hex nonces and request ids, and the two actions, equal canonical texts have equal fields |
| `Canonical.DecimalIsInjective` | custom_components/homekey_household/command.py:125-127 | different timestamps are rendered differently |
| `Canonical.DecimalIff` | custom_components/homekey_household/command.py:125-127 | the time is rendered as the one numeral - no leading zero, a minus sign before a negative one - whose places in base ten are worth it |
| `Canonical.FreeTextIsAmbiguous` | custom_components/homekey_household/command.py:236-239 | with a free request id a lock and an unlock command can share a canonical text |
| `Canonical.SameTextIff` | custom_components/homekey_household/command.py:125-127 | two commands with any fields share a canonical text iff what precedes the action is equal, or differs by "un" where the actions differ |
| `Canonical.FreeRequestIdIsDecodableIff` | custom_components/homekey_household/command.py:229-241 | with 32-hex nonces and free request ids, equal texts have equal fields iff the actions are equal and the request ids equally long |
| `Commands.LockIsToldIff` | custom_components/homekey_household/command.py:233-241 | a lock command the builder accepts can be read as an unlock command it accepts iff its request id ends in "un" and the rest leaves a character for each of the other's fields |
| `Commands.RecallIsRecent` | custom_components/homekey_household/command.py:176-179 | the tracker holds the end of its history, exactly this much: all up to two windows, and from there on one window plus one up to two windows, round and round |
| `Commands.TwoWindowsIff` | custom_components/homekey_household/command.py:161-179 | two full windows are held exactly at multiples of the window, from two windows on |
| `Commands.NonceTracker.Remember` | custom_components/homekey_household/command.py:176-179 | remembering in place appends, and drops the oldest window once two are exceeded |
| `Commands.NonceTracker.FreshNonce` | custom_components/homekey_household/command.py:181-189 | returns and remembers the first of eight draws not held, or fails with nothing remembered |
| `Commands.FirstFresh` | custom_components/homekey_household/command.py:183-189 | the draw chosen is one of the eight and not held; none is chosen iff all eight are held |
| `Commands.BuildCommand` | custom_components/homekey_household/command.py:205-242 | a command is built or refused, and nonces are used up, exactly as specified - also when a later check refuses |
| `Commands.BuiltIsSigned` | custom_components/homekey_household/command.py:205-242 | every command built is for "lock" or "unlock", and its MAC is that of its time in decimal, its nonce, its request id and that word, one after the other |
| `Commands.GivenNonceIsCheckedIff` | custom_components/homekey_household/command.py:191-242 | a nonce handed in is used as it is iff it is 1 to 128 hex characters, the action is known, there is a key and the request id has 1 to 128 characters |
| `Commands.BuildsUnlessStuck` | custom_components/homekey_household/command.py:205-242 | with generated tokens a command is refused iff the action is unknown, the key empty, or all eight draws are held |
| `Commands.MqttClient.PublishCommand` | custom_components/homekey_household/mqtt.py:329-370 | either exactly the built command is published, once, at QoS 1, unretained, on its action's topic, or nothing is; a transport that raises leaves the nonce used |
| `Commands.CommandsAreNotReports` | custom_components/homekey_household/mqtt.py:303-306 | a published command is never taken in as a report |
| `Firmware.FirmwareVerifier.Verify` | tools/integration/firmware_verifier.py:73-112 | verifying in place gives the verdict of the checks in their order and updates the nonce window only on acceptance |
| `Firmware.AcceptedIff` | tools/integration/firmware_verifier.py:97-112 | after any run a command is accepted iff it is signed for its topic, within 300 s of the clock if there is one, and its nonce is not among the last 32 accepted; the action is the topic's |
| `Firmware.SignedIff` | tools/integration/firmware_verifier.py:51-98 | signed means: on the lock topic with the MAC of the time in decimal, the nonce, the request id and "lock", or on the unlock topic with that of "unlock", in ASCII |
| `Firmware.WindowIsLastAccepted` | tools/integration/firmware_verifier.py:106-110 | the window is the nonces of the last 32 acceptances, oldest first; rejections leave it alone |
| `Firmware.AcceptancesAreSpread` | tools/integration/firmware_verifier.py:106-110 | two acceptances of one nonce are at least 33 acceptances apart |
| `Firmware.AcceptedAgainIff` | tools/integration/firmware_verifier.py:97-112 | a nonce presented again, signed, is accepted iff it is in time and more than 32 acceptances came since its last |
| `Firmware.AtMostOnce` | tools/integration/firmware_verifier.py:97-112 | over a whole run with any duplication and reordering no command is acted on twice, provided the clock is there throughout and never goes back, and no closed span of 600 s of it holds more than 33 acceptances |
| `Firmware.LongBurstRepeats` | tools/integration/firmware_verifier.py:106-110 | the proviso is needed: with 34 acceptances in one second the first command is acted on twice |
| `Firmware.TopicBindsAction` | tools/integration/firmware_verifier.py:51-62 | a signed command is accepted only for the action it was built for, unless its own lock text and unlock text have one MAC |
| `Firmware.CollisionUnbindsAction` | tools/integration/firmware_verifier.py:51-62 | and when those two texts have one MAC, it is accepted on either topic or on neither |
| `Session.ActedOnIff` | tools/integration/firmware_verifier.py:73-112 | after any session with any number of nodes, a command handed to its node, first or again, is acted on iff it is in time and its nonce is not among the last 32 the node acted on |
| `Session.CoversIff` | custom_components/homekey_household/command.py:161-189 | the client's one tracker keeps the next command for a node from repeating a nonce of its last 32 iff it still holds all of them |
| `Session.CoveredWhenRecent` | custom_components/homekey_household/command.py:161-189 | it does while at most 64 commands have been built in all, or while the last 33 in all include the last 32 for the node |
| `Session.OneNodeIsCovered` | custom_components/homekey_household/command.py:161-189 | so it always does in a household of one node |
| `Session.SharedTrackerForgets` | custom_components/homekey_household/mqtt.py:235-360 | the bound is needed: after 64 commands for another node the client can build one its node refuses as replayed |
| `Session.EveryCommandIsAccepted` | custom_components/homekey_household/command.py:161-189 | in a session whose orders are made while the tracker covers their node, every command is acted on, with the action it was ordered for, when first delivered in time |
| `Session.ExactlyOnceInOrder` | custom_components/homekey_household/mqtt.py:329-370 | over such a session each node acts on exactly the commands it was delivered, once each, in order, each with the action it was ordered for |
| `Session.RedeliveryIsRefused` | tools/integration/firmware_verifier.py:106-107 | redelivering one of the last 32 commands delivered to a node is not acted on and changes nothing |
| `Session.SessionsAgree` | custom_components/homekey_household/command.py:161-189 | over such a session any 33 consecutive nonces for a node differ, and it acted on exactly what it was delivered |
| `Session.SessionsAreSound` | custom_components/homekey_household/command.py:161-179 | over every session the tracker recalls all issued nonces, and each node's window is the nonces of the last 32 commands it acted on |
| `Session.OrdersAreIssued` | custom_components/homekey_household/command.py:205-242 | an order yields exactly one command, for its node, action and time, or nothing at all |
| `Session.TrackerCoversWindow` | custom_components/homekey_household/command.py:161-179 | once everything is delivered to a covered node, every nonce in its window is held by the tracker |
| `Topics.GateIsExact` | custom_components/homekey_household/mqtt.py:277-319 | the callback runs iff the topic is homekey/household/h/nodes/n/ and one of the nine subtopic texts, h and n being 1 to 64 letters, figures, underscores and hyphens, or prefix + client id + "/status" outside the contract's tree |
| `Topics.NodeTopicPasses` | custom_components/homekey_household/mqtt.py:303-317 | such a node topic yields exactly the message of its household, its node and the subtopic its text names |
| `Topics.WillPasses` | custom_components/homekey_household/mqtt.py:289-302 | such a will yields the availability message of its client, under the entry's own household |
| `Topics.ParsingInvertsBuilding` | custom_components/homekey_household/const.py:245-256 | for valid ids and a subtopic, parsing a built topic gives back its parts, and whether it is reserved |
| `Topics.BuildingInvertsParsing` | custom_components/homekey_household/mqtt.py:100-132 | a parsed node topic is its base plus "/" plus its subtopic, and building from the parts gives it back iff the subtopic is not empty |
| `Topics.NodeTopicsDiffer` | custom_components/homekey_household/const.py:250-256 | no two node topics are the same text |
| `Topics.JoinAfterSplit` | custom_components/homekey_household/mqtt.py:111-124 | joining the levels of a topic gives the topic back |
| `Backup.WindowPerNode` | custom_components/homekey_household/backup.py:170-190 | from an empty store, after any interleaving of adds of different objects, a node's list is exactly the last `keep` added for it, in order |
| `Backup.KeptIsSubsequence` | custom_components/homekey_household/backup.py:183-190 | the list is the history with some records left out, in order |
| `Backup.OtherNodesAreUntouched` | custom_components/homekey_household/backup.py:183-190 | adding for one node leaves every other node's list as it was |
| `Backup.SameObjectTwiceIsLost` | custom_components/homekey_household/backup.py:189-190 | pruning goes by object identity: the same object added twice is lost altogether |
| `Backup.AddSlidesWindowIff` | custom_components/homekey_household/backup.py:183-190 | an add slides the node's window iff the object added is not the very one that falls out of it |
| `Backup.LatestIsNewest` | custom_components/homekey_household/backup.py:161-168 | while anything is kept, the newest copy of a node, or of all, is the one added last: no later one is of that node |
| `Backup.BackupStore.Add` | custom_components/homekey_household/backup.py:170-181 | adding in place appends, prunes the node's window, saves what is left, and continues any history by one |
| `Backup.BackupStore.Load` | custom_components/homekey_household/backup.py:142-152 | loading replaces the list by new, different objects holding exactly the usable records, in order |
| `Backup.FittingListIsKept` | custom_components/homekey_household/backup.py:142-190 | a list that fits the windows is its own history, so the window goes on across a restart |
| `Backup.RestoreUsesNewestIff` | custom_components/homekey_household/backup.py:474-485 | a restore picks the newest backup ever taken in the household iff none was taken or that one is still among the last `keep` of its node |
| `Backup.MovedNodeLosesOld` | custom_components/homekey_household/backup.py:183-190 | a node that moved to another household can push the newest backup of the old one out |
| `Backup.RestoreUsesNewest` | custom_components/homekey_household/backup.py:474-485 | so while nodes stay in one household a restore always picks the newest |
| `Backup.RestoredIsLast` | custom_components/homekey_household/backup.py:474-485 | the copy picked is the last of the household, or the last of all when the household is unknown |
| `Backup.EntryIsReadIff` | custom_components/homekey_household/backup.py:94-115 | an entry of the file is loaded iff it is an object with a node id and a blob, and with the stated fallbacks for everything else |
| `Backup.SaveThenLoad` | custom_components/homekey_household/backup.py:84-115 | loading a saved store gives back exactly the records with a node id and a blob, in order |
| `Backup.RestartLosesNothing` | custom_components/homekey_household/backup.py:84-115 | a restart loses nothing iff every record has a node id and a blob |
| `Backup.LoadingSettles` | custom_components/homekey_household/backup.py:142-152 | whatever the file held, saving what was loaded and loading again changes nothing |
| `Confirm.WaitForState` | custom_components/homekey_household/lock.py:118-133 | at most 21 checks; succeeds iff the target is seen at a check all of whose predecessors were before the deadline; fails only after 10 s with the last check differing |
| `Confirm.EvenChecks` | custom_components/homekey_household/const.py:477-478 | when every sleep takes its half second there are exactly 21 checks, at 0 to 10 seconds, and a target there at any of them is confirmed |
| `Confirm.Send` | custom_components/homekey_household/lock.py:135-172 | nothing is waited for when the command is refused or the transport raises; a published lock command is confirmed iff some check within ten seconds finds code 1 as the node's freshest lock report, an unlock command iff it finds code 0 |
| `Confirm.SendDirect` | custom_components/homekey_household/coordinator.py:659-683 | over the node's own API nothing is waited for when the node did not take the command; one it took is followed by a poll whose failure does not matter, and confirmed in the same way |
| `Discovery.NodeEntities.AddNewNodes` | custom_components/homekey_household/discovery.py:33-41 | one pass in place calls the factory for the ids not tracked yet and adds what it made as one batch, if anything |
| `Discovery.EntitiesFollowRegistry` | custom_components/homekey_household/discovery.py:21-46 | over any run and any enumeration order, the factory was called exactly once for every id of the registry last notified of, and for no other |
| `Discovery.EverythingMadeIsAdded` | custom_components/homekey_household/discovery.py:34-41 | the added batches, joined, are exactly what the factory made, and none is empty |
| `Discovery.CalledOncePerId` | custom_components/homekey_household/discovery.py:28-39 | the factory is called once for every id tracked and for nothing else |
| `Discovery.SuffixIff` | custom_components/homekey_household/const.py:533-548 | the thirteen entity suffixes |
| `Discovery.UniqueIdIsInjective` | custom_components/homekey_household/const.py:312-314 | within a household equal unique ids are of the same node and entity |
| `Discovery.NoSuffixEndsInAnother` | custom_components/homekey_household/const.py:533-548 | no entity suffix ends in an underscore and another suffix |
| `Discovery.HouseholdsMayClash` | custom_components/homekey_household/const.py:312-314 | across households unique ids can be equal |
| `Discovery.UniqueIdsEqualIff` | custom_components/homekey_household/const.py:312-314 | two unique ids are equal iff the entities are, and household and node id join to one text |
| `Discovery.PlainHouseholdsNeverClash` | custom_components/homekey_household/const.py:312-314 | between households whose ids have no underscore no two unique ids clash |

## Left out

- Firmware.AtMostOnce: needs a clock throughout that never goes back; without a wall clock the verifier checks no age, and only `Firmware.AcceptancesAreSpread` applies.
- Firmware.FirmwareVerifier.Verify: a text that cannot be encoded as UTF-8 (a lone surrogate) raises in the source; such text does not exist in the model.
- Commands.BuildCommand: building without a tracker, and a timestamp of a wrong type, are not modelled.
- Session.EveryCommandIsAccepted: of orders made while the tracker covers their node, which is always so with one node or 64 commands; what happens otherwise is `Session.ActedOnIff`.
- Session.ExactlyOnceInOrder: likewise, and redeliveries are of the last 32 commands delivered to the node; an older one can be acted on again, as `Session.ActedOnIff` says.
- Polling.RedeliveryIsQuiet: when explaining the event raised before anything was set the first time and does not the second, the second delivery explains it.
- Poller.OnlineFollowsStreaks: polls do not overlap and the node keeps one id.
- Refinement.WellTypedPollIsTakenWhole: the guest document is fetched from its own endpoint and may be rejected without consequence for the rest.
- Backup.RestoreUsesNewestIff: the choice of the copy; the settings checks and the restore request itself are not modelled.
- Invariants.ReattachResumes: context numbers start again, so the log is compared by its causes.
- Key derivation, HMAC, SHA-256 and BLAKE2b: parameters, not computed.
- Sockets, TLS, certificate pinning, HTTP, mDNS and the MQTT client of Home Assistant: input and output.
- JSON text, the wording of log entries and logged warnings, entity registry lookups.
- QoS and the retain flag of inbound messages: no handler reads them.
- `_known_node_ids` and the debounced reload: written, never acted on.
- Config flow, entry set-up, services, diagnostics, credential storage: plumbing.
- The remaining entity platforms and guest commands: thin reads and forwards.
