# Verified models of the MQTT gateway and its release tooling

The project models, in Dafny, the parts of the repository whose correctness is a statement about all inputs or
all runs, and proves those statements:

* **The version ledger** (`Ledger`, `LedgerProtocol`, `LedgerHistory`, `LedgerClient`, `LedgerExactness`; with release identities
  and plans in `Plans` and `Projections`). Any number of CI runs read a shared file, compute from it, and write it back under a check that the
  file is still the one they read. Every request is a step of its own and steps interleave freely. The object
  with the source's methods is `LedgerClient.GitHub`, and the undisturbed step sequences are shown to do what
  those methods do. The claim that a published tag comes after its own `begin_publication` is built into the
  steps, as `scripts/release_versioned.py:829-831` and `scripts/release_control.py:2578-2592` order it.
* **Minimal edits of JSON files** (`JsonLexer`, `JsonTokens`, `JsonSyntax`, `JsonValues`, `JsonPlaces`, `JsonDocument`, `JsonEdit`,
  `SyncVersions`, `SyncExactness`, `EditReadings`). The grammar of RFC 8259 is a concrete syntax tree and its printing; the recursive-descent
  reader that works on positions and fills a span table is proved against it; the right-to-left splicing editor
  and the multi-file synchronisation are proved on real text.
* **MQTT filters and the topic ACL** (`Topics`, `TopicTheorems`), against the matching relation of section 4.7 of
  OASIS MQTT Version 5.0.
* **Subscriptions** (`Reconnect`, `Subscriptions`, `SubscriptionRuns`, `Queries`). Owners share a topic, the client keeps one desired map, the
  broker forgets everything on a disconnect, and callbacks reach the event loop late. `Reconnect.MQTTClient` and
  `Subscriptions.MQTTService` carry the source's fields and methods.
* **Delivery** (`Delivery`). A bounded buffer between the network thread and the event loop;
  `Delivery.MQTTClient` is the receiving half of the same client.
* **Topic statistics** (`Statistics`). A bounded table that forgets the topic heard of least recently;
  `Statistics.MQTTService` is the statistics half of the same service.
* **Callable workflows** (`Workflows`). A depth-first walk with visited pruning and cycle detection on the chain.
* **The changelog reader** (`CodeSpans`, `Comments`, `Changelog`). Comment masking in place, inline code in linear
  time, headings and sections by offsets into the original text.

`Text` (splitting and decimals) and `Wrappers` are shared.

`dafny verify dfyconfig.toml` checks everything.

## Reading the model

* Code that updates things step by step is a class or a method with loops, proved equal to a function; what is
  promised is proved about the function. Pure code is functions and lemmas.
* A run is a sequence of steps of any length, and every statement "over runs" is by induction on it.
* What the functions decide is also told without them, in texts and numbers: `Projections`, `LedgerExactness`, `JsonTokens`,
  `JsonPlaces` and `EditReadings` characterise answers by the contents of ledgers and files alone, in both directions.
* Equal blob SHAs stand for equal ledger files, a missing SHA for a missing file, and a plan names its policy
  instead of the policy's digest.
* Topic names are nonempty strings, as the gateway and the standard require. Therefore containment has three
  pairs it refuses although they are covered (`+/#` for `#`, `/+/#` for `/#`, `+/+/#` for `/#`), and overlap one
  pair it accepts although no name matches both (`/#` and `+`, in either order). All theorems state these pairs. If
  the empty name counted, only the first would remain (`TopicTheorems.ContainmentWithEmptyName`,
  `TopicTheorems.OverlapWithEmptyName`).
* Two statements one might expect are false of the code; a run is given for each, and the exact condition is
  proved instead. The broker does not always hold exactly the desired subscriptions once callbacks lag
  (`Reconnect.LaggingRunLeaves`); it does exactly when nothing was left behind (`Reconnect.SettledIsExact`). And the
  held QoS is not always the largest among the present owners, because releasing an owner that is not the last one
  leaves it alone (`SubscriptionRuns.HeldAboveOwners`). It is always the one that was the largest at the last
  granted acquire of the topic, and it is the largest now exactly when some present owner asked for that QoS
  (`SubscriptionRuns.HeldIsLastLargest`, `SubscriptionRuns.HeldIsLargestExactly`).
* The comment on the "newer published" scans suggests that they guard the order of publications; the floor check
  already does, and `LedgerProtocol.ScansOnlyStopForStable` says exactly when a scan adds a refusal.

## Model

| member | source | states |
|---|---|---|
| `Plans.IdentityIsInjective` | scripts/version_plan.py:291-319 | a printed version determines base, channel and sequence |
| `Plans.NightlyStampNamesRun` | scripts/release_state.py:203-204 | a nightly suffix determines time, run and attempt |
| `Plans.ValidPlansAreCreated` | scripts/version_plan.py:322-429 | the validator accepts a plan for a policy and a source exactly when the plan's own inputs create it again under them, and then for no other policy or source |
| `Plans.TagsNameReleases` | scripts/version_plan.py:388-392 | two valid plans with one tag are the same base, channel and sequence |
| `Plans.AppleBijection` | scripts/version_plan.py:483-487 | 1..99,990,000 corresponds one to one to the triples (1..9999, 0..99, 0..99) |
| `Plans.AppleOrder` | scripts/version_plan.py:483-487 | the triples keep the order of the build numbers, in both directions |
| `Plans.AppleTextIsInjective` | scripts/version_plan.py:483-487 | distinct build numbers print as distinct Apple versions |
| `Plans.NightlyOrder` | scripts/version_plan.py:472-482 | accepted nightly numbers order by run and then by attempt, in both directions |
| `Projections.BaseIsThreeNumbers` | scripts/version_plan.py:44 | a base is accepted exactly when it is three decimal numbers without superfluous zeros |
| `Projections.IdentityIsExact` | scripts/version_plan.py:291-319 | an identity is accepted exactly for such a base with a sequence that fits the channel, a nightly's being an existing moment, a run and an attempt; its text is spelled out for each channel |
| `Projections.ValidPlanIsExact` | scripts/version_plan.py:363-414 | the validator's checks of a plan on its own, with the numbers 1..2,100,000,000 and forty lower-case hexadecimal digits |
| `Projections.ProjectionExists` | scripts/version_plan.py:454-509 | a valid plan projects into a field exactly when the build number it needs is there (up to 99,990,000 for Apple) and, for a PEP 440 nightly, run and attempt fit one number |
| `Projections.KindOfProjection` | scripts/version_plan.py:497-509 | without a prefix exactly the build number projects as a number |
| `Projections.PrefixIsPrepended` | scripts/version_plan.py:497-509 | a prefixed value is the prefix and the unprefixed text or digits, and exists exactly when that one does |
| `Projections.FullNamesRelease` | scripts/version_plan.py:488-494 | the full projection is the tag without its v and names one base, channel and sequence; the base projection is what stands before its dash, and the same only for stable |
| `Projections.PackageIsExact` | scripts/version_plan.py:454-494 | the package projection is the base exactly for a stable release or a promote-bytes candidate, else the tag without its v, or in PEP 440 the base with b, rc or .dev and a number that divides into run and attempt |
| `Projections.PackageNamesRelease` | scripts/version_plan.py:454-509 | two plans share a package projection only if they share the base and are both published under it, or are the same beta, the same candidate, or the same run and attempt of a nightly |
| `Projections.NumbersAreTheBuild` | scripts/version_plan.py:483-494 | the build projection is the plan's number, and the Apple projection three numbers in range that stand for it |
| `Projections.AppleTextIsExact` | scripts/version_plan.py:483-487 | a text of three numbers stands for one build number |
| `Ledger.NextSequenceIsNext` | scripts/release_control.py:1558-1571 | no tag has the next count or a later one, and the count before it, if any, is taken |
| `Ledger.NewPlanIsApart` | scripts/release_state.py:193-208 | a new plan shares no build number with a reserved one, and a tag only if both are stable |
| `Ledger.ReservingStaysSane` | scripts/release_state.py:193-213 | a reservation keeps the ledger valid, its numbers and tags apart, and every older reservation as it was |
| `Ledger.BeginningStaysSane` | scripts/release_state.py:322-328 | a begun publication keeps the ledger valid, never lowers the floor, and publishes a reserved plan |
| `LedgerProtocol.StepKeepsInv` | scripts/release_state.py:98-330 | the invariant of the whole system survives every step of every run, other people's tags and crashes |
| `LedgerHistory.RunsAreSerial` | scripts/release_state.py:98-330 | every interleaving leaves the file that the logged requests give one after another from an empty ledger; each request used only sequences, tags and releases the remote really showed; each plan handed out and each leave to publish is that of a logged request |
| `LedgerProtocol.OnlyFreshWritesCommit` | scripts/release_state.py:152-161 | only a write on the very file its run read changes the ledger, and by one atomic request |
| `LedgerHistory.ChangedForGood` | scripts/release_state.py:152-161 | a file that changed since a pending run read it never becomes again what that run read, first creation included |
| `LedgerHistory.StaleRunsNeverCommit` | scripts/release_state.py:152-161 | a run that became stale has failed or is still stale after every continuation, and none of its own steps ever changes the ledger |
| `LedgerProtocol.LedgerIsSane` | scripts/release_state.py:121-144 | every ledger ever written passes the reader's own checks, and is readable exactly within the size limit |
| `LedgerProtocol.LedgerOnlyGrows` | scripts/release_state.py:207-213 | over any continuation reservations stay and neither counter nor floor falls |
| `LedgerProtocol.RerunReturnsItsPlan` | scripts/release_state.py:182-192 | a rerun gets exactly the plan it reserved, or is refused for asking for another one |
| `LedgerProtocol.PromotionKeepsFloor` | scripts/release_state.py:273-302 | a promotion that passes has the floor's number and leaves the ledger unchanged |
| `LedgerProtocol.NumbersAreConsumedOnce` | scripts/release_state.py:242-245 | publications that are no promotions consume strictly increasing numbers, the floor is the last one and at most the counter, promotions keep it |
| `LedgerProtocol.ScansOnlyStopForStable` | scripts/release_state.py:246-302 | on the current ledger a scan refuses what the floor check let through exactly when a stable reservation with a published tag is in the way |
| `LedgerProtocol.ScanRefusesOnlyStaleRuns` | scripts/release_state.py:246-302 | without stable reservations a scan refuses only runs whose write would fail |
| `LedgerProtocol.FrozenForever` | scripts/release_state.py:103-119 | once the file outgrew its reader, or the branch exists without it and nobody read it before, no number is ever reserved or consumed again |
| `LedgerClient.GitHub.ReadState` | scripts/release_state.py:98-149 | returns the decoded ledger with its file exactly when the checks pass, an empty one when neither file nor branch exists |
| `LedgerClient.GitHub.WriteState` | scripts/release_state.py:152-161 | replaces the file exactly when it is the one that was read |
| `LedgerClient.GitHub.ReservePlan` | scripts/release_state.py:166-215 | the remote and the answer are those of one undisturbed reservation |
| `LedgerClient.GitHub.BeginPublication` | scripts/release_state.py:305-330 | the remote and the answer are those of one undisturbed publication |
| `LedgerClient.UndisturbedReservation` | scripts/release_state.py:166-215 | five steps of an idle run that nobody interrupts do what the method does |
| `LedgerClient.UndisturbedPublication` | scripts/release_state.py:305-330 | the same for a publication |
| `LedgerExactness.AcceptedIsReadable` | scripts/release_state.py:98-149 | the reader accepts any remote exactly when neither file nor branch is there, or the file is within 4,000,000 bytes, its numbers are in order, and every positive run holds a valid plan with a number up to the counter |
| `LedgerExactness.PromotionIsExact` | scripts/release_state.py:273-328 | in every reachable state an undisturbed promotion is granted exactly for a reserved, published promote-bytes candidate whose number is the last one consumed, unless a published stable release has passed it; it leaves the remote as it is |
| `LedgerExactness.PublicationIsExact` | scripts/release_state.py:229-328 | in every reachable state any other publication is granted exactly to the run that reserved the plan with this parent, for a number above all consumed ones, unless a published stable release has it or passed it; the floor then is that number and nothing else changes |
| `LedgerExactness.BeginningIsExact` | scripts/release_state.py:229-328 | the same decision on any remote, reachable or not, by the number of reservations of the plan and the published numbers |
| `LedgerExactness.PublicationIsVisible` | scripts/release_versioned.py:829-831 | after leave to publish, the plan's tag, or the stable name of a promoted candidate, is visible to everybody |
| `LedgerExactness.NewPlanIsNext` | scripts/release_state.py:193-208 | a new plan is what was asked for, under a count above every visible tag's and every reservation's of that base and channel whose predecessor is taken or 0, and a number one above the counter or the policy floor, whichever is larger |
| `LedgerExactness.NewPlanExists` | scripts/release_state.py:193-208 | there is one exactly when policy, base, source, nightly time and attempt are well formed, a number is left, and every declared file can take the projection |
| `LedgerExactness.ReservedPlansAreCreated` | scripts/release_state.py:178-192 | in every reachable state each reserved plan is valid for its own policy and source |
| `LedgerExactness.RerunIsExact` | scripts/release_state.py:178-192 | in every reachable state a run with a reservation gets its plan exactly when it asks for the same base, channel, parent, source and policy, and changes nothing |
| `LedgerExactness.ReservationIsExact` | scripts/release_state.py:166-215 | in every reachable state any other run gets a plan exactly when there is a next one and its stable or nightly name is free; the ledger gains exactly that reservation, and its number as the counter |
| `JsonLexer.ScanScalarLocal` | scripts/version_plan.py:600-602 | a scalar is read from its own characters alone, once something that may follow a scalar follows |
| `JsonLexer.IntTokens` | scripts/version_plan.py:600-602 | an integer is read from exactly one token, zero alone from a second one, `-0` |
| `JsonLexer.DumpsRoundTrip` | scripts/version_plan.py:661 | a printed string or integer is read back, whole, as itself |
| `JsonTokens.StringTokens` | scripts/version_plan.py:600-602 | a string token is exactly its text written character by character between quotes: as itself, by one of eight letters, by a code unit or by a surrogate pair |
| `JsonTokens.ScalarsAreGrammar` | scripts/version_plan.py:600-602 | a token has a value exactly when it is such a string, the value's decimal digits (or -0), or, standing for itself, a number with a fraction or an exponent or one of six constants |
| `JsonTokens.DumpsIsShortest` | scripts/version_plan.py:661 | a printed string writes every character in a shortest way |
| `JsonTokens.EscapeIsShortest` | scripts/version_plan.py:661 | the same for one character, with code units in lower case |
| `JsonSyntax.ParseIsGrammar` | scripts/version_plan.py:540-613 | a text parses to a tree exactly when the tree is well-formed, with distinct keys, and prints as the text |
| `JsonPlaces.GapIsWhiteSpace` | scripts/version_plan.py:548-551 | white space is exactly space, tab, line feed and carriage return |
| `JsonPlaces.GroupsAreJoined` | scripts/version_plan.py:553-591 | a well-formed tree prints as brackets around white space, or around its values or its members of key, colon and value, joined by commas |
| `JsonPlaces.GroupsHoldTheirEntries` | scripts/version_plan.py:553-591 | an array's value holds its entries in order, an object's each key once with its value |
| `JsonDocument.Reader.Whitespace` | scripts/version_plan.py:548-551 | the index where the white space ends |
| `JsonDocument.Reader.Parse` | scripts/version_plan.py:593-602 | value, end and added spans are those of the grammar, or nothing parses there |
| `JsonDocument.Reader.ParseObject` | scripts/version_plan.py:553-576 | the same for the loop over an object's members |
| `JsonDocument.Reader.ParseArray` | scripts/version_plan.py:578-591 | the same for the loop over an array's items |
| `JsonDocument.JsonDocument` | scripts/version_plan.py:605-613 | the answer on a whole text is that of the grammar, with the span of every scalar |
| `JsonValues.SpansLocate` | scripts/version_plan.py:600-602 | a path of keys is in the span table exactly when following the keys leads to a scalar, with that scalar's place |
| `JsonValues.ScalarsAreLocated` | scripts/version_plan.py:652-657 | every scalar that keys lead to has a recorded place |
| `JsonValues.ReplaceSplices` | scripts/version_plan.py:663-664 | splicing a token in at a recorded span prints the tree with that one token replaced |
| `JsonValues.ReplacePuts` | scripts/version_plan.py:663-664 | replacing a token replaces exactly that field of the value |
| `JsonValues.ReplaceKeepsEarlier` | scripts/version_plan.py:663-664 | recorded spans are disjoint, and a replacement leaves earlier ones where they were |
| `JsonPlaces.SpansAreExact` | scripts/version_plan.py:553-602 | the span table has exactly the paths of keys and indices that lead to a scalar, and at each span stands exactly a token of that scalar |
| `JsonPlaces.ItemsStandInOrder` | scripts/version_plan.py:578-591 | the items of an array stand in the text in the order of their indices |
| `JsonEdit.CutAllReplaces` | scripts/version_plan.py:663-664 | splicing from right to left prints the tree with all selected tokens replaced |
| `JsonEdit.CutAllIsAtOnce` | scripts/version_plan.py:663-664 | splicing from right to left equals replacing all spans of the original text at once |
| `JsonEdit.PutSorted` | scripts/version_plan.py:663 | the order of the edits does not change the resulting value |
| `JsonEdit.EditIsExact` | scripts/version_plan.py:630-665 | the edited text parses again, to the value with exactly the selected fields replaced; every other scalar and every other character is as before; the reported values are the old ones |
| `JsonEdit.EditIsRefused` | scripts/version_plan.py:630-665 | an edit succeeds exactly when the text parses, its owner matches, and every selected field is a scalar that can take the value |
| `JsonEdit.EditSettles` | scripts/version_plan.py:660 | an edit leaves the text alone exactly when its fields already read right |
| `JsonEdit.EditedManifestIsOwned` | scripts/version_plan.py:646-652 | an edited manifest belongs to the declared package, and its field then reads the value |
| `JsonEdit.EditedLockIsOwned` | scripts/version_plan.py:632-645 | an edited lock and its root package belong to the declared package, and both versions then read the value |
| `JsonEdit.EditKeepsShape` | scripts/version_plan.py:630-665 | an edit adds and removes no field and changes no field's kind |
| `EditReadings.CoerceIsExact` | scripts/version_plan.py:616-627 | a string field takes the text or the digits of any value, an integer field the number of a numeric one, and no other field takes a value |
| `EditReadings.ManifestEdits` | scripts/version_plan.py:646-665 | a manifest is edited exactly when it names the declared package and its field can take the value; the field then reads it, every other scalar reads as before, and the text is the same exactly when the field read it already |
| `EditReadings.ManifestSplices` | scripts/version_plan.py:652-665 | a changed manifest differs by one token, that of the declared field |
| `EditReadings.LockEdits` | scripts/version_plan.py:632-665 | a lock is edited exactly when it and the root package it lists belong to the package and both versions can take the value; both then read it and every other scalar reads as before |
| `JsonEdit.JsonEdit` | scripts/version_plan.py:630-665 | the loops over fields and edits compute the specified edit |
| `SyncVersions.AcceptedFilesReadThePlan` | scripts/version_plan.py:1071-1078 | after an accepted run every declared selector reads its projected value, and undeclared files are untouched |
| `EditReadings.AcceptedFilesShowThePlan` | scripts/version_plan.py:1071-1078 | the same in texts and numbers: owner, fields and values of every declared file are spelled out |
| `EditReadings.ManifestsNameTheRelease` | scripts/version_plan.py:1041-1099 | after an accepted run a declared package string is the base exactly for a stable release or a promote-bytes candidate, and otherwise the tag without its v or the PEP 440 text of the release |
| `SyncVersions.AcceptedFilesKeepTheRest` | scripts/version_plan.py:1051-1069 | after an accepted run every scalar that no declaration selects reads as before |
| `SyncVersions.EvidenceIsComplete` | scripts/version_plan.py:1080-1093 | the evidence names exactly the declared files with their texts before and after, and shows no drift exactly when nothing changed |
| `SyncVersions.EvidenceReplays` | scripts/version_plan.py:1059-1068 | a file's evidence lists its declarations in order, each with its projected value and what its edit found, and replaying it turns the text before into the text after |
| `SyncVersions.SyncIsIdempotent` | scripts/version_plan.py:1041-1099 | running again, with or without `check`, is accepted and finds no drift |
| `SyncVersions.CheckIsExact` | scripts/version_plan.py:1090-1093 | `check` accepts exactly the files that already read the plan |
| `SyncVersions.ConflictsAreRejected` | scripts/version_plan.py:1069-1078 | selectors that want one scalar to print differently are always rejected |
| `SyncExactness.SyncIsExact` | scripts/version_plan.py:1041-1099 | a run is accepted exactly when the original files let every declaration be carried out in its turn, and once more with the names all declarations write, and no two declarations conflict |
| `SyncExactness.SyncIsExactForNames` | scripts/version_plan.py:1041-1099 | when no declaration writes an ownership name, that is when each declaration alone could be carried out and no two conflict |
| `SyncVersions.EditDeclared` | scripts/version_plan.py:1051-1068 | one turn of the first loop carries out one declaration on what the ones before it left |
| `SyncVersions.EditFiles` | scripts/version_plan.py:1051-1068 | the first loop with its growing dictionaries computes the chained edits |
| `SyncVersions.CheckSelectors` | scripts/version_plan.py:1071-1078 | the second loop decides whether every selector is settled |
| `SyncVersions.Synchronize` | scripts/version_plan.py:1041-1099 | the whole function computes the specified outcome and evidence |
| `TopicTheorems.ContainmentIsExact` | src/fastapi_mqtt_gateway/core/topics.py:28-46 | one filter contains another exactly when it matches every name the other matches, except for three pairs |
| `TopicTheorems.ExceptionsAreCovered` | src/fastapi_mqtt_gateway/core/topics.py:34-46 | on those pairs the answer is no although every name is matched |
| `TopicTheorems.ContainmentIsAPreorder` | src/fastapi_mqtt_gateway/core/topics.py:34-46 | containment is reflexive and transitive |
| `TopicTheorems.OverlapHasTopic` | src/fastapi_mqtt_gateway/core/topics.py:49-60 | overlapping filters have a common topic, which is constructed |
| `TopicTheorems.OverlapIsExact` | src/fastapi_mqtt_gateway/core/topics.py:49-60 | filters overlap exactly when some name matches both, except for one pair |
| `TopicTheorems.EmptyNameOverlaps` | src/fastapi_mqtt_gateway/core/topics.py:49-60 | on that pair the answer is yes although no name matches both |
| `TopicTheorems.LongNameOnly` | src/fastapi_mqtt_gateway/core/topics.py:9-13 | two filters within the limit overlap although every common name is beyond it |
| `TopicTheorems.ContainmentWithEmptyName` | src/fastapi_mqtt_gateway/core/topics.py:28-46 | were the empty name a topic, containment would be exact but for one pair |
| `TopicTheorems.OverlapWithEmptyName` | src/fastapi_mqtt_gateway/core/topics.py:49-60 | were the empty name a topic, overlap would be exact |
| `TopicTheorems.OverlapWithinLimit` | src/fastapi_mqtt_gateway/core/topics.py:9-13 | within 65535 bytes there is a common name exactly when the shortest one fits |
| `TopicTheorems.OverlapIsSymmetricAndMonotone` | src/fastapi_mqtt_gateway/core/topics.py:34-60 | overlap is symmetric and survives widening a side |
| `TopicTheorems.GrantedSubscriptionIsDeliverable` | src/fastapi_mqtt_gateway/core/topics.py:63-72 | every topic a granted subscription matches is itself authorized |
| `TopicTheorems.GrantIsExact` | src/fastapi_mqtt_gateway/core/topics.py:63-72 | a subscription is granted exactly when one rule covers it and no block rule meets it, up to the stated pairs |
| `TopicTheorems.PlainGrantIsExact` | src/fastapi_mqtt_gateway/core/topics.py:63-72 | a plain topic is granted exactly when it is valid, some allow rule matches it and no block rule does |
| `TopicTheorems.InvalidIsExact` | src/fastapi_mqtt_gateway/core/topics.py:9-25 | a topic or filter is refused as invalid exactly for being empty, longer than 65535 bytes, holding a NUL, a wildcard in a topic, a wildcard of a filter that does not fill its level or a # before the end, or as a shared subscription |
| `TopicTheorems.LevelsFit` | src/fastapi_mqtt_gateway/core/topics.py:14-21 | the wildcards of a filter pass the check by levels exactly when each is surrounded by slashes or ends of the text, and a # is the last character |
| `TopicTheorems.BytesAppended` | src/fastapi_mqtt_gateway/core/topics.py:11 | the length in bytes grows by one to four with each character, by its code point |
| `Reconnect.StepKeepsInv` | src/fastapi_mqtt_gateway/mqtt/client.py:51-87 | each step keeps: the waiting callbacks end in the true connection state, and when none wait the broker covers the desired map |
| `Reconnect.DesiredIsHeld` | src/fastapi_mqtt_gateway/mqtt/client.py:64-73 | connected with no callback waiting, the gateway knows it and the broker holds every desired subscription at its QoS |
| `Reconnect.ExtrasAreLeaked` | src/fastapi_mqtt_gateway/mqtt/client.py:247-253 | what the broker holds beyond the desired map is exactly what was unsubscribed while the event lagged and neither sent again nor released again |
| `Reconnect.SettledIsExact` | src/fastapi_mqtt_gateway/mqtt/client.py:237-253 | once settled, broker and desired map are equal exactly when nothing was left behind in that way |
| `Reconnect.DrainedIsExact` | src/fastapi_mqtt_gateway/mqtt/client.py:237-253 | when callbacks are drained before each application step they are equal, so nothing released while offline comes back |
| `Reconnect.LaggingRunLeaves` | src/fastapi_mqtt_gateway/mqtt/client.py:75-87 | a concrete lagging run that leaves a released subscription at the broker |
| `Reconnect.MQTTClient.ConnectionChanged` | src/fastapi_mqtt_gateway/mqtt/client.py:64-73 | the event follows, and on success the loop sends every desired subscription again |
| `Reconnect.MQTTClient.RunCallback` | src/fastapi_mqtt_gateway/mqtt/client.py:51-87 | the callback that waited longest takes effect |
| `Reconnect.MQTTClient.Subscribe` | src/fastapi_mqtt_gateway/mqtt/client.py:237-245 | succeeds exactly when connected and accepted, and only then changes desired map and broker |
| `Reconnect.MQTTClient.Unsubscribe` | src/fastapi_mqtt_gateway/mqtt/client.py:247-253 | the topic is no longer desired in any case, and leaves the broker when connected |
| `Subscriptions.RunsKeepInv` | src/fastapi_mqtt_gateway/services/mqtt_service.py:56-87 | over all runs service and client maps are equal, their keys are the owned topics, and the held QoS serves every owner |
| `Subscriptions.OwnersAreClaims` | src/fastapi_mqtt_gateway/services/mqtt_service.py:56-87 | the owner table holds exactly what each owner last acquired and has not released; nobody else's action touches it |
| `Subscriptions.HeldForItsOwners` | src/fastapi_mqtt_gateway/services/mqtt_service.py:56-87 | a topic is subscribed exactly while some owner claims it, at no less than any claim |
| `Subscriptions.AcquireHoldsLargest` | src/fastapi_mqtt_gateway/services/mqtt_service.py:60-71 | a granted acquire holds exactly the largest QoS among the owners and touches no other topic; a refused one changes nothing |
| `Subscriptions.AcquireIsExact` | src/fastapi_mqtt_gateway/services/mqtt_service.py:56-71 | an acquire succeeds exactly when authorized and either the topic is held at the largest QoS already and no refresh is asked for, or the client is connected and the library accepts; what it changes is spelled out, and a refused one changes nothing |
| `Subscriptions.ReleaseIsExact` | src/fastapi_mqtt_gateway/services/mqtt_service.py:73-87 | a release takes only that owner out, and with the last one the topic from the map, from the desired map, and when connected from the broker |
| `SubscriptionRuns.ReleaseKeepsLargest` | src/fastapi_mqtt_gateway/services/mqtt_service.py:78-80 | after an owner that is not the last releases, a held QoS that was the largest still is exactly when another owner asked for it |
| `SubscriptionRuns.HeldAboveOwners` | src/fastapi_mqtt_gateway/services/mqtt_service.py:78-80 | a run after which the held QoS is above every owner's |
| `SubscriptionRuns.HeldIsLastLargest` | src/fastapi_mqtt_gateway/services/mqtt_service.py:60-80 | over all runs a topic is held at the QoS that was the largest at its last granted acquire |
| `SubscriptionRuns.HeldIsLargestExactly` | src/fastapi_mqtt_gateway/services/mqtt_service.py:60-80 | over all runs that is the largest QoS of the present owners exactly when one of them claims it |
| `SubscriptionRuns.TrafficIsChanges` | src/fastapi_mqtt_gateway/services/mqtt_service.py:64-87 | over all runs the requests carried out on the client are, in order, exactly the changes of the held map and the refreshes asked for |
| `SubscriptionRuns.TrafficBuildsHeld` | src/fastapi_mqtt_gateway/services/mqtt_service.py:64-87 | over all runs those requests alone build up exactly the held map |
| `Subscriptions.QueryNetEffect` | src/fastapi_mqtt_gateway/services/mqtt_service.py:98-132 | a retained query leaves the owners as they were and the QoS at their largest, unsubscribes a topic without owners, and changes nothing when refused |
| `Queries.QueryStays` | src/fastapi_mqtt_gateway/services/mqtt_service.py:107-114 | while a granted query waits, no turn of others and no event takes its entry, the subscription or the desired topic away |
| `Queries.QueryAmongTurns` | src/fastapi_mqtt_gateway/services/mqtt_service.py:98-132 | a query and the turns that fill its wait do not disturb one another: other topics end as without it, other owners keep what the turns left, the asker leaves nothing, and a refused query leaves no trace |
| `Queries.QueryAmongOthers` | src/fastapi_mqtt_gateway/services/mqtt_service.py:98-132 | with turns on other topics only, the owners end as they were and the topic at the largest of their QoS, or unsubscribed |
| `Subscriptions.RunsAreClientRuns` | src/fastapi_mqtt_gateway/services/mqtt_service.py:56-87 | what the service asks of the client is a run of the client's own model |
| `Subscriptions.OwnersAreServed` | src/fastapi_mqtt_gateway/services/mqtt_service.py:56-87 | connected with no callback waiting, the broker serves every owner at its QoS or above, and with drained callbacks holds no other topic |
| `Subscriptions.MQTTService.Max` | src/fastapi_mqtt_gateway/services/mqtt_service.py:63 | the largest QoS of a nonempty owner table |
| `Subscriptions.MQTTService.AcquireSubscription` | src/fastapi_mqtt_gateway/services/mqtt_service.py:56-71 | returns exactly when authorized and, if it had to be sent, accepted; owners, map and client move together |
| `Subscriptions.MQTTService.ReleaseSubscription` | src/fastapi_mqtt_gateway/services/mqtt_service.py:73-87 | removes that owner only, and the subscription with the last one |
| `Subscriptions.MQTTService.Receive` | src/fastapi_mqtt_gateway/services/mqtt_service.py:103-105 | the first retained message on the topic, if one was delivered |
| `Subscriptions.MQTTService.QueryRetained` | src/fastapi_mqtt_gateway/services/mqtt_service.py:98-132 | nothing when not authorized; otherwise the acquire and release of a query, answered by the first retained message exactly when the acquire was granted |
| `Delivery.StepKeepsInv` | src/fastapi_mqtt_gateway/mqtt/client.py:89-121 | each arrival, drain, delivery and consumer read keeps buffer, flag, scheduled drain, queue and history in agreement |
| `Delivery.OneDrainWaits` | src/fastapi_mqtt_gateway/mqtt/client.py:97-103 | at most one drain is scheduled, and one is exactly while something is buffered |
| `Delivery.DeliveryIsExact` | src/fastapi_mqtt_gateway/mqtt/client.py:97-111 | the buffer holds the newest arrivals since the last drain up to its bound, and the drains deliver exactly those of each interval, in order |
| `Delivery.DeliveredInOrder` | src/fastapi_mqtt_gateway/mqtt/client.py:97-121 | delivered messages are arrivals at strictly increasing positions |
| `Delivery.NothingLost` | src/fastapi_mqtt_gateway/mqtt/client.py:41-43 | everything is delivered exactly when no interval between drains overflowed the buffer |
| `Delivery.QueueIsNewest` | src/fastapi_mqtt_gateway/mqtt/client.py:113-121 | the queue is the end of what was delivered, within its bound; the consumer reads its first element, moves forward only, and loses only to a full queue |
| `Delivery.MQTTClient.OnMessage` | src/fastapi_mqtt_gateway/mqtt/client.py:89-103 | one arrival |
| `Delivery.MQTTClient.TakePending` | src/fastapi_mqtt_gateway/mqtt/client.py:105-109 | the locked part of a drain |
| `Delivery.MQTTClient.DeliverMessage` | src/fastapi_mqtt_gateway/mqtt/client.py:113-121 | one delivery, giving up the oldest message of a full queue |
| `Delivery.MQTTClient.DrainMessages` | src/fastapi_mqtt_gateway/mqtt/client.py:105-111 | an undisturbed drain delivers all that was buffered, in order, into the queue's newest elements |
| `Delivery.MQTTClient.GetMessage` | src/fastapi_mqtt_gateway/mqtt/client.py:273-274 | the oldest message still queued |
| `Statistics.RecordKeepsInv` | src/fastapi_mqtt_gateway/services/mqtt_service.py:153-160 | recording one message keeps the table exact for the longer history |
| `Statistics.TableIsMostRecent` | src/fastapi_mqtt_gateway/services/mqtt_service.py:153-160 | the table names exactly the N topics heard of most recently, in the order of their last arrivals |
| `Statistics.EntriesAreChains` | src/fastapi_mqtt_gateway/services/mqtt_service.py:153-160 | an entry survives exactly while fewer than N distinct other topics came since, counts the arrivals of its unbroken chain, and holds the latest message |
| `Statistics.GrantedPacketsCount` | src/fastapi_mqtt_gateway/services/mqtt_service.py:139-145 | no packet of a granted subscription within the size limit is missed |
| `Statistics.AcceptedIsPermitted` | src/fastapi_mqtt_gateway/services/mqtt_service.py:139-145 | the statistics take exactly the messages within the limit on a valid topic that some allow rule matches and no block rule does |
| `Statistics.MQTTService.HandleMessage` | src/fastapi_mqtt_gateway/services/mqtt_service.py:139-160 | the table stays that of the history, which grows by exactly the permitted messages and holds no other |
| `Statistics.MQTTService.GetTopicInfo` | src/fastapi_mqtt_gateway/services/mqtt_service.py:134-137 | the count and latest message of the topic's chain, or zero |
| `Workflows.FinishedIsAcyclic` | scripts/workflow_contracts.py:214-232 | no workflow the walk has left lies on a cycle |
| `Workflows.FinishedIsSound` | scripts/workflow_contracts.py:235-241 | when the walk ends, what it left is exactly what is reachable, acceptable and acyclic |
| `Workflows.ChainCloses` | scripts/workflow_contracts.py:216-217 | meeting a workflow on the present chain is a real cycle |
| `Workflows.Walk.Visit` | scripts/workflow_contracts.py:214-232 | success leaves the workflow finished; an error is justified by the graph; it terminates by the unvisited workflows |
| `Workflows.Walk.VisitJobs` | scripts/workflow_contracts.py:227-232 | the same for the loop over the jobs |
| `Workflows.ValidateGraph` | scripts/workflow_contracts.py:235-241 | succeeds exactly on sound graphs and returns exactly the reachable set; a raised error names a reachable offender |
| `Workflows.BaseNameIsExact` | scripts/workflow_contracts.py:230 | the called file's name is what stands behind the last slash of the reference |
| `Workflows.EdgeIsExact` | scripts/workflow_contracts.py:227-230 | a workflow calls another exactly when one of its jobs uses a file under the workflow directory with that name |
| `Workflows.SoundIsCallable` | scripts/workflow_contracts.py:214-232 | sound means: every reachable workflow exists, has workflow_call and at most workflow_dispatch beside it as triggers, gives every job of its own that runs a timeout, and lies on no cycle |
| `CodeSpans.SearchFinds` | scripts/release_control.py:1671-1681 | the naive search finds the nearest later run of its length, or there is none |
| `CodeSpans.SpanEndIsNext` | scripts/release_control.py:1671-1681 | a run opens a code span exactly when a later run has its length, ending with the nearest |
| `CodeSpans.RunIsBackticks` | scripts/release_control.py:1673 | a run is nothing but backticks with none beside it |
| `CodeSpans.FindRuns` | scripts/release_control.py:1673 | all maximal runs of backticks, in order |
| `CodeSpans.CodeSpanEnds` | scripts/release_control.py:1671-1681 | the linear reverse pass gives what the naive search gives, at every index |
| `Comments.ScanTiles` | scripts/release_control.py:1684-1706 | a line is read as pieces without gap or overlap: comments up to the first closing mark, escapes, code spans, single characters |
| `Comments.TilesAreOne` | scripts/release_control.py:1684-1706 | there is only one way to read a line as such pieces |
| `Comments.ScanFlag` | scripts/release_control.py:1684-1706 | a comment stays open after a line exactly when its last piece is a comment the line does not close |
| `Comments.Blank` | scripts/release_control.py:1692-1694 | the slice assignment blanks exactly that comment and keeps line breaks |
| `Comments.MaskedIsExact` | scripts/release_control.py:1692-1694 | exactly the characters of comment pieces become spaces, carriage returns and line feeds excepted |
| `Comments.CommentLine` | scripts/release_control.py:1684-1706 | exactly the comment characters become spaces, line breaks excepted |
| `Changelog.FenceIsForm` | scripts/release_control.py:1659-1668 | a line is a fence exactly when it is at most three spaces, at least three equal markers, and information that does not go on with the marker |
| `Changelog.LinesEndAtFeeds` | scripts/release_control.py:1724 | every line ends at its only line feed, which only the last one may lack |
| `Changelog.OpeningIsForm` | scripts/release_control.py:1725-1738 | a line opens a block exactly outside fences and comments, with a fence that has no backtick behind backticks |
| `Changelog.ClosingIsForm` | scripts/release_control.py:1709-1717 | a line closes one exactly when it is a fence of that marker, at least as long, with only blanks behind it |
| `Changelog.FencesAreBlocks` | scripts/release_control.py:1709-1737 | a fence is open before a line exactly when an earlier line opened it and none since closed it |
| `Changelog.LinesShow` | scripts/release_control.py:1720-1742 | every line has the right mask and flags: comments are blanked exactly where a heading may stand, which is outside fences and indented code |
| `Changelog.VisibleKeepsOffsets` | scripts/release_control.py:1720-1742 | the visible text has the original's length and line breaks, and differs only by spaces |
| `Changelog.TitleIsExact` | scripts/release_control.py:1745-1751 | a heading's title is the one part of its content that is left without surrounding blanks and without the closing hashes, which count exactly when set off by a space or tab or alone |
| `Changelog.HeadingsAreExact` | scripts/release_control.py:1754-1771 | the headings are exactly the lines that may hold one and show at most three spaces, one to six hashes and then nothing or a blank, each with its level, title and place |
| `Changelog.HeadingsStand` | scripts/release_control.py:1754-1771 | each heading's one to six hashes stand in the original text at its offset, behind at most three visible spaces |
| `Changelog.SectionsAreExact` | scripts/release_control.py:1774-1782 | sections of one level are disjoint and ordered, contain no heading of that level or above, reach as far as that allows, and every heading of the level has one |
| `Changelog.StripIsExact` | scripts/release_control.py:1782 | stripping is the one way to take the white space off both ends |
| `Changelog.PartsAreSections` | scripts/release_control.py:1774-1782 | each section is yielded once, with its title, the stripped original text of its range, and that range with comments blanked |
| `Changelog.ReadReleaseLines` | scripts/release_control.py:1720-1742 | the loop with fence and comment state reads the specified lines |
| `Changelog.ReadHeadings` | scripts/release_control.py:1754-1771 | the loop with its running offset finds the specified headings |
| `Changelog.ReadSections` | scripts/release_control.py:1774-1782 | the loop over headings yields the specified titles and bodies |

## Left out

- Subprocess calls, HTTP framing, retries, timeouts, base64 and UTF-8 codecs, digests: texts are character
  sequences, the length of a ledger's encoding is a parameter, and a blob SHA is the content it names.
- Deleted releases and tags that reappear: the tags of others may change at any time, but a release that was
  published stays published.
- Wall-clock time: the nightly time stamp is an input of fourteen digits. UUIDs: a retained query's owner is any
  name that does not own the topic yet.
- TOML, Python, plist, PBX and text version files, and the archive formats: only JSON files and npm locks are
  modelled, so `SyncVersions` speaks of policies that declare those.
- Numbers with a fraction or an exponent and the constants of JSON are kept as their tokens; they are never
  edited. Integers have no digit limit.
- `JsonDocument.JsonDocument`: rejects a text with an escape that denotes a lone surrogate, which Python reads, because
  characters here are Unicode scalar values.
- `JsonEdit.EditIsRefused`: counts such a text as malformed for the same reason.
- `SyncVersions.Synchronize`: returns the new texts instead of writing them to disk, texts instead of digests, and
  knows JSON files and npm locks only.
- Confinement of paths, symbolic links, staging and atomic renames, and files changed by others during a run.
- Order of the evidence by path name, and its SHA-256 digests: the evidence is a map with the texts themselves.
- Packets are taken as processed by the broker in the order they are handed to the library. The library refuses
  application SUBSCRIBEs at will, but never the ones sent again after a connection, whose result the gateway does
  not look at. `connect`, `disconnect`
  and shutdown of the client, callbacks before an event loop is known, TLS and credentials.
- Turns under the subscription lock are atomic: the awaited client calls contain no suspension point. A caller
  cancelled while it waits for the lock takes no turn.
- The clock of a retained query: a wait is the list of messages delivered during it. Message callbacks, decoding of payloads and
  time stamps in statistics entries. The length of a payload stands for its bytes.
- Guidance and setext checks of the changelog.
- Other validators of workflows, and every workflow field but triggers, `uses`, `runs-on` and `timeout-minutes`.
- `Subscriptions.QueryNetEffect`: is about a query that no other turn interrupts, for QoS values that are not
  negative, as requests are validated; `Queries.QueryAmongTurns` and `Queries.QueryAmongOthers` are about the rest.
- `Subscriptions.MQTTService.QueryRetained`: as a method call it takes no turn of others during its wait; the theorems
  in `Queries` do. A payload that does not decode is not modelled.
- Routes, JWT, password hashing, rate limiting, metrics, logging, packaging and deployment scripts.
