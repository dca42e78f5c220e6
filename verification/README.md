# Verified models of the Codex release, conformance and runtime scripts

A Dafny 4.11 project that models the parts of the repository whose correctness is hardest to see, and proves
what they promise for all inputs, all runs and all interleavings. `dafny verify dfyconfig.toml` checks all of it.
Proofs by induction are written out: the configuration turns automatic induction off for lemmas, and none needs it.

- **Release publisher.** Runs of the R2 publisher are processes that take one atomic step at a time on a bucket; any
  number of them interleave, and a crash is a process that takes no further step. No run ever leaves a channel that points at
  an incomplete release, and a finalisation that completes leaves the bucket of an uninterrupted run.
- **Version texts.** The PEP 440 form, the dashed form and the publisher's tag grammar, with the regular expressions as
  statements about splits of the text.
- **MCP fixture server.** Legacy sessions over HTTP against one connection over stdio; server-sent events against the
  reader of the WHATWG HTML standard.
- **Analytics queue.** Bounded channel, flush barriers, deduplication sets and request batches.
- **Agent roles and paths.** The layered loader with its closed form, the directory walk, and path joining.
- **Regression gates.** Validators that read a full and a compact form of a report, the compactors, the gates, and the JSONL
  client of the harness.
- **MODULE.bazel checksums.** The updater and its checker.

Code that changes things step by step is a class or a method with a loop, proved equal to a function; the properties are lemmas
about those functions. For the main operations a further module says what they do on the inputs alone: `ReleaseOutcome`, `McpReplies`,
`AppServerOutcome`, `AgentRoleSources`, `ComplianceVerdict` and `ReviewVerdict`. JSON values keep the distinctions Python makes: a missing key and a null are alike, `True == 1`,
and looking up a list or a dictionary in a set raises.

Results that differ from what one might expect:

- A compact conformance baseline is accepted again only if some check ran, and was not skipped, in every required case and scenario
  (`ComplianceBaseline.CompactReadsBack`, with a failing report in `ComplianceSkips.SkippedRunIsRefused`).
- The MODULE.bazel checker can reject the updater's own output, and a second update can change the file again; both conditions
  are exact (`ModuleBazelFile.UpdateSatisfiesCheck`, `ModuleBazelFile.UpdateTwice`, with failing files in `ModuleBazelResults`).
- A path without components, such as `/`, `//` or `\\`, can change its kind or stop being absolute when a segment is joined; the
  condition is exact for each segment (`AppServerPath.KindKeptIff`, with the failing paths in `AppServerPath.KindIsLost`).
- Which error a failing walk for role files returns can depend on the order in which directories are listed; success and the list do not
  (`RoleListingOrder.ErrorIsFixedIff`, with a failing tree in `RoleListingOrder.OrderDecidesError`).
- A publisher tag with an unnumbered pre-release has no normal form (`ReleaseVersion.PublishableRoundTrip`).
- Channel safety does not need bare asset names, because everything a channel document lists has been verified in the bucket first.

What the models take as parameters: SHA-256, CRC and the JSON printer of the release metadata; where convergence needs it,
a download that a run validated is the content of the release; the analytics reducer; the results of
the MCP features; parsed role files; the scenario catalog, the set of required review cases and the Unicode decimal digits; time, as a number of
messages after which a call gives up; the identifiers of new sessions, assumed fresh, and of flushes, each used once; the order in which concurrent
workers complete.

## Model

| member | source | states |
|---|---|---|
| `ReleaseBucket.KeysAreApart` | codex-main/.github/scripts/publish_r2_release.py:268-306 | asset and metadata keys of a release are versioned, and no installer or channel key is |
| `ReleaseBucket.StepPreserves` | codex-main/.github/scripts/publish_r2_release.py:189-217 | no step of any process changes or removes a stored versioned object |
| `ReleaseBucket.StepEstablishes` | codex-main/.github/scripts/publish_r2_release.py:288-365 | each step keeps what its process has verified so far and establishes what its next phase relies on |
| `ReleaseBucket.NextIsSafe` | codex-main/.github/scripts/publish_r2_release.py:377-505 | one event of the whole system, a new process or a step of any process, keeps every process's claims and every channel true |
| `ReleaseBucket.EveryRunIsSafe` | codex-main/.github/scripts/publish_r2_release.py:377-505 | over every interleaving of any number of assets and finalize runs, stopped anywhere: a channel always points at a complete release, and no versioned object ever changes |
| `ReleaseBucket.EveryRunEstablishes` | codex-main/.github/scripts/publish_r2_release.py:377-505 | from any bucket at all, over every interleaving, each process has verified in the bucket what its phase relies on, and no versioned object ever changes |
| `ReleaseBucket.KeysIdentify` | codex-main/.github/scripts/publish_r2_release.py:268-306 | two publishable releases share an object key only if they are the same release and the same name |
| `ReleaseBucket.OtherReleasesUntouched` | codex-main/.github/scripts/publish_r2_release.py:377-505 | no run of other releases adds, changes or removes an object of this one |
| `ReleaseBucket.EveryRunIsHonest` | codex-main/.github/scripts/publish_r2_release.py:189-265 | over every run, the SHA-256 recorded with a versioned asset is that of its content |
| `ReleaseBucket.ChannelHasOrigin` | codex-main/.github/scripts/publish_r2_release.py:477-505 | from any bucket, over every run, the object at codex/channels/latest or codex/channels/prerelease is the one from the start, or the document of a process of the run that has the flag of that channel set and whose assets and metadata are in the bucket |
| `ReleaseBucket.ChannelIsServable` | codex-main/.github/scripts/publish_r2_release.py:435-505 | at any moment of any run, the document a channel holds describes a publishable release that the bucket serves: every asset is there with the size and digest that the job was given, and the version's own metadata has the size and digest of that document; the job is that of a process of the run, unless the channel is as it was at the start |
| `ReleaseConvergence.StepWritesTarget` | codex-main/.github/scripts/publish_r2_release.py:189-306 | every write of a run of the release, whose validated downloads are the release's content, puts the object that the uninterrupted run would put there |
| `ReleaseConvergence.RunsConverge` | codex-main/.github/scripts/publish_r2_release.py:377-505 | over every run, the bucket stays between the old one and the target, and each process's progress is real |
| `ReleaseConvergence.CompleteIsTarget` | codex-main/.github/scripts/publish_r2_release.py:377-505 | a bucket between the two that holds every asset, the metadata, the installers and the channels is the target |
| `ReleaseConvergence.FinalizeConverges` | codex-main/.github/scripts/publish_r2_release.py:309-365 | from any bucket, after any mixture of interrupted and concurrent runs of a release, one finalisation that completes leaves exactly the bucket of a single uninterrupted run |
| `ReleasePublisher.StreamDigest` | codex-main/.github/scripts/publish_r2_release.py:161-167 | reading in chunks gives the length and digest of the whole file |
| `ReleasePublisher.Publisher.PutObject` | codex-main/.github/scripts/publish_r2_release.py:189-217 | an upload stores the object, unless overwriting is forbidden and the key is taken |
| `ReleasePublisher.Publisher.PublishAsset` | codex-main/.github/scripts/publish_r2_release.py:288-306 | succeeds exactly when the download is intact and, if verified, the stored object is the listed one; returns the entry of the asset |
| `ReleasePublisher.Publisher.RunWorkers` | codex-main/.github/scripts/publish_r2_release.py:309-328 | in any completion order, every upload happens; it reports the first task to fail in that order, a task failing exactly if it would fail on the bucket before all of them |
| `ReleasePublisher.WorkerOutcome` | codex-main/.github/scripts/publish_r2_release.py:309-328 | what a worker finds after its upload is decided by the bucket before all uploads |
| `ReleasePublisher.PutAllAdds` | codex-main/.github/scripts/publish_r2_release.py:309-328 | uploads in any order add exactly the valid missing assets |
| `ReleasePublisher.Publisher.PublishAssets` | codex-main/.github/scripts/publish_r2_release.py:309-328 | the entries come back in asset order whatever the completion order |
| `ReleasePublisher.Publisher.FindPublishedAssets` | codex-main/.github/scripts/publish_r2_release.py:331-365 | succeeds exactly when every stored asset is the listed one, and returns exactly the stored ones |
| `ReleasePublisher.Publisher.PublishMissing` | codex-main/.github/scripts/publish_r2_release.py:412-433 | what is not stored is uploaded; the entries are those of all assets in order; versioned objects are preserved on failure too |
| `ReleasePublisher.Publisher.PublishInstallers` | codex-main/.github/scripts/publish_r2_release.py:268-285 | succeeds exactly when both installers are in the release and intact, and stores them |
| `ReleasePublisher.Publisher.PublishChannels` | codex-main/.github/scripts/publish_r2_release.py:481-505 | the channel latest gets the document if make-latest is set and is left alone otherwise, and the same for prerelease |
| `ReleasePublisher.StoredRelease` | codex-main/.github/scripts/publish_r2_release.py:412-475 | uploads and metadata leave the old bucket plus the write-once objects; the metadata verifies unless another object was stored under its key |
| `ReleasePublisher.Publisher.PublishPointers` | codex-main/.github/scripts/publish_r2_release.py:479-505 | installers of a stable release, then the channels |
| `ReleasePublisher.Publisher.Finalize` | codex-main/.github/scripts/publish_r2_release.py:412-505 | completes exactly when nothing stored conflicts with the release and what it must download is intact; then the bucket is the release's target, which is said key by key from the flags and the release, and the entries list key, name, digest and size in asset order |
| `ReleaseOutcome.TargetDelivers` | codex-main/.github/scripts/publish_r2_release.py:412-505 | the target of a finalisation, key by key: channels by their flags, installers of a stable release, assets and release.json where nothing was stored, a document with the tag and the name and digest of each asset, and every other key unchanged |
| `ReleaseOutcome.ChannelsSelected` | codex-main/.github/scripts/publish_r2_release.py:481-485 | a run writes codex/channels/latest exactly if make-latest is set, codex/channels/prerelease exactly if prerelease is set, and no other channel |
| `ReleaseOutcome.FinalizeSetsChannels` | codex-main/.github/scripts/publish_r2_release.py:477-505 | after any mixture of runs of a release, a finalisation that completes has set the channels its flags select and no other |
| `ReleaseListing.GetReleaseMetadata` | codex-main/.github/scripts/publish_r2_release.py:71-130 | accepts a listing exactly when every asset it does not leave out is uploaded with a name, a size and a SHA-256 digest, no name repeats and something is left; returns exactly those assets with their size and digest, sorted by name, none called release.json |
| `ReleaseListing.ByName` | codex-main/.github/scripts/publish_r2_release.py:126-130 | the collected assets sorted by name, each once |
| `ReleaseVersion.UniqueReading` | codex-main/sdk/python/release_version.py:68-82 | a normalised version text can be read in only one way |
| `ReleaseVersion.HotfixUnique` | codex-main/sdk/python/release_version.py:68-82 | the hotfix pattern captures the same groups however it is matched |
| `ReleaseVersion.NumberUnique` | codex-main/sdk/python/release_version.py:68-82 | the same for the numbered pre-release patterns |
| `ReleaseVersion.NormalizeIdempotent` | codex-main/sdk/python/release_version.py:68-82 | normalising twice is normalising once, for every accepted version |
| `ReleaseVersion.DashedRoundTrip` | codex-main/sdk/python/release_version.py:49-82 | the release form of a normalised version normalises back to it |
| `ReleaseVersion.TagsIdentifyVersions` | codex-main/sdk/python/release_version.py:45-82 | two accepted versions have the same release tag exactly when they normalise alike |
| `ReleaseVersion.DottedIsRegex` | codex-main/sdk/python/release_version.py:68-82 | the character-wise reading of a dotted number is the regular expression's |
| `ReleaseVersion.ResolvedTagIsPublishable` | codex-main/sdk/python/release_version.py:35-46 | every tag computed for a Python runtime version is in the publisher's tag grammar |
| `ReleaseVersion.PublishableRoundTrip` | codex-main/.github/scripts/publish_r2_release.py:37-40 | a publisher version normalises exactly when it has no pre-release or a numbered one, and then its release tag is the tag it came from |
| `ReleaseVersion.PublishableHasNoSlash` | codex-main/.github/scripts/publish_r2_release.py:386-388 | a publisher version is not empty and has no path separator |
| `ReleaseTags.PrefixIsIgnored` | codex-main/sdk/python/release_version.py:61-66 | spaces around a version and a prefix v or rust-v make no difference to its normal form |
| `ReleaseTags.PrereleaseForms` | codex-main/sdk/python/release_version.py:61-77 | with or without spaces, prefix and dot, a written alpha, beta or rc has the PEP 440 form of that pre-release |
| `ReleaseTags.HotfixForms` | codex-main/sdk/python/release_version.py:61-77 | the same for a hotfix of an alpha |
| `ReleaseTags.TagNormalizes` | codex-main/sdk/python/release_version.py:45-82 | the release tag of an accepted version normalises to the normal form of that version |
| `EventStream.EncodedIsDelivered` | codex-main/scripts/mcp_conformance/server.py:1344-1371 | for every profile, a reader that follows sections 9.2.5 and 9.2.6 of the WHATWG HTML standard dispatches exactly the texts, in order, if no text has a line break |
| `EventStream.NextEventIsShort` | codex-main/scripts/mcp_conformance/server.py:1344-1371 | an event is shorter than the lines before the next blank one |
| `EventStream.BrokenEventIsShort` | codex-main/scripts/mcp_conformance/server.py:1344-1371 | a text with a line break inside leads to a first event shorter than the text |
| `EventStream.DeliveredIffNoBreak` | codex-main/scripts/mcp_conformance/server.py:1344-1371 | the texts are delivered if and only if none of them has a line break |
| `JsonText.Dumps` | codex-main/scripts/mcp_conformance/server.py:1365-1371 | the printed JSON of any value has no line break |
| `JsonText.EveryMessageIsDelivered` | codex-main/scripts/mcp_conformance/server.py:1344-1371 | every list of JSON messages, in every profile, reaches a standard reader unchanged |
| `JsonRead.ReadsBack` | codex-main/scripts/mcp_conformance/server.py:1365-1371 | every JSON value is read back from its printed text by a JSON reader, whatever follows that does not continue a word |
| `JsonRead.MessagesAreRecovered` | codex-main/scripts/mcp_conformance/server.py:1344-1371 | every list of JSON messages, in every profile, reaches a standard reader as events from which each message is read back |
| `McpSessions.RunStdio` | codex-main/scripts/mcp_conformance/server.py:1641-1671 | the loop over a connection's messages gives the replies of the message-by-message definition |
| `McpSessions.NothingBeforeResponse` | codex-main/scripts/mcp_conformance/server.py:544-687 | in a legacy mode no message is answered with notifications, because a tool call gets no request metadata |
| `McpSessions.FixtureHttpServer.DoDelete` | codex-main/scripts/mcp_conformance/server.py:1412-1431 | a DELETE is the corresponding step on the session table |
| `McpSessions.FixtureHttpServer.DoPost` | codex-main/scripts/mcp_conformance/server.py:1433-1568 | a POST is the corresponding step: session checks, new sessions, the shared handler |
| `McpSessions.DiscoverIgnoresState` | codex-main/scripts/mcp_conformance/server.py:306-348 | discovery and malformed messages are answered alike in every state and change none |
| `McpSessions.EverySessionTracked` | codex-main/scripts/mcp_conformance/server.py:1489-1568 | in every interleaving with fresh ids, the state kept for a live session is that of a lone connection fed its messages |
| `McpSessions.SessionIsConnection` | codex-main/scripts/mcp_conformance/server.py:1412-1568 | in every interleaving, the replies of a session up to its DELETE are those of a lone stdio connection fed the same messages |
| `McpSessions.StateMeaning` | codex-main/scripts/mcp_conformance/server.py:350-362 | the two flags of a connection mean exactly that initialize was accepted, and that the notification followed it |
| `McpSessions.ResultsNeedHandshake` | codex-main/scripts/mcp_conformance/server.py:487-572 | no method but initialize gets a result before the handshake is complete, and a ping gets one exactly from then on |
| `McpSessions.HttpResultsNeedHandshake` | codex-main/scripts/mcp_conformance/server.py:1489-1568 | over HTTP a result to anything but initialize comes only in a live session whose own messages completed the handshake |
| `McpReplies.LookupMeans` | codex-main/scripts/mcp_conformance/server.py:329-338 | a field is looked up by the last occurrence of its key |
| `McpReplies.EveryAnswerFits` | codex-main/scripts/mcp_conformance/server.py:306-362 | as sections 4.1 and 5 of JSON-RPC 2.0 ask: no response to a message without an id, one response otherwise, with the id of the message, and null only where there is none |
| `McpReplies.ConnectionAnswers` | codex-main/scripts/mcp_conformance/server.py:306-572 | on a connection, initialize is answered with the protocol version of the server, each feature with the outcome and status of its own method and params once the messages before it completed the handshake, and everything else with the JSON-RPC error of the first thing wrong |
| `McpReplies.EveryPostFits` | codex-main/scripts/mcp_conformance/server.py:1433-1568 | in every interleaving, a POST is refused with the status of the first failed check, or answered as a lone connection fed the messages of its session would answer |
| `McpReplies.EveryDeleteFits` | codex-main/scripts/mcp_conformance/server.py:1412-1431 | a DELETE is answered 200 exactly for a live session |
| `AnalyticsQueue.StepConsistent` | codex-main/codex-rs/analytics/src/client.rs:158-194 | every atomic step of producers, flushers and the worker keeps channel, worker and history consistent |
| `AnalyticsQueue.EveryRunConsistent` | codex-main/codex-rs/analytics/src/client.rs:158-194 | so does every interleaving; every signalled barrier stays behind what it waited for, every barrier passed is signalled or about to be, and no two accepted messages are the same flush |
| `AnalyticsQueue.QueueIsFaithful` | codex-main/codex-rs/analytics/src/client.rs:79-194 | in every interleaving the channel holds at most 256 messages, the ingested facts are a prefix of the accepted ones in order, and what was sent is the output of a prefix of the accepted messages |
| `AnalyticsQueue.FlushIsBarrier` | codex-main/codex-rs/analytics/src/client.rs:255-276 | a flush that is signalled done is one accepted message: every fact accepted before it has been ingested and its events, and those of the flush, handed to send |
| `AnalyticsQueue.FlushIsSignalled` | codex-main/codex-rs/analytics/src/client.rs:160-177 | once the events of a flush were sent and the worker has moved on, the flush is done |
| `AnalyticsQueue.TurnIsFourSteps` | codex-main/codex-rs/analytics/src/client.rs:160-177 | one turn of the worker's loop is four atomic steps |
| `AnalyticsQueue.EventsQueue.TrySend` | codex-main/codex-rs/analytics/src/client.rs:185-194 | a producer's attempt is the corresponding step; it is accepted exactly when there is room |
| `AnalyticsQueue.EventsQueue.WorkerTurn` | codex-main/codex-rs/analytics/src/client.rs:160-177 | a turn of the loop is the four steps for the message at the head |
| `AnalyticsQueue.EventsQueue.DrainChannel` | codex-main/codex-rs/analytics/src/client.rs:160-177 | run to an empty channel, the loop has sent the events of every accepted message in order and signalled every waiting flush |
| `AnalyticsDedupe.EmittedKeys.ShouldEnqueueAppUsed` | codex-main/codex-rs/analytics/src/client.rs:196-212 | the answer and the new set, for an app |
| `AnalyticsDedupe.EmittedKeys.ShouldEnqueuePluginUsed` | codex-main/codex-rs/analytics/src/client.rs:214-235 | the answer and the new set, for a plugin |
| `AnalyticsDedupe.KeysMeaning` | codex-main/codex-rs/analytics/src/client.rs:196-235 | in every run the set holds exactly the keys tried since it was last emptied |
| `AnalyticsDedupe.AnswerMeans` | codex-main/codex-rs/analytics/src/client.rs:196-235 | in every run the answer is no exactly when the same connector, or the same plugin by its id or else its remote id, was asked about in the same turn before and the set was not emptied since |
| `AnalyticsDedupe.TwoYesNeedClear` | codex-main/codex-rs/analytics/src/client.rs:196-235 | two yes answers for a key have an emptying of the set between them |
| `AnalyticsDedupe.Ledger` | codex-main/codex-rs/analytics/src/client.rs:83-235 | keyed yes answers number exactly 4096 per emptying plus the keys held |
| `AnalyticsDedupe.RepeatsAreRare` | codex-main/codex-rs/analytics/src/client.rs:83-235 | the set never holds more than 4096 keys, and yes answers for one key number at most 1 + T/4096 for T keyed yes answers |
| `AnalyticsBatches.TrackEventRequestBatches` | codex-main/codex-rs/analytics/src/client.rs:845-866 | the batches are an order-preserving cut without empty batches, isolated events alone, in the number that is needed |
| `AnalyticsBatches.NoCutIsSmaller` | codex-main/codex-rs/analytics/src/client.rs:845-866 | no such cut uses fewer batches |
| `AnalyticsBatches.Retain` | codex-main/codex-rs/analytics/src/client.rs:824-838 | keeps the events that satisfy the filter, in order |
| `AnalyticsBatches.SendTrackEvents` | codex-main/codex-rs/analytics/src/client.rs:819-843 | nothing is sent without suitable credentials, all events with those of the backend, and with an API key exactly the events that allow it; in order, isolated ones alone, in the fewest requests |
| `AppServerPath.JoinKeepsKind` | codex-main/codex-rs/app-server-client/src/path.rs:33-42 | joining a segment to an absolute path with a component keeps it absolute and of its platform kind |
| `AppServerPath.JoinComponents` | codex-main/codex-rs/app-server-client/src/path.rs:21-42 | the components after a join are the old ones followed by the pieces of the segment |
| `AppServerPath.JoinAllComponents` | codex-main/codex-rs/app-server-client/src/path.rs:13-58 | the same for any list of segments |
| `AppServerPath.KindKeptIff` | codex-main/codex-rs/app-server-client/src/path.rs:13-58 | a join keeps the kind exactly if the path has a component, or the segment supplies the second backslash of a Windows path, or does not add a second slash to a POSIX one |
| `AppServerPath.KindKeptIffComponent` | codex-main/codex-rs/app-server-client/src/path.rs:13-58 | an absolute path has a component if and only if no segment can change its kind |
| `AppServerPath.KindIsLost` | codex-main/codex-rs/app-server-client/src/path.rs:13-58 | the failing paths: `/` joined with `/x` becomes a Windows path, two slashes or two backslashes joined with `x` are no longer absolute |
| `AgentRoles.KeepFirstHolds` | codex-main/codex-rs/agent-roles/src/loader.rs:46-98 | every name is held with its earliest good reading |
| `AgentRoles.KeptOrWarned` | codex-main/codex-rs/agent-roles/src/loader.rs:46-98 | every reading is either kept or warned about, and never both |
| `AgentRoles.ComplaintsMean` | codex-main/codex-rs/agent-roles/src/loader.rs:46-98 | there is a warning exactly for each reading that failed and each name that was read before |
| `AgentRoles.DeclaredRoles` | codex-main/codex-rs/agent-roles/src/loader.rs:46-73 | the declared roles of a layer, the earliest of each name, with a warning for each other declaration in order |
| `AgentRoles.DiscoverRoles` | codex-main/codex-rs/agent-roles/src/loader.rs:290-335 | the roles of a folder's files that no declaration already took, the earliest of each name, with a warning for each other file in order |
| `AgentRoles.AddDiscovered` | codex-main/codex-rs/agent-roles/src/loader.rs:75-98 | found roles join the declared ones unless their name is taken, with a warning for exactly the taken names in order |
| `AgentRoles.ReadLayer` | codex-main/codex-rs/agent-roles/src/loader.rs:36-98 | the roles of a layer, or the error of a folder that cannot be listed, and all its warnings in order |
| `AgentRoleSources.DeclaredIs` | codex-main/codex-rs/agent-roles/src/loader.rs:147-164 | a declaration supplies its role under its own name or that of its role file, with description and nicknames of the file where it has them and of the table otherwise, and cannot be read exactly if its table or file is malformed |
| `AgentRoleSources.LayerSupplies` | codex-main/codex-rs/agent-roles/src/loader.rs:46-98 | the roles of a layer are those of its first declaration of each name, and else of the first file found that no declaration names |
| `AgentRoleLayers.HighestIsHighest` | codex-main/codex-rs/agent-roles/src/loader.rs:166-173 | the highest layer that sets a field is what its name says |
| `AgentRoleLayers.FoldClosedForm` | codex-main/codex-rs/agent-roles/src/loader.rs:34-117 | a role is loaded exactly when some layer describes it, and each field is the one set by the highest layer at or above the lowest layer that describes it |
| `AgentRoleLayers.LeftOutIsUndescribed` | codex-main/codex-rs/agent-roles/src/loader.rs:100-113 | a layer's role is left out with a warning exactly when neither it nor a lower layer describes it |
| `AgentRoleLayers.MergeOneLayer` | codex-main/codex-rs/agent-roles/src/loader.rs:100-113 | the inner loop merges a layer and leaves out exactly the undescribed roles, listed by name |
| `AgentRoleSources.LoadAgentRoles` | codex-main/codex-rs/agent-roles/src/loader.rs:23-117 | without layers, each declaration must supply a role with a description under a name of its own, and the error is that of the first that does not; with layers it fails exactly when a folder cannot be listed, with the error of the lowest such layer, and otherwise loads exactly the roles that some declaration or role file describes, each field from the highest layer at or above the lowest that describes the role, and within a layer from the role file before the table; warnings come layer by layer, about definitions and then about missing descriptions |
| `AgentRoleSources.LoadedMeans` | codex-main/codex-rs/agent-roles/src/loader.rs:34-117 | the same closed form, for the fold of the layers |
| `AgentRoleLayers.LoadWithoutLayers` | codex-main/codex-rs/agent-roles/src/loader.rs:125-145 | fails exactly if some declaration cannot be read, lacks a description or repeats a name, with the error of the first one; otherwise equals one layer with the same declarations |
| `RoleDiscovery.TomlCounts` | codex-main/codex-rs/agent-roles/src/discovery.rs:7-40 | each .toml file below a directory is counted once, and nothing else |
| `RoleDiscovery.CollectAgentRoleFiles` | codex-main/codex-rs/agent-roles/src/discovery.rs:7-40 | the walk ends on every finite tree; it fails exactly when a directory cannot be opened, with the error of the first one in its order, and otherwise returns exactly the regular .toml files, each once, sorted |
| `RoleListingOrder.ReorderedLookup` | codex-main/codex-rs/agent-roles/src/discovery.rs:7-40 | two trees that differ only in the order in which their directories list entries have the same node at every path |
| `RoleListingOrder.ListingOrderIsIrrelevant` | codex-main/codex-rs/agent-roles/src/discovery.rs:7-40 | on such trees the walk succeeds on both or on neither, and with the same list of files |
| `RoleListingOrder.ErrorIsFixedIff` | codex-main/codex-rs/agent-roles/src/discovery.rs:7-40 | the error of a failing walk is the same for every order of the listings if and only if all unreadable directories have the same error |
| `RoleListingOrder.OrderDecidesError` | codex-main/codex-rs/agent-roles/src/discovery.rs:7-40 | two unreadable directories with different errors: the order in which they are listed decides which error is returned |
| `RoleListingOrder.OutcomeIsIndependent` | codex-main/codex-rs/agent-roles/src/discovery.rs:7-40 | if all unreadable directories have the same error, the whole result, list or error, is independent of the order |
| `AppServerClient.Client.Send` | codex-main/scripts/mcp_conformance/run_codex_compliance.py:228-237 | a line is sent exactly while the server process lives |
| `AppServerClient.Client.HandleRequest` | codex-main/scripts/mcp_conformance/run_codex_compliance.py:314-353 | a server request is recorded, its params kept if it is an elicitation, and answered if the server lives |
| `AppServerClient.Client.SendRequest` | codex-main/scripts/mcp_conformance/run_codex_compliance.py:242-274 | the request loop, against the definition of waiting for one response |
| `AppServerClient.Client.WaitForNotification` | codex-main/scripts/mcp_conformance/run_codex_compliance.py:276-312 | the notification loop, against its definition; recorded events come first |
| `AppServerClient.AwaitSteps` | codex-main/scripts/mcp_conformance/run_codex_compliance.py:242-274 | a wait for a response is taking in messages and then possibly returning the one with its id; whatever every taking-in keeps, it keeps |
| `AppServerClient.RequestIsSound` | codex-main/scripts/mcp_conformance/run_codex_compliance.py:242-274 | a request keeps a run sound, uses a new id, and what it returns carries that id and no method |
| `AppServerClient.WaitIsSound` | codex-main/scripts/mcp_conformance/run_codex_compliance.py:276-312 | so does a wait for a notification |
| `AppServerClient.EveryRunIsSound` | codex-main/scripts/mcp_conformance/run_codex_compliance.py:242-353 | over every run of requests, waits and notifications against any stream, with any time-outs and even if the server exits: every message read is in order either the response returned to the request with its id or an event, once; every server request is answered once in order while the server lives; no id is returned twice; the kept params are those of the elicitations |
| `AppServerClient.ResponseIsOwn` | codex-main/scripts/mcp_conformance/run_codex_compliance.py:242-274 | in any run, a request that returns gets the response with its own id, which no earlier return had |
| `AppServerOutcome.RequestComesTo` | codex-main/scripts/mcp_conformance/run_codex_compliance.py:242-353 | a request sends one call with the id it waits for; the place at which the response comes, or time, the stream or the server's input runs out, decides the outcome, the new events, the kept params and the answers, an acceptance for each elicitation and a refusal otherwise, under the id of the request |
| `AppServerOutcome.ResponseIsReturned` | codex-main/scripts/mcp_conformance/run_codex_compliance.py:242-274 | if the response comes in time, after no end mark and after no more server requests than can be answered, the request returns it, and the messages before it are its new events |
| `AppServerOutcome.RequestFails` | codex-main/scripts/mcp_conformance/run_codex_compliance.py:228-253 | a request to a server that takes no more input fails and only uses up an id |
| `AppServerOutcome.WaitComesTo` | codex-main/scripts/mcp_conformance/run_codex_compliance.py:276-353 | the same for a wait for a notification that is not recorded yet |
| `AppServerOutcome.NoticeIsReturned` | codex-main/scripts/mcp_conformance/run_codex_compliance.py:276-312 | if the notification comes in time, the wait returns and records it |
| `AppServerClient.WaitReturnsWanted` | codex-main/scripts/mcp_conformance/run_codex_compliance.py:276-312 | a wait returns a wanted notification: the first recorded one past the index if there is any, else one that arrived during the wait and is recorded |
| `AppServerClient.SinceIsSuffix` | codex-main/scripts/mcp_conformance/run_codex_compliance.py:276-288 | the recorded events that a wait looks at are those from its index on, a negative index counting from the end |
| `ComplianceReport.NumberedCopiesAgree` | codex-main/scripts/mcp_conformance/run_codex_compliance.py:1425-1456 | any two numbered repetitions of a check have the same identity, and the check itself has it too unless it is identified by a name that already ends in a number |
| `ComplianceChecks.JudgeIs` | codex-main/scripts/mcp_conformance/run_codex_compliance.py:1425-1456 | what a check says on its own fields: its source, its scenario, its check id or else its name without a trailing number, and a status that agrees with its success |
| `ComplianceChecks.SameCheckIff` | codex-main/scripts/mcp_conformance/run_codex_compliance.py:1425-1456 | two good checks of a case are the same one if and only if their source, scenario and effective id agree |
| `ComplianceFacts.FullReadingMeans` | codex-main/scripts/mcp_conformance/run_codex_compliance.py:1593-1679 | a full report read without problems yields exactly the statuses that its checks give on their fields, all well formed and within the catalog |
| `ComplianceFacts.CompactReadingMeans` | codex-main/scripts/mcp_conformance/run_codex_compliance.py:1493-1591 | a compact report read without problems yields exactly the statuses of its two lists |
| `ComplianceFacts.CompactReadingCovers` | codex-main/scripts/mcp_conformance/run_codex_compliance.py:1556-1590 | such a report covers every required mode, transport and scenario |
| `ComplianceFacts.ReadingFits` | codex-main/scripts/mcp_conformance/run_codex_compliance.py:1459-1679 | either form, read without problems, has well-formed identities within the catalog it declares |
| `ComplianceValidity.FullReportIsValid` | codex-main/scripts/mcp_conformance/run_codex_compliance.py:1459-1679 | a full report is read without problems if and only if it is valid: header, catalog, and for each required mode and transport one case whose checks are all well formed, those over official HTTP observing exactly the catalog |
| `ComplianceValidity.CompactReportIsValid` | codex-main/scripts/mcp_conformance/run_codex_compliance.py:1459-1591 | a compact report is read without problems if and only if it is valid: header, two lists of distinct good records, and in them every required mode, transport and scenario and no other scenario |
| `ComplianceScript.ReadRecords` | codex-main/scripts/mcp_conformance/run_codex_compliance.py:1516-1554 | the loop over a list of compact records, against its definition |
| `ComplianceScript.ReadChecks` | codex-main/scripts/mcp_conformance/run_codex_compliance.py:1639-1662 | the loop over the checks of a case, against its definition |
| `ComplianceScript.ReadAllModes` | codex-main/scripts/mcp_conformance/run_codex_compliance.py:1616-1677 | the loop over modes and transports, against its definition |
| `ComplianceScript.RequiredRegressionChecks` | codex-main/scripts/mcp_conformance/run_codex_compliance.py:1459-1679 | the whole validator: problems, identities, and the exception on unhashable values |
| `ComplianceScript.CompactRegressionBaseline` | codex-main/scripts/mcp_conformance/run_codex_compliance.py:1682-1726 | the compactor, against its definition |
| `ComplianceScript.EvaluateRegressionGate` | codex-main/scripts/mcp_conformance/run_codex_compliance.py:1744-1809 | the gate: each of its lists is the sorted listing of the identities it is about |
| `ComplianceBaseline.ListReadsBack` | codex-main/scripts/mcp_conformance/run_codex_compliance.py:1516-1554 | a list of distinct well-formed identities is read back whole |
| `ComplianceBaseline.CompactReadsBack` | codex-main/scripts/mcp_conformance/run_codex_compliance.py:1459-1726 | whenever a report compacts, the compact form reads as exactly the same statuses without skipped checks, and without problems if and only if some check ran in every required case and scenario |
| `ComplianceBaseline.CompactTwice` | codex-main/scripts/mcp_conformance/run_codex_compliance.py:1682-1726 | compacting again returns the form unchanged if the coverage holds, and is refused otherwise |
| `ComplianceBaseline.CompactIsIdempotent` | codex-main/scripts/mcp_conformance/run_codex_compliance.py:1682-1726 | compacting a compact report is idempotent |
| `ComplianceSkips.SkippedRunIsRefused` | codex-main/scripts/mcp_conformance/run_codex_compliance.py:1556-1590 | for every catalog of non-empty lists of names, a run that skipped one check for each scenario and case is valid and compacts, and its compact form is refused |
| `ComplianceGate.EitherFormGates` | codex-main/scripts/mcp_conformance/run_codex_compliance.py:1744-1809 | with that coverage the gate gives the same result, errors and all four lists, with the compact form as with the full one; without it the compact form accepts no candidate |
| `ComplianceGate.AcceptsMeans` | codex-main/scripts/mcp_conformance/run_codex_compliance.py:1744-1809 | the gate succeeds exactly when both reports are valid under one recorded OAuth policy, neither fails a shipping check, and the candidate is no worse |
| `ComplianceVerdict.GateLists` | codex-main/scripts/mcp_conformance/run_codex_compliance.py:1744-1809 | for two reports without problems, the new failures, known failures, missing and fixed checks are exactly those that the checks or records of the reports say, in order and once each |
| `ComplianceVerdict.GateErrors` | codex-main/scripts/mcp_conformance/run_codex_compliance.py:1744-1809 | the configuration errors are those of the recorded policies and one for each failed check of the shipping version |
| `ComplianceVerdict.GateAccepts` | codex-main/scripts/mcp_conformance/run_codex_compliance.py:1744-1809 | the gate accepts exactly when both reports are valid under one policy, neither says that a shipping check failed, and none of their checks is newly failing or missing |
| `ComplianceGate.AcceptanceIsTransitive` | codex-main/scripts/mcp_conformance/run_codex_compliance.py:1744-1809 | gate success is transitive |
| `ComplianceGate.AcceptanceIsReflexive` | codex-main/scripts/mcp_conformance/run_codex_compliance.py:1744-1809 | a report is accepted against itself exactly when it is valid with a recorded policy and no shipping failure, which is exactly when it compacts |
| `ComplianceGate.ChainsHideNothing` | codex-main/scripts/mcp_conformance/run_codex_compliance.py:1744-1809 | over any chain of accepted baselines no new failure is hidden and no passing check is lost |
| `ReviewReader.FullReadingMeans` | codex-main/scripts/mcp_conformance/review_regressions.py:939-993 | a valid full report yields exactly the outcomes that its checks give by name and success |
| `ReviewReader.CompactReadingMeans` | codex-main/scripts/mcp_conformance/review_regressions.py:882-938 | a valid compact report yields exactly the outcomes of its two lists |
| `ReviewReader.BodyIsWellFormed` | codex-main/scripts/mcp_conformance/review_regressions.py:882-993 | every identity read, in either form, belongs to a required case and has the review prefix |
| `ReviewValidity.FullReportIsValid` | codex-main/scripts/mcp_conformance/review_regressions.py:859-1029 | a full report is read without problems if and only if it is valid: each required case once, with distinct well-formed checks and the success they add up to, and totals that are the sums over its cases |
| `ReviewValidity.CompactReportIsValid` | codex-main/scripts/mcp_conformance/review_regressions.py:859-1029 | a compact report is read without problems if and only if it is valid: the required cases once each, two lists of well-formed records without a repetition, and totals that are the lengths of the lists and the number of required cases with a passing record and no failing one |
| `ReviewScript.CollectRecords` | codex-main/scripts/mcp_conformance/review_regressions.py:907-938 | the loop over a list of compact records, against its definition |
| `ReviewScript.CollectChecks` | codex-main/scripts/mcp_conformance/review_regressions.py:963-988 | the loop over the checks of a case, against its definition |
| `ReviewScript.RequiredReviewChecks` | codex-main/scripts/mcp_conformance/review_regressions.py:859-1029 | the whole validator, with its totals |
| `ReviewScript.CompactReviewBaseline` | codex-main/scripts/mcp_conformance/review_regressions.py:1032-1067 | the compactor, against its definition |
| `ReviewScript.EvaluateReviewGate` | codex-main/scripts/mcp_conformance/review_regressions.py:1070-1110 | the gate: each list is the sorted listing of the identities it is about |
| `ReviewGate.CompactReadsBack` | codex-main/scripts/mcp_conformance/review_regressions.py:859-1067 | every report that compacts reads back from its compact form without problems, with exactly the same outcome for every check and consistent totals |
| `ReviewGate.CompactIsIdempotent` | codex-main/scripts/mcp_conformance/review_regressions.py:1032-1067 | compacting the compact form returns it unchanged |
| `ReviewGate.EitherFormGates` | codex-main/scripts/mcp_conformance/review_regressions.py:1070-1110 | the gate gives the same result with either form of the baseline |
| `ReviewGate.AcceptsMeans` | codex-main/scripts/mcp_conformance/review_regressions.py:1070-1110 | the gate succeeds exactly when both reports are valid and the candidate is no worse |
| `ReviewVerdict.GateLists` | codex-main/scripts/mcp_conformance/review_regressions.py:1070-1110 | for two valid reports, each of the four lists is exactly what the checks or records of the reports say, in order and once each |
| `ReviewGate.AcceptanceIsTransitive` | codex-main/scripts/mcp_conformance/review_regressions.py:1070-1110 | gate success is transitive |
| `ReviewGate.AcceptanceIsReflexive` | codex-main/scripts/mcp_conformance/review_regressions.py:1070-1110 | and reflexive exactly on valid reports |
| `ReviewGate.ChainsHideNothing` | codex-main/scripts/mcp_conformance/review_regressions.py:1070-1110 | over any chain of accepted baselines no failure is hidden and every passing check still passes |
| `ModuleBazelResults.ParseChecksumManifest` | codex-main/.github/scripts/rusty_v8_module_bazel.py:29-61 | the manifest loop, against its definition, with every error |
| `ModuleBazelResults.ManifestMeans` | codex-main/.github/scripts/rusty_v8_module_bazel.py:29-61 | a manifest that is read lists exactly its lines, each a SHA-256 digest and a bare file name |
| `ModuleBazelPatterns.ScriptIsLawful` | codex-main/.github/scripts/rusty_v8_module_bazel.py:64-69 | on a line: one field at most, none on a blank line, and a written checksum is read back with its indentation |
| `ModuleBazelEntries.ScriptFieldMeans` | codex-main/.github/scripts/rusty_v8_module_bazel.py:64-69 | the name, path and checksum of a line are read exactly as the pattern matches: space, the field, an equals sign, a quoted value that is not empty, a comma and space |
| `ModuleBazelUpdate.UpdateKeepsField` | codex-main/.github/scripts/rusty_v8_module_bazel.py:179-196 | rewriting a block keeps its name and path |
| `ModuleBazelUpdate.UpdateSetsSha` | codex-main/.github/scripts/rusty_v8_module_bazel.py:179-196 | after rewriting, the block reads as the checksum if and only if no sha256 field came before the place it goes |
| `ModuleBazelUpdate.SecondUpdateIsIdle` | codex-main/.github/scripts/rusty_v8_module_bazel.py:179-196 | rewriting a block again changes nothing if and only if the first did not insert before a blank line |
| `ModuleBazelFile.RenderParse` | codex-main/.github/scripts/rusty_v8_module_bazel.py:10-12 | the blocks and the lines between them are the file |
| `ModuleBazelFile.ParseRender` | codex-main/.github/scripts/rusty_v8_module_bazel.py:10-12 | segments as the parser finds them are found again after rendering |
| `ModuleBazelFile.EntriesAfter` | codex-main/.github/scripts/rusty_v8_module_bazel.py:72-96 | an updated file has the same entries, all with the right checksum if and only if all was clear |
| `ModuleBazelFile.CheckMeans` | codex-main/.github/scripts/rusty_v8_module_bazel.py:111-176 | the check accepts a file exactly when its entries have distinct paths that are the files of the manifest, and each has the checksum of its file |
| `ModuleBazelEntries.CheckOnBlocks` | codex-main/.github/scripts/rusty_v8_module_bazel.py:72-176 | the check accepts a file exactly when every http_file block of the version has a path, no two the same, the paths are the files of the manifest and there is one, and the first sha256 field of each block is the checksum of its file |
| `ModuleBazelFile.UpdateSatisfiesCheck` | codex-main/.github/scripts/rusty_v8_module_bazel.py:166-217 | whenever an update returns, the check accepts its output if and only if no entry has a sha256 field before the place of its checksum |
| `ModuleBazelFile.UpdateKeepsTheRest` | codex-main/.github/scripts/rusty_v8_module_bazel.py:179-217 | lines outside entry blocks are unchanged; in an entry block either the first line with a hexadecimal checksum is replaced, with the blank lines after it, or there is none and one is inserted after the first path, with the blank lines before it; every other line stays in place |
| `ModuleBazelFile.UpdateTwice` | codex-main/.github/scripts/rusty_v8_module_bazel.py:199-217 | a second update returns too, and changes nothing if and only if no checksum was inserted before a blank line |
| `ModuleBazelResults.ScriptUpdates` | codex-main/.github/scripts/rusty_v8_module_bazel.py:29-217 | the three results together, for every manifest and file with the patterns of the script |
| `ModuleBazelResults.TidyFilesConverge` | codex-main/.github/scripts/rusty_v8_module_bazel.py:166-217 | if entry blocks have no blank lines and only lowercase hexadecimal checksums, the check accepts every update and a second update changes nothing |
| `ModuleBazelResults.CheckRejectsUpdate` | codex-main/.github/scripts/rusty_v8_module_bazel.py:179-196 | an entry with a checksum that is not lowercase hexadecimal before its path: the check rejects the update's own output |
| `ModuleBazelResults.SecondUpdateChanges` | codex-main/.github/scripts/rusty_v8_module_bazel.py:179-196 | an entry without a checksum and with a blank line after its path: a second update changes the file |
| `ModuleBazelScript.HttpFiles` | codex-main/.github/scripts/rusty_v8_module_bazel.py:72-96 | the search loop finds the entries with their places, or the first one without a path |
| `ModuleBazelScript.EntrySetProblems` | codex-main/.github/scripts/rusty_v8_module_bazel.py:111-138 | the collector of missing, repeated and unlisted files |
| `ModuleBazelScript.ChecksumProblems` | codex-main/.github/scripts/rusty_v8_module_bazel.py:141-157 | the collector of missing and wrong checksums |
| `ModuleBazelScript.CheckText` | codex-main/.github/scripts/rusty_v8_module_bazel.py:166-176 | the check, against its definition |
| `ModuleBazelScript.SpliceIsUpdate` | codex-main/.github/scripts/rusty_v8_module_bazel.py:208-217 | splicing new blocks between old slices is updating segment by segment |
| `ModuleBazelScript.UpdateText` | codex-main/.github/scripts/rusty_v8_module_bazel.py:199-217 | the update loop, against its definition |

## Left out

- Subprocesses, HTTP, temporary directories and downloads: their outcomes are parameters or steps.
- The text of error messages: problems are tagged values; where the source has one message for each file, case or scenario, the model has one problem with the set of them.
- The printed summaries and matrices of the conformance and review runs, and the runs themselves: only the report they write is read.
- `rusty_v8_http_file_versions` and the command-line entry points of the scripts: easy members only.
- Fields of MODULE.bazel that are spread over several lines, which the patterns also accept because `\s` and `[^"]` match line ends: the model has a field on one line. Blank lines between fields are modelled as the patterns treat them.
- Modern-mode requests of the MCP fixture other than discovery, the notifications that only they produce, and its header validation.
- UTF-8 and the byte-order mark of an encoded stream: event streams are sequences of characters.
- Parsing of TOML role files and of role configuration: readings are given.
- The analytics reducer, the HTTP requests that carry batches, and the flush time-out: sending is a step that succeeds.
- ReleaseListing.GetReleaseMetadata: asset names are bare file names, as those of GitHub assets are; of a name with a slash the source would use the last path component. The safety results are about any list of asset names.
- Agent identity cryptography, notarisation, packaging, user interfaces and the experience store: not modelled.
