# remote-claw: verified model

A Dafny 4.11 model of remote-claw's encrypted transcript pipeline and of the broker beneath it, with proofs of
what they promise. `dafny verify dfyconfig.toml` checks everything.

| file | models |
|---|---|
| `Orderer.dfy`, `OrdererProperties.dfy`, `DedupWindow.dfy` | the viewer's bounded dedup, reordering and chunk grouping, and the span loop that cuts what it releases |
| `Delivery.dfy` | from posting a message to reading it: authentication, ordering, cutting and reassembly together |
| `Transcript.dfy`, `TranscriptProperties.dfy` | the page's merge of stream rows with optimistic local rows |
| `Channel.dfy` | one SQLite channel: publish, close, reopen, the absorbing terminal fence |
| `Subscription.dfy` | the paged poll-tail subscription, interleaved with everybody else's writes |
| `Backends.dfy` | the in-memory backend and the workflow relay, and when all backends agree |
| `CreateOnce.dfy` | provisioning with concurrent opens, crashes and loss of the store |
| `PromiseLock.dfy`, `ClientCache.dfy` | the promise-chain mutex and the ref-counted LRU of clients |
| `LivePreview.dfy` | preview coordinates and the broker's watermark row |
| `Announces.dfy`, `Presence.dfy`, `PreviewWatermark.dfy` | the announce order, freshness, the connection ladder, tombstones and the viewer's preview watermark |
| `Sse.dfy` | the event-stream printer and parser |
| `LiveText.dfy` | the bisection that bounds preview text |
| `IdentityStore.dfy` | creating and rotating the identity file over inodes |
| `Text.dfy`, `Canonical.dfy`, `Aad.dfy` | UTF-8, the canonical writer, the additional data of a header |
| `Base64url.dfy`, `Wire.dfy`, `Tokens.dfy`, `Chunks.dfy` | canonical text forms, the strict wire envelope, secrets and passes, chunked messages |
| `Common.dfy` | options, results, concatenation, decimal numerals, string order |

Objects that the source updates in place are classes whose methods are proved against a step function on their
value; protocols with several parties (subscribers, crashing opens, concurrent rotations, lock holders) are step
relations, and the results speak of every run.

Assumptions. The SQL engine makes each transaction one atomic step with rollback and AUTOINCREMENT ids strictly
increasing. JSON.stringify is injective on wire frames and its output is not empty and has no raw line feed;
TextDecoder in streaming mode turns any split of a body into texts that concatenate to the decoded body. The
cipher opens what it sealed, and a frame that opens was sent; SHA-256 is a parameter, except that the preview
row's fingerprint stands for the bytes it identifies. Text that only has to be compared is a Dafny string; text
whose UTF-16 units matter is a sequence of units. Clocks, temp names, and which failure strikes are inputs. The
relay is represented by what it promises: fresh client ids, one message per transcript number, receipts that
pair one client id of this page with one number.

Where the code and its own comments differ, the code is modelled:

- The subscription's comment says that the replay has drained when the channel reads closed; a publish and a
  close between its two queries can end the stream with a frame undelivered.
- `openMessage` says that it mirrors the library's same-message check, but it does not compare the version.
- Secrets and passes are said to have exactly one valid token; their checksum has several spellings.
- `pending` is described as a number of frames; it counts buffered numbers, each of which may hold several chunks.
- Rotation is described as leaving the old or the new secret at the path always; after a power loss this needs the
  directory fsync, whose failure is ignored.
- Dedup keys join id and part with a colon; ids with colons can collide, and the wire boundary admits them.
- The surrogate correction after the preview bisection never runs on well-formed text.

## Model

| member | source | states |
|---|---|---|
| `Orderer.FrameOrderer.constructor` | `packages/cli/src/broker/order.ts:27-30` | a fresh orderer has an empty window and buffer and starts at the given number |
| `Orderer.FrameOrderer.Mark` | `packages/cli/src/broker/order.ts:37-46` | reports whether the window holds the key; a new key is recorded and the oldest one leaves when the window overflows |
| `Orderer.FrameOrderer.ReleaseReady` | `packages/cli/src/broker/order.ts:85-97` | the drain loop releases exactly the complete slots from the cursor on and stops at a gap or an incomplete message |
| `Orderer.FrameOrderer.Accept` | `packages/cli/src/broker/order.ts:53-98` | the object follows the specified step: duplicates, old numbers, foreign, repeated and out-of-range parts return nothing |
| `OrdererProperties.CutReady` | `apps/web/app/lib/viewer.ts:901-926` | the span loop of the viewer computes the cut the lemmas below speak of |
| `OrdererProperties.CutFlatten` | `apps/web/app/lib/viewer.ts:901-926` | cutting a concatenation of whole messages gives those messages back |
| `OrdererProperties.ReleasesWholeMessagesInOrder` | `packages/cli/src/broker/order.ts:53-98` | for any frames, consistent or not: the content released is one whole message per number, consecutive from the start, parts 0..parts-1 in order, each frame one that arrived |
| `OrdererProperties.ViewerCutsEachReleaseExactly` | `apps/web/app/lib/viewer.ts:901-926` | what one accept returns is cut by the viewer exactly at the boundaries of the messages released |
| `OrdererProperties.StalledIffPending` | `packages/cli/src/broker/order.ts:106-129` | delivery is stalled exactly when content is buffered |
| `OrdererProperties.CursorIsLeastMissing` | `packages/cli/src/broker/order.ts:53-98` | for a consistent sender the cursor is the least number whose message has not fully arrived and the output is exactly the messages before it |
| `OrdererProperties.TranscriptIsConfluent` | `packages/cli/src/broker/order.ts:37-98` | transcript and cursor depend only on the set of frames received: not on order, repetition, window size or any eviction |
| `OrdererProperties.TranscriptOnlyGrows` | `packages/cli/src/broker/order.ts:53-98` | for any frames, a longer run extends the transcript already released |
| `DedupWindow.KeysCollideIff` | `packages/cli/src/broker/order.ts:32-34` | for any ids, two frames share a dedup key if and only if they are the same part of the same message, or one is whole and its id is the other's id, a colon and part number; chunks never collide |
| `DedupWindow.ColonFreeKeysNameOnePart` | `packages/cli/src/broker/order.ts:32-34` | so with colon-free ids a key names one part of one message |
| `DedupWindow.CollidingFrameIsLost` | `packages/cli/src/broker/order.ts:37-54` | in any run, a frame that follows one with its key changes nothing and is handed to nobody |
| `DedupWindow.CollidingKeysLoseAFrame` | `packages/cli/src/broker/order.ts:32-54` | whatever the id, its second chunk and a whole frame of another entry can collide, and the entry of the second to arrive stays empty |
| `DedupWindow.WideWindowForgetsNothing` | `packages/cli/src/broker/order.ts:37-46` | while the distinct keys fit the window it holds exactly the keys received |
| `DedupWindow.ControlIsExactlyOnce` | `packages/cli/src/broker/order.ts:53-57` | while the distinct keys fit the window a control frame is handed over exactly once |
| `DedupWindow.ControlRepeatsIff` | `packages/cli/src/broker/order.ts:37-57` | for every window size, a control frame handed over once is handed over again if and only if at least as many keys as the window holds were recorded in between |
| `DedupWindow.ControlRepeatsAfterNewKeys` | `packages/cli/src/broker/order.ts:37-57` | fewer distinct keys in between never suffice; that many keys that never came before always do; keys the window already held do not count |
| `DedupWindow.ControlCanRepeatIff` | `packages/cli/src/broker/order.ts:37-57` | some order of arrival over a received set repeats a control frame if and only if the set has more keys than the window holds |
| `Delivery.SealedIsPosted` | `packages/cli/src/broker/client.ts:345-368` | the frames that posting a message seals carry its pieces under their own headers |
| `Delivery.SentIsConsistent` | `packages/cli/src/broker/order.ts:37-98` | entries posted with ids of their own, none of which spells another frame's key, meet the discipline that the ordering results ask for |
| `Delivery.PostedIsRead` | `apps/web/app/lib/viewer.ts:901-926` | one posted entry, chunked or not, is read as its plaintext |
| `Delivery.TranscriptIsWhatWasPosted` | `apps/web/app/lib/viewer.ts:876-926` | a broker may drop, repeat and reorder what was sent and mix in frames that do not authenticate: the viewer reads exactly the posted plaintexts in order, up to the first entry of which a frame is missing |
| `TranscriptProperties.IdsStayUnique` | `apps/web/app/page.tsx:194-232` | after any history of sends, rows, receipts and failures no two rows share an id |
| `TranscriptProperties.ReconcileKeepsUnique` | `apps/web/app/page.tsx:495-512` | a receipt keeps ids unique |
| `TranscriptProperties.RowsAreRendered` | `apps/web/app/page.tsx:194-232` | after any legal history, receipts for messages sent elsewhere included, the visible rows are the rendering of what was learned: stream rows in order of first arrival, then the sends still without content |
| `TranscriptProperties.InterleavingsAgreeIff` | `apps/web/app/page.tsx:194-532` | histories with the same stream order, sends and receipts for them show the same rows if and only if, for every row not sent here, the last receipt that followed its echo agrees, and the same unacknowledged sends have failed |
| `TranscriptProperties.MarkedIsLastMark` | `apps/web/app/page.tsx:495-512` | after any history, a row carries the client id of the last receipt from elsewhere that found it in the stream, and none if each came before |
| `TranscriptProperties.DoubtedIsFailed` | `apps/web/app/page.tsx:514-532` | after any history, a send is in doubt if and only if a failure struck it after it was sent and before its receipt |
| `TranscriptProperties.EveryEchoIsOneRow` | `apps/web/app/page.tsx:194-512` | every stream row is exactly one row of the page, as its sender's receipt left it |
| `TranscriptProperties.OneCanonicalRow` | `apps/web/app/page.tsx:194-512` | a message whose echo and receipt have both arrived is one row: the echo's text and number, accepted, not in doubt |
| `TranscriptProperties.StreamOrderIsKept` | `apps/web/app/page.tsx:221-231` | numbered rows keep stream order and stand ahead of every row that waits for content |
| `TranscriptProperties.AcceptedNeverRegresses` | `apps/web/app/page.tsx:495-532` | an accepted row stays present, accepted and out of doubt under every legal event, and changes its sender only for a later receipt with its number |
| `TranscriptProperties.ForeignReceiptDependsOnOrder` | `apps/web/app/page.tsx:495-512` | a receipt for a message this page never sent marks a shown echo but is lost when it comes first, in two legal histories of the same rows |
| `Channel.SqliteChannel.constructor` | `apps/web/lib/broker/sqlite-multi.ts:226-248` | a fresh channel: incarnation 0, live, empty log, no fence |
| `Channel.SqliteChannel.PublishFrame` | `apps/web/lib/broker/sqlite-multi.ts:892-974` | the write transaction follows the specified outcome, rolls everything back on a collision, and reports whether it began an incarnation |
| `Channel.SqliteChannel.CloseChannel` | `apps/web/lib/broker/sqlite-multi.ts:797-814` | a close marks the channel and keeps every row |
| `Channel.SqliteChannel.MaxSeq` | `apps/web/lib/broker/sqlite-multi.ts:1041-1061` | None for a closed channel; otherwise the greatest number of the live incarnation, so that resuming above it reuses none |
| `Channel.LogIsAppendOnly` | `apps/web/lib/broker/sqlite-multi.ts:892-974` | over every run incarnations only advance, frames are only appended, and each non-null (gen, msg_id, part) holds one frame |
| `Channel.ReplayLeavesChannelUnchanged` | `apps/web/lib/broker/sqlite-multi.ts:937-963` | republishing at an occupied coordinate of a live channel changes nothing, and fails exactly when the frame differs and is not fenced |
| `Channel.ReopeningAlwaysAppends` | `apps/web/lib/broker/sqlite-multi.ts:926-952` | a publish to a closed channel begins the next incarnation, which then holds that frame only |
| `Channel.PastIncarnationsAreFrozen` | `apps/web/lib/broker/sqlite-multi.ts:920-936` | an incarnation that is closed or succeeded never grows again |
| `Channel.FenceHoldsOverRuns` | `apps/web/lib/broker/sqlite-multi.ts:899-971` | over whole runs and incarnations the fence is exactly the sessions with a stored terminal, and no terminal or announce of such a session is appended |
| `Channel.FenceHoldsFromLegacyLog` | `apps/web/lib/broker/sqlite-multi.ts:250-259` | the same from any stored log once the projection is rebuilt |
| `Subscription.CursorIsClamp` | `apps/web/lib/broker/sqlite-multi.ts:1238-1268` | the id cursor skips exactly the rows that the in-memory clamp of the start index skips, however sparse the ids |
| `Subscription.DeliversPrefixOfLog` | `apps/web/lib/broker/sqlite-multi.ts:1108-1268` | after any interleaving of publishes, closes, reopenings and failures the frames delivered are a prefix of the pinned incarnation's log from the start index, clamped into that log as it was when the cursor was resolved |
| `Subscription.EndedStreamIsCompleteIffQuiet` | `apps/web/lib/broker/sqlite-multi.ts:1189-1212` | a stream the poll loop ended holds its whole incarnation if and only if nothing was appended between its last empty page and its channel query |
| `Subscription.PublishThenCloseCanBeMissed` | `apps/web/lib/broker/sqlite-multi.ts:1157-1212` | a run in which a frame stored before the close is never delivered |
| `Backends.RelayWorkflow` | `apps/web/workflows/relay.ts:48-73` | the relay emits the filtered stream of the payloads before the close |
| `Backends.LocalBackend.constructor` | `apps/web/lib/broker/local.ts:42-46` | a fresh backend holds nothing for any token |
| `Backends.LocalBackend.FanOut` | `apps/web/lib/broker/local.ts:94-100` | every live subscriber receives the frame, and one whose enqueue throws drops out |
| `Backends.LocalBackend.PublishPayload` | `apps/web/lib/broker/local.ts:68-128` | one token's channel and fence follow the specified step; other tokens are untouched |
| `Backends.LocalBackend.Subscribe` | `apps/web/lib/broker/local.ts:130-160` | replay from the clamped index and registration under a number not used before, or None without creating a channel |
| `Backends.LocalStreamsStayExact` | `apps/web/lib/broker/local.ts:115-160` | over every run of publishes, closes and subscriptions, whichever consumers go away, every live in-memory stream has received exactly the log from its start index |
| `Backends.LiveStreamGetsEveryFrameSince` | `apps/web/lib/broker/local.ts:68-128` | a stream still live after a run saw no close and has been sent exactly the frames published since that pass the fence, in order |
| `Backends.BackendsAgreeIffNoReuse` | `apps/web/lib/broker/local.ts:68-128` | the in-memory backend and the SQLite log show the same stream after every step, closes included, if and only if no publish reuses a coordinate of its incarnation |
| `Backends.LocalIsFiltered` | `apps/web/lib/broker/local.ts:77-127` | without a close the in-memory log is the filtered stream of the payloads |
| `Backends.ThreeBackendsOneStream` | `apps/web/workflows/relay.ts:54-72` | on a close-free history without reuse all three backends expose one stream |
| `CreateOnce.FrameImpliesBothWitnesses` | `apps/web/lib/broker/sqlite-multi.ts:729-765` | at every crash point of every run a stored frame implies the witness row and the catalogue row |
| `CreateOnce.LossIsPermanentIffNoStaleOpen` | `apps/web/lib/broker/sqlite-multi.ts:507-541` | a catalogued token whose core tables are gone can be provisioned again if and only if some client, known or not, is between listing the tables and its DDL, or an open that asked the catalogue before the token was in it has not yet listed them and can come to a store |
| `CreateOnce.LostTokenRestartsIff` | `apps/web/lib/broker/sqlite-multi.ts:729-765` | such a token can be witnessed again, and can hold a frame again, if and only if it can be provisioned again and some client has not learnt of the catalogue row |
| `CreateOnce.LossSurvivesRestart` | `apps/web/lib/broker/sqlite-multi.ts:507-541` | after a restart a lost token is never provisioned, witnessed or appended to again |
| `CreateOnce.RetryCompletesCreation` | `apps/web/lib/broker/sqlite-multi.ts:543-583` | wherever a creation crashed short of a loss, a fresh open completes it and stores its frame |
| `IdentityStore.StepKeepsConsistent` | `packages/cli/src/store.ts:294-312` | every step keeps finished temps complete and unnamed, temps private and replaced inodes unnamed |
| `IdentityStore.CanonicalIsAlwaysComplete` | `packages/cli/src/store.ts:362-519` | over every interleaving of creations and rotations the canonical path, when present, names a fully written, never scrubbed inode; so does the backup |
| `IdentityStore.DurableEntryIsAlwaysComplete` | `packages/cli/src/store.ts:487-500` | with successful directory fsyncs the same holds of every entry that may survive a power loss |
| `IdentityStore.OnceCreatedStays` | `packages/cli/src/store.ts:294-312` | while the power stays on only a rename moves an existing canonical entry; nothing removes it |
| `IdentityStore.OnceDurableStays` | `packages/cli/src/store.ts:335-345` | a durable canonical entry never vanishes, whatever runs, whichever fsyncs fail and however often the power is lost |
| `IdentityStore.CreationIsDurableIff` | `packages/cli/src/store.ts:294-312` | a created file can vanish in a power loss if and only if no directory fsync has succeeded since; creation itself makes none |
| `IdentityStore.FailedRotationLeavesNoBackup` | `packages/cli/src/store.ts:501-509` | once nobody runs, a backup in place is one that a completed rotation kept or that was there before |
| `IdentityStore.FailureKeepsCanonical` | `packages/cli/src/store.ts:501-509` | a failing process leaves the canonical entry and every inode alone and removes only its own backup |
| `IdentityStore.BackupHoldsReplacedSecretIff` | `packages/cli/src/store.ts:474-485` | over every run from a keeping rotation's load: when it is about to rename, the backup holds the secret being replaced if and only if nobody has renamed since the load |
| `IdentityStore.KeptSecretSurvivesIff` | `packages/cli/src/store.ts:474-486` | the old secret of a completed keeping rotation survives every power loss under one name or the other if and only if some directory fsync succeeded after the backup was linked |
| `IdentityStore.OldFileIsDurableIff` | `packages/cli/src/store.ts:487-496` | from a rotation's opening of the old file, whoever else acts: a power loss may bring that file back if and only if no directory fsync has succeeded after a rename since, its own or anybody's |
| `IdentityStore.PowerLossBreaksIff` | `packages/cli/src/store.ts:487-500` | from rest, over every run of creations and rotations with any fsync failing: a power loss can leave an unusable canonical file if and only if some rotation has overwritten the file it opened and from that opening on no directory fsync has succeeded after a rename |
| `IdentityStore.UnsyncedScrubCanSurface` | `packages/cli/src/store.ts:335-345` | from any disk at rest, so does a rotation whose directory fsync fails silently |
| `Sse.ParseSseRecord` | `packages/cli/src/broker/client.ts:780-791` | the line loop computes the record the lemmas speak of |
| `Sse.SseData` | `packages/cli/src/broker/client.ts:677-777` | yields and outcome are a function of the concatenated text and the way the stream ended: no chunk boundary matters |
| `Sse.SseResponse` | `apps/web/lib/http.ts:40-117` | the pieces enqueued concatenate to the printed body |
| `Sse.RecordsAppend` | `packages/cli/src/broker/client.ts:714-719` | text that arrives later leaves the complete records alone |
| `Sse.ParserReadsWhatPrinterWrote` | `packages/cli/src/broker/client.ts:703-764` | for any frames, pings, ending and split into chunks: exactly the payloads in order, then the rotation error, the reported error or the unexpected end (section 9.2 of the WHATWG HTML standard) |
| `Sse.EmptyBodyCompletes` | `apps/web/lib/http.ts:124-132` | the absent-channel body completes cleanly and yields nothing |
| `Sse.CompletionMeansSilence` | `packages/cli/src/broker/client.ts:698-712` | whatever the bytes, a normal completion without an abort means nothing was yielded |
| `Sse.LostConnectionKeepsPrefix` | `packages/cli/src/broker/client.ts:703-764` | a body cut anywhere yields a prefix of the payloads and is never taken for a clean completion |
| `LiveText.Search` | `packages/cli/src/broker/live-output.ts:102-108` | the bisection ends at a prefix that fits while its one-unit extension does not, though fitting is not monotone |
| `LiveText.BoundLiveText` | `packages/cli/src/broker/live-output.ts:98-111` | a prefix within the budget, the whole text exactly when it fits; for well-formed text well formed again, the correction never used, and one more scalar exceeds the budget less two bytes |
| `LiveText.SearchEndsAtBoundary` | `packages/cli/src/broker/live-output.ts:104-109` | in well-formed text the search never ends inside a pair |
| `LiveText.LongestIffNoFittingPair` | `packages/cli/src/broker/live-output.ts:104-110` | the result is the longest fitting cut if and only if the next scalar is not a pair that would still have fitted |
| `LiveText.FittingIsNotMonotone` | `packages/cli/src/broker/live-output.ts:106-107` | a text whose shorter prefix is over the budget and whose longer one is within |
| `Announces.CurrentIsLinearIff` | `apps/web/app/lib/viewer.ts:150-185` | for current announces whose incarnation fixes its start, acceptance is a strict total order if and only if no incarnation reuses a number |
| `Announces.LegacyIsLinearIff` | `apps/web/app/lib/viewer.ts:150-185` | for legacy announces if and only if no two share a timestamp |
| `Announces.ConvergesIffLinear` | `apps/web/app/lib/viewer.ts:150-185` | every two streams over the same announces, in any order and with any repetition, end at the same announce if and only if acceptance is a strict total order |
| `Announces.MixedAnnouncesCycle` | `apps/web/app/lib/viewer.ts:150-185` | three mixed announces of which each replaces the one before |
| `Announces.FreshnessNeverExceedsReceipt` | `apps/web/app/lib/viewer.ts:250-270` | no stream of announces makes a row fresher than the viewer's own clock |
| `Announces.ReplayNeverFreshens` | `apps/web/app/lib/viewer.ts:250-270` | in a homogeneous stream a replay of any received announce, however late, never makes the row fresher |
| `Announces.HeldReplayChangesNothing` | `apps/web/app/lib/viewer.ts:250-270` | when replacing keeps what is accounted for, a replay of any received announce leaves the freshness as it is, whenever it comes and however the clock moves |
| `Announces.ReplaysHarmlessIff` | `apps/web/app/lib/viewer.ts:150-270` | over all streams of announces from a set no replay ever makes a row fresher if and only if a row that accounts for an announce is replaced only by one that does |
| `Announces.MixedReplayFreshens` | `apps/web/app/lib/viewer.ts:150-270` | the three mixed announces that cycle are not such a set |
| `Announces.MixedReplayCanBeHarmless` | `apps/web/app/lib/viewer.ts:150-270` | another mixed set is |
| `Announces.ConnectedOnReceiptIff` | `apps/web/app/lib/viewer.ts:250-270` | a first announce shows connected on receipt if and only if its timestamp lies within the stated bounds |
| `Announces.LadderFollowsFirstStale` | `apps/web/app/lib/viewer.ts:83-105` | however often it is evaluated, a row shows one full reconnecting window from its first stale evaluation, then stays disconnected until fresh |
| `Announces.ConnectedNeverSnapsToDisconnected` | `apps/web/app/lib/viewer.ts:83-105` | a row is never disconnected right after it was connected |
| `Presence.ViewerPresence.OnTerminal` | `apps/web/app/lib/viewer.ts:640-648` | a tombstone is recorded and reported once, and drops the row and the preview |
| `Presence.ViewerPresence.OnAnnounce` | `apps/web/app/lib/viewer.ts:650-714` | an announce of a tombstoned session, by header or payload, or an older one changes nothing; otherwise its row is stored and yielded |
| `Presence.ViewerPresence.ReadLiveOutput` | `apps/web/app/lib/viewer.ts:956-979` | the newer of watermark and incoming preview is kept and shown, under the stated eligibility and age checks |
| `Presence.TombstoneIsForever` | `apps/web/app/lib/viewer.ts:640-661` | after a terminal no event brings back the row or shows the preview |
| `Presence.RowIsLatest` | `apps/web/app/lib/viewer.ts:650-700` | over every run a session that has not ended lists the outcome of exactly the announces that no tombstone of their routing id dropped |
| `Presence.PresenceIsConfluent` | `apps/web/app/lib/viewer.ts:612-715` | viewers that received the same terminals and announces of a session, in any order and with any repetition, hold the same announce for it, if acceptance orders them and none is routed under another session that ends |
| `Presence.PresenceConvergesIff` | `apps/web/app/lib/viewer.ts:612-715` | for a session whose announces acceptance orders, the order and repetition of a set of events is invisible if and only if it ends or its newest announce also comes under a routing id that does not |
| `Presence.ForeignRoutingDependsOnOrder` | `apps/web/app/lib/viewer.ts:651-661` | so an announce routed only under another session that ends is kept or dropped depending on the order |
| `PreviewWatermark.NeverRewindsIff` | `apps/web/app/lib/viewer.ts:956-979` | over every run of announces from a set, terminals and reads of whatever the broker returns, the shown preview never goes back if and only if replacement leads from no incarnation whose previews may be shown to an earlier such one |
| `PreviewWatermark.CurrentPreviewNeverGoesBack` | `apps/web/app/lib/viewer.ts:956-979` | so with current announces it never does, within an incarnation or to an earlier one |
| `PreviewWatermark.MixedAnnouncesRewindPreview` | `apps/web/app/lib/viewer.ts:956-979` | with a legacy announce between a later and an earlier incarnation it can |
| `LivePreview.ComparatorIsTotal` | `packages/cli/src/broker/live-output.ts:71-80` | the comparator's sign flips with its arguments and zero is equality |
| `LivePreview.ComparatorIsTransitive` | `packages/cli/src/broker/live-output.ts:71-80` | the comparator is transitive |
| `LivePreview.ParseInvertsId` | `packages/cli/src/broker/live-output.ts:57-69` | parsing inverts printing on every coordinate the pattern and the safe-integer check admit |
| `LivePreview.IdInvertsParse` | `packages/cli/src/broker/live-output.ts:62-69` | an accepted id is the one spelling of its coordinate |
| `LivePreview.LiveStore.constructor` | `apps/web/lib/broker/sqlite-multi.ts:221-225` | no preview, no channel |
| `LivePreview.LiveStore.PutLiveOutput` | `apps/web/lib/broker/sqlite-multi.ts:976-1019` | false without a live channel, a collision at the watermark with other bytes, otherwise the row moves only on a strict increase |
| `LivePreview.LiveStore.GetLiveOutput` | `apps/web/lib/broker/sqlite-multi.ts:1021-1039` | the frame of the live incarnation unless expired; expiry drops only the ciphertext |
| `LivePreview.ReaderGetsNewestUnexpired` | `apps/web/lib/broker/sqlite-multi.ts:976-1039` | over every run a reader gets the first offer with the greatest coordinate of this incarnation if and only if the channel is live and that offer has not expired |
| `LivePreview.NoOfferNothingToRead` | `apps/web/lib/broker/sqlite-multi.ts:1024-1026` | a preview of an earlier incarnation is never returned |
| `LivePreview.WatermarkCollidesIff` | `apps/web/lib/broker/sqlite-multi.ts:996-998` | an offer collides if and only if it has the newest coordinate and other bytes, also after expiry |
| `LivePreview.WatermarkNeverRegresses` | `apps/web/lib/broker/sqlite-multi.ts:989-1013` | within an incarnation the watermark never moves back and the expiry moves only with it |
| `PromiseLock.MutualExclusionInFifoOrder` | `apps/web/lib/broker/sqlite-multi.ts:168-184` | without evictClient never two callers at once, and in the order of the calls |
| `PromiseLock.TailIsCleanedUpIffIdle` | `apps/web/lib/broker/sqlite-multi.ts:180-183` | the map entry is gone if and only if nobody waits or runs |
| `PromiseLock.NobodyIsStuck` | `apps/web/lib/broker/sqlite-multi.ts:625-640` | whatever was evicted, the first unfinished caller runs or may start |
| `PromiseLock.EvictionBreaksExclusionIff` | `apps/web/lib/broker/sqlite-multi.ts:650-661` | in every reachable state, earlier evictions included, dropping the map entry lets two callers come to run at once if and only if some call is unfinished |
| `PromiseLock.IdleEvictionsKeepExclusion` | `apps/web/lib/broker/sqlite-multi.ts:168-184` | runs whose evictions all find every call done keep exclusion and call order |
| `ClientCache.SessionDbCache.constructor` | `apps/web/lib/broker/sqlite-multi.ts:495-505` | an empty cache |
| `ClientCache.SessionDbCache.Evict` | `apps/web/lib/broker/sqlite-multi.ts:663-679` | the loop computes the eviction pass; afterwards the cache fits or every entry is in use |
| `ClientCache.SessionDbCache.Borrow` | `apps/web/lib/broker/sqlite-multi.ts:586-590` | the entry becomes the most recent and gains a reference |
| `ClientCache.SessionDbCache.FinishLease` | `apps/web/lib/broker/sqlite-multi.ts:594-609` | a ready schema turns the borrow into a lease and runs the pass |
| `ClientCache.SessionDbCache.AbandonLease` | `apps/web/lib/broker/sqlite-multi.ts:596-607` | a failed schema gives the reference back and closes a mapped entry nobody else uses |
| `ClientCache.SessionDbCache.ReleaseLease` | `apps/web/lib/broker/sqlite-multi.ts:616-621` | a release gives one reference back once and runs the pass |
| `ClientCache.SessionDbCache.DropClient` | `apps/web/lib/broker/sqlite-multi.ts:650-661` | a connection error unmaps and closes the client |
| `ClientCache.LeasedClientIsClosedIffReportedBroken` | `apps/web/lib/broker/sqlite-multi.ts:543-679` | over every run an outstanding lease's client is closed if and only if evictClient was called on it |
| `ClientCache.OneClientPerTokenAndNoLeak` | `apps/web/lib/broker/sqlite-multi.ts:543-583` | one client is mapped for each token, mapped clients are open, and every client not mapped has been closed |
| `ClientCache.PassFitsOrAllInUse` | `apps/web/lib/broker/sqlite-multi.ts:663-679` | after a pass the cache fits or everything is in use, and no more was closed than needed |
| `ClientCache.PassClosesOldestIdle` | `apps/web/lib/broker/sqlite-multi.ts:663-679` | a client the pass closes was idle and is older than every idle client it leaves |
| `ClientCache.DoubleReleaseIsHarmless` | `apps/web/lib/broker/sqlite-multi.ts:616-621` | a second release, however late, changes nothing |
| `Text.HasLoneSurrogate` | `packages/clawsec/src/canonical.ts:74-88` | the scan reports exactly the texts in which some surrogate is not half of a pair |
| `Text.Utf8IsInjective` | `packages/clawsec/src/canonical.ts:117-124` | UTF-8 (section 3 of RFC 3629) is injective on the texts that pass the scan |
| `Text.LoneSurrogatesCollapse` | `packages/clawsec/src/canonical.ts:74-88` | without the scan it would not be |
| `Canonical.PrefixedIsPrefixFree` | `packages/clawsec/src/canonical.ts:52-58` | a length-prefixed field determines itself and what follows |
| `Canonical.RecordsAreInjective` | `packages/clawsec/src/canonical.ts:111-168` | records with the same kinds of fields are told apart by their bytes |
| `Canonical.CanonicalWriter.constructor` | `packages/clawsec/src/canonical.ts:96-99` | a fresh writer is open and empty |
| `Canonical.CanonicalWriter.EncodedBytes` | `packages/clawsec/src/canonical.ts:52-58` | the prefix and the snapshot, or an error above 2^32-1 bytes |
| `Canonical.CanonicalWriter.EncodedUint` | `packages/clawsec/src/canonical.ts:60-72` | eight big-endian bytes exactly for a non-negative safe integer that is not minus zero |
| `Canonical.CanonicalWriter.Bytes` | `packages/clawsec/src/canonical.ts:111-114` | adds the field, or changes nothing and names the error |
| `Canonical.CanonicalWriter.Str` | `packages/clawsec/src/canonical.ts:117-124` | adds the field exactly for an open writer and a well-formed text that is not too long |
| `Canonical.CanonicalWriter.Uint` | `packages/clawsec/src/canonical.ts:127-130` | adds the field exactly for an open writer and a safe unsigned integer |
| `Canonical.CanonicalWriter.OptionalUint` | `packages/clawsec/src/canonical.ts:133-141` | adds the absent or the present field |
| `Canonical.CanonicalWriter.OptionalStr` | `packages/clawsec/src/canonical.ts:144-156` | adds the absent or the present field |
| `Canonical.CanonicalWriter.OptionalBytes` | `packages/clawsec/src/canonical.ts:159-167` | adds the absent or the present field |
| `Canonical.CanonicalWriter.Finish` | `packages/clawsec/src/canonical.ts:174-184` | seals the writer; every call returns the bytes of the fields written before the first |
| `Canonical.CanonicalWriter.Destroy` | `packages/clawsec/src/canonical.ts:187-194` | leaves neither fields nor bytes and refuses every further use |
| `Aad.CanonicalAad` | `packages/clawsec/src/aad.ts:38-79` | succeeds exactly on the accepted headers and returns the record of their eleven fields |
| `Aad.AadIsInjective` | `packages/clawsec/src/aad.ts:38-79` | distinct accepted headers have distinct additional data |
| `Wire.AadIsTotalPastTheBoundary` | `packages/clawsec/src/wire.ts:257-302` | no frame that decodeFrame accepts can fail in the additional data |
| `Base64url.DecodeInvertsEncode` | `packages/clawsec/src/base64url.ts:4-21` | decoding inverts encoding |
| `Base64url.ReencodesIffNoUnusedBits` | `packages/clawsec/src/base64url.ts:4-21` | encoding a decoded text gives it back if and only if its unused bits are zero (section 3.5 of RFC 4648) |
| `Base64url.CanonicalSpellingIsUnique` | `packages/clawsec/src/wire.ts:222-229` | the re-encode check admits exactly one spelling per byte string |
| `Base64url.UnusedBitsGiveOtherSpellings` | `packages/clawsec/src/base64url.ts:11-21` | without it there are several |
| `Base64url.Base64urlEncode` | `packages/clawsec/src/base64url.ts:4-8` | the loop, btoa and the replacements compute the encoding |
| `Base64url.Base64urlDecode` | `packages/clawsec/src/base64url.ts:11-21` | the alphabet test, the padding, atob and the output loop compute the decoding |
| `Wire.HexSpelling` | `packages/clawsec/src/bytes.ts:24-40` | a text reads as the bytes if and only if it is their spelling up to the case of its letters |
| `Wire.HasControlChar` | `packages/clawsec/src/wire.ts:144-150` | the loop finds exactly the ASCII control characters |
| `Wire.ReqBytesIff` | `packages/clawsec/src/wire.ts:213-231` | a byte field is accepted if and only if it is the encoding, of the given length |
| `Wire.RawDecodesIff` | `packages/clawsec/src/wire.ts:257-302` | values are accepted if and only if they spell a frame within the limits, and are read as that frame |
| `Wire.DecodeInvertsEncodeIff` | `packages/clawsec/src/wire.ts:67-87` | decodeFrame inverts encodeFrame on exactly the frames within the limits |
| `Wire.ReencodingNormalises` | `packages/clawsec/src/wire.ts:67-87` | encoding what was decoded gives the same values with a lowercase identity and no extra properties, and decodes to the same frame |
| `Tokens.ChecksumAcceptedIff` | `packages/clawsec/src/checksum.ts:9-24` | a checksum text is accepted if and only if it spells the four letters up to case, O for 0 and I or L for 1 |
| `Tokens.TokenAcceptedIff` | `packages/clawsec/src/secret.ts:43-74` | a token is accepted as a payload if and only if prefix and body are the formatter's and the checksum spells it |
| `Tokens.SecretRoundTrip` | `packages/clawsec/src/secret.ts:29-74` | parseSecret inverts formatSecret, and accepts nothing but its token with the checksum respelled |
| `Tokens.ChecksumHasOtherSpellings` | `packages/clawsec/src/secret.ts:62-72` | a secret has several valid tokens: a checksum letter may be in lowercase |
| `Tokens.FormatPass` | `packages/clawsec/src/pass.ts:48-59` | the filled buffer holds the four keys side by side; other key lengths are refused |
| `Tokens.PassAcceptedIff` | `packages/clawsec/src/pass.ts:66-100` | a token parses as an identity if and only if it is the pass of its keys up to checksum spelling and its id is the derived one |
| `Tokens.PassRoundTrip` | `packages/clawsec/src/pass.ts:48-100` | parsing a formatted pass gives the identity back if and only if its id is the derived one |
| `Chunks.SplitPlaintext` | `packages/clawsec/src/chunk.ts:30-43` | pieces that concatenate to the plaintext, all full but the last, none over the limit |
| `Chunks.SplitIsDetermined` | `packages/clawsec/src/chunk.ts:30-43` | those conditions determine the pieces |
| `Chunks.SplitOfIsSplit` | `packages/clawsec/src/chunk.ts:30-43` | the recursive splitting that sealing is specified by meets them |
| `Chunks.SealChunked` | `packages/clawsec/src/chunk.ts:46-62` | one sealed frame per piece with its part and the count in the header, refused exactly above the cap |
| `Chunks.WholeCovers` | `packages/clawsec/src/chunk.ts:97-116` | a whole message covers every part |
| `Chunks.OpenChunked` | `packages/clawsec/src/chunk.ts:87-119` | succeeds exactly on a whole message whose frames open, and returns the pieces in part order |
| `Chunks.OpenMessage` | `packages/cli/src/broker/client.ts:381-417` | the same without the cap and without comparing versions |
| `Chunks.CarriesIff` | `packages/clawsec/src/chunk.ts:97-118` | frames carry at most one list of pieces, and one exactly when they are whole and all open |
| `Chunks.ShuffledChunksReopen` | `packages/clawsec/src/chunk.ts:46-119` | the sealed chunks of a message in any order open to the original plaintext in both readers |
| `Chunks.ReadersDifferIff` | `packages/cli/src/broker/client.ts:381-417` | openMessage and openChunked differ if and only if the message opens and is over the cap or mixes versions |

## Left out

- AES-GCM, HKDF, SHA-256 and randomness: nothing is claimed about their strength.
- The SQL engine, the Turso platform calls, readiness probing and the hook SDK: each transaction or call is one step.
- Timers, fetch and abort plumbing: a timeout, an abort or a disconnect is an event that may happen at any time.
- React components, CLI dispatch, help, QR codes, certificates, trace redaction and the handoff table.
- `frameCount`, which reads the same rows as `maxSeq`, and the catalogue's paging.
- JavaScript numbers above 2^53 in sequence numbers, ids and expiry times, where addition would round.
- Subscription.DeliversPrefixOfLog: a prefix rather than the whole log at close, because the code's two queries allow a miss; the exact condition is the lemma after it.
- CreateOnce.LossIsPermanentIffNoStaleOpen: a statement of an open client whose file is gone leaves a fresh empty file, as the code says of local SQLite; with the cloud driver it fails instead, and such a client alone brings no store back. A store that reappears with its old rows is not modelled.
- IdentityStore.CanonicalIsAlwaysComplete: without power loss it needs nothing; with power loss it needs directory fsyncs, exactly as `PowerLossBreaksIff` states. Creation is durable only after some later directory fsync, as `CreationIsDurableIff` states. Permission and symlink checks, the created-at sidecar, the expected-id check at load time, failing unlinks and a power loss that undoes an overwrite not yet fsynced are not modelled.
- Image payloads of a transcript row.
- Presence.PresenceIsConfluent: announces are compared without their freshness, which depends on the times of receipt. Session settings carried from one announce to the next are not modelled.
- Sse.SseData: the byte-level watchdog is the event `Idle`; zero-length reads are chunks of no text.
- Chunks.OpenChunked: errors carry no reason; a header number that is minus zero or a fraction is refused here at once, while the code lets the cipher refuse it.
- Canonical.CanonicalWriter.Finish: the defensive copies and the erasing of buffers are about aliasing, which values do not have.
- Tokens.ChecksumAcceptedIff: characters whose uppercase form has several units are left as they are; they match no checksum letter either way.
- LivePreview.ReaderGetsNewestUnexpired: readers that dropped expired ciphertext had clocks no later than the reader's.
