# A verified model of the ingest-to-alert path

This project models the stateful core of the Aegis backend in Dafny and proves what that core promises.
Scored windows arrive on a partitioned log, become detections, are folded into alert cases, stored as rows,
announced on a live stream, paged through by cursor and exported as PDF. Beside that path stand the parts
that keep access to it honest: refresh tokens, machine credentials, pending sign-ins and erasure.

Every component has two halves. A value-level specification says what each operation does to the state, and
lemmas prove what holds of it over every run; what an operation answers is also said without its code, by what
it reads and what a caller sees. Where the program changes state in place, a class with the same fields has
methods whose postconditions equate the new state and the result with that specification, so the lemmas hold
of the classes too.

| part of the system | specification and theorems | as it runs |
|---|---|---|
| correlator | `Correlator`, `CorrelatorStore`, `CorrelatorDecisions`, `CorrelatorRuns`, `CorrelatorHistory`, `CorrelatorFlags`, `CorrelatorSessions` | `CorrelatorService` |
| alert rows, store and pages | `AlertRows`, `AlertStore`, `AlertQueries`, `Pagination`, `CursorCodec` | `AlertStoreService` |
| live stream | `AlertStream`, `AlertStreamRuns`, `AlertStreamResume`, `AlertStreamWaking` | `AlertStreamService` |
| pipeline glue | `Pipeline`, `CaseRows` | `PipelineService` |
| bus and offsets | `FlowBus`, `Offsets`, `WorkerOrder` | classes in the same modules |
| refresh tokens | `Tokens`, `TokenRuns`, `TokenLogins`, `TokenOverlap` | `TokenServiceObject` |
| API keys | `ApiKeyFormat`, `ApiKeys`, `ApiKeyRecords` | class in `ApiKeys` |
| erasure | `Erasure`, `ErasureReports` | `ErasureServiceObject` |
| pending sign-ins | `PendingLogins` | class in the same module |
| PDF export | `PdfDocument`, `PdfText`, `PdfReport`, `PdfPages` | methods in the same modules |
| cursor text, partitions | `Base64Url`, `Cursor`, `Calendar`, `Partitions` | method in `Partitions` |

`Wrappers`, `Decimal` and `Text` hold shared vocabulary. `dafny verify dfyconfig.toml` checks everything.

Times are integers (microseconds, or seconds where the code truncates), scores are reals in [0, 1], and a
clock reading is a parameter of the operation that reads the clock. The fusion rule, the family labeler, the
partition hash and the tombstone hash are parameters, as they are injected in the program.

## Where the code and its description differ

Each of these is a theorem with its exact condition, and with a concrete run where one helps.

- A case id joins entity, family and evidence with colons. It identifies a window if families hold no colon;
  otherwise two windows can share an id and the second case replaces the first: a count is lost for good, a
  case can de-escalate, and a closed case can give way to an open one (`CorrelatorRuns.CountsAreExactly`,
  `CorrelatorHistory.NeverDeEscalatesExactly`, `CorrelatorHistory.ClosedCaseIsOverwritten`).
- "Partial evidence" is said to clear once the second modality joins. With a retention of one it does not, and
  it can come back when a modality leaves the retained window (`CorrelatorHistory.PartialExactly`,
  `CorrelatorHistory.GroupingClearsPartialExactly`).
- The hub demands a ring buffer at least as large as a subscriber's queue, so that whoever overflows can still
  catch up. With equal sizes the reconnect is told to resync all the same, and with a larger buffer too if the
  client overflowed before its first live item (`AlertStreamResume.OverflowForcesResyncExactly`).
- The cursor a drop reports is said to be where to resume. The catch-up handed over on joining does not move it,
  so a client dropped before its first live item is sent back to where it came from and is handed its catch-up
  again (`AlertStreamResume.CursorIsLastHandedExactly`, `AlertStreamResume.DropForgetsTheCatchUp`).
- Notifications are handed over after the lock is released, so two publishers can swap them
  (`AlertStreamRuns.ConcurrentPublishersCanSwap`); `AlertStreamRuns.HandOverKeepsOrderExactly` says when not.
- The scoring worker says a crash replays at most one batch. It commits records that still wait in a partial
  window, and a crash forgets exactly those (`Offsets.EveryRecordIsScoredExactly`).
- A refresh token is described as single use. Among calls that do not overlap it is, except when its expiry falls
  between the two clock readings of one rotation (`TokenRuns.EachTokenRotatesOnceExactly`,
  `TokenRuns.TokenRotatesTwice`). A rotation asks whether its token is spent and marks it later, without a lock, so
  two calls that overlap can both succeed, and one can make a pair in a family revoked meanwhile
  (`TokenOverlap.SingleUseExactly`, `TokenOverlap.OverlapRotatesTwice`, `TokenOverlap.RotationOutrunsRevocation`).
- `format_key` says it refuses keys that could not be parsed back. It accepts a secret that ends in a line
  feed and ids of twenty digits (`ApiKeyFormat.RoundTripExactly`, `ApiKeyFormat.KeysThatDoNotComeBack`).
- `decode_cursor` says it refuses anything the API did not produce. It takes every cursor with its padding put back
  on (`Cursor.PaddedCursorIsTaken`).
- A subject that is added again after its erasure is not erased by a second request, because the ledger
  answers it (`Erasure.ErasedUntilAddedAgain`).
- `months_between` lists one month too many when the range ends on the first of a month
  (`Partitions.MinimalExactly`), and December of the last year has no bounds (`Partitions.EveryDayHasOneMonth`).

## Model

| member | source | states |
|---|---|---|
| `Correlator.SeverityForExact` | backend/app/services/correlator.py:153-175 | a score outside [0, 1] is refused; otherwise the answer is the highest band whose lower bound the score reaches, and only that one |
| `Correlator.LatestIsUnique` | backend/app/services/correlator.py:514-526 | the case found for an entity is determined: newest last-seen time among the eligible, first listed on a tie |
| `CorrelatorStore.CaseIdInjective` | backend/app/services/correlator.py:691-713 | with colon-free families two windows share a case id if and only if entity, family and evidence agree |
| `CorrelatorStore.CaseIdFixesEntity` | backend/app/services/correlator.py:691-713 | whatever the family, cases of two entities never share an id |
| `CorrelatorStore.CaseIdCollision` | backend/app/services/correlator.py:691-713 | a colon in a family makes two windows of one entity share an id |
| `CorrelatorStore.CorrelateEffect` | backend/app/services/correlator.py:624-644 | the four outcomes: a duplicate if and only if the window is indexed, and then nothing changes; otherwise exactly one case is written and the window is indexed under it |
| `CorrelatorStore.CorrelateKeepsIndexed` | backend/app/services/correlator.py:528-534 | every store operation keeps the indexes in step: each case listed once under its entity, each retained window pointing at its case |
| `CorrelatorStore.CorrelateKeepsNamed` | backend/app/services/correlator.py:691-745 | every stored case sits under the id of the window that opened it |
| `CorrelatorRuns.RunIsSound` | backend/app/services/correlator.py:624-644 | those invariants hold after any run of detections and status changes |
| `CorrelatorRuns.EvidenceIsExact` | backend/app/services/correlator.py:528-534 | the replay index holds exactly the windows ever ingested, though retained occurrences are evicted |
| `CorrelatorRuns.ReplaysChangeNothing` | backend/app/services/correlator.py:499-502 | any run ends in the same state as the run with later repeats of a window removed |
| `CorrelatorRuns.DeliveriesAgree` | backend/app/services/correlator.py:624-631 | two at-least-once deliveries of one stream end in one state |
| `CorrelatorRuns.CreatesExactly` | backend/app/services/correlator.py:624-644 | a case is created if and only if the window is new and neither grouping nor the cool-down takes it in |
| `CorrelatorRuns.CountsOneExactly` | backend/app/services/correlator.py:715-745 | a new window adds one to its entity's total if and only if it does not find its case id taken with no case to join; it never adds more, and other entities' totals stay |
| `CorrelatorRuns.CountsAreExactly` | backend/app/services/correlator.py:691-745 | over any run an entity's total is at most its distinct windows, and equal if and only if no ingest of the entity replaced a stored case: a shortfall is never made up |
| `CorrelatorRuns.CountsAreExact` | backend/app/services/correlator.py:715-745 | per entity the occurrence counts add up to the distinct windows ever ingested, over any run with colon-free families |
| `CorrelatorRuns.CollisionLosesACount` | backend/app/services/correlator.py:691-713 | a two-detection run in which a count is lost to a shared case id |
| `CorrelatorDecisions.NewestIsUnique` | backend/app/services/correlator.py:514-526 | among an entity's cases seen since a time, and carrying the family if one is asked for, the newest is one: last seen latest, opened first on a tie |
| `CorrelatorDecisions.DecidesExactly` | backend/app/services/correlator.py:624-680 | a new window is grouped if and only if the entity's newest case since the group window is not closed, was last seen at most the group window away in either direction and retains no window of its modality; otherwise absorbed if and only if the newest case of its family within the cool-down is not closed; otherwise it opens a case; and the case it joins is that one |
| `CorrelatorDecisions.SecondWindow` | backend/app/services/correlator.py:646-680 | what becomes of any second window of an entity: grouped near the first with the other modality, absorbed within the cool-down after it with the same family, and else a case of its own |
| `CorrelatorDecisions.MinuteGroups` | backend/app/services/correlator.py:280-307 | with the shipped windows a log window joins a flow window of another family if and only if they are at most sixty seconds apart, and else is a case of its own |
| `CorrelatorDecisions.FiveMinutesApart` | backend/app/services/correlator.py:646-664 | a two-window run, five minutes apart, that ends with two cases of one window each |
| `CorrelatorHistory.CasesAreSummaries` | backend/app/services/correlator.py:691-745 | after any run each case is the summary of the detections it counted: count, last retained windows, extreme times, families once each in order of first appearance, score the peak of the successive composites, severity its band, and the first trace parent that says something |
| `CorrelatorHistory.OpeningIsKeptExactly` | backend/app/services/correlator.py:691-745 | from some moment of a run on, a stored case is of the window that opened it if and only if no later detection overwrote it through a shared id |
| `CorrelatorHistory.NeverDeEscalatesExactly` | backend/app/services/correlator.py:715-745 | between two moments of a run a case's score, severity, last-seen time, families and count never shrink and first-seen never grows, if and only if no detection in between overwrote the case |
| `CorrelatorHistory.ClosedCasesAreFrozenExactly` | backend/app/services/correlator.py:646-680 | a closed case whose status is left alone is unchanged at the end of a run if and only if no detection overwrote it: none joins it |
| `CorrelatorHistory.IngestGrowsExactly` | backend/app/services/correlator.py:624-644 | the same for one ingest: the case grows, and a closed one stays, if and only if the ingest does not overwrite it |
| `CorrelatorHistory.ColonFreeNeverOverwrites` | backend/app/services/correlator.py:691-713 | with colon-free families no case is ever overwritten |
| `CorrelatorHistory.ClosedCaseIsOverwritten` | backend/app/services/correlator.py:691-713 | a three-event run in which a detection puts an open case in the place of a closed one |
| `CorrelatorHistory.PartialExactly` | backend/app/services/correlator.py:728-745 | a case is flagged partial if and only if its retained window lacks a modality |
| `CorrelatorHistory.GroupingClearsPartialExactly` | backend/app/services/correlator.py:728-745 | joining the other modality leaves the flag set if and only if one window is retained |
| `CorrelatorFlags.FlagsAreExact` | backend/app/services/correlator.py:691-745 | after any run a case is flagged grouped if and only if a window joined it by grouping since it was opened, and its status is the one set last, or open when none was set since |
| `CorrelatorSessions.SessionsAreMaximalRuns` | backend/app/services/correlator.py:666-680 | the reference specification: the timeline split at gaps longer than the cool-down, and nowhere else |
| `CorrelatorSessions.OthersDoNotInterfere` | backend/app/services/correlator.py:646-680 | a detection of another entity leaves an entity's cases alone |
| `CorrelatorSessions.SessionRefinement` | backend/app/services/correlator.py:646-680 | in a stream of any entities and any status changes, the cases of an entity seen under one family and never closed are its sessions, whichever rule joined each detection |
| `CorrelatorSessions.SessionCases` | backend/app/services/correlator.py:715-745 | the k-th case has the count and the first and last times of the k-th session |
| `CorrelatorService.InMemoryCaseStore.CaseFor` | backend/app/services/correlator.py:499-502 | lookup by window, through the index |
| `CorrelatorService.InMemoryCaseStore.LatestFor` | backend/app/services/correlator.py:514-526 | the scan returns the specified newest case |
| `CorrelatorService.InMemoryCaseStore.Put` | backend/app/services/correlator.py:528-534 | the three dictionaries change as specified, together |
| `CorrelatorService.CorrelatorObject.Fuse` | backend/app/services/correlator.py:682-689 | one pass over the occurrences gives the fusion of the best score per modality |
| `CaseRows.FuseBestExactly` | backend/app/services/correlator.py:682-689 | the rule is asked with the best flow score first and the best log score second, whichever modality is missing |
| `CorrelatorService.CorrelatorObject.Open` | backend/app/services/correlator.py:691-713 | the new case of one window is the specified one |
| `CorrelatorService.CorrelatorObject.MergeInto` | backend/app/services/correlator.py:715-745 | the case with one more window is the specified one |
| `CorrelatorService.CorrelatorObject.Ingest` | backend/app/services/correlator.py:624-644 | the object's answer and its store after one detection are those of the specification, whose choice of case `CorrelatorDecisions.DecidesExactly` fixes |
| `AlertRows.QuantiseIsNearest` | backend/app/services/alert_store.py:246-261 | a stored score is the nearest ten-thousandth, halves up, and an exact one is kept |
| `CaseRows.SummaryIsShown` | backend/app/services/correlator.py:748-794 | a case written as a row shows what its detections make it: opening entity, family and window, the peak composite to the nearest ten-thousandth and its severity, extreme times, families in order, counts, references to the last retained windows, the flag of their fusion, the model of each modality's first best window, and the trace |
| `AlertStore.SaveRowEffect` | backend/app/services/alert_store.py:166-185 | saving refreshes the row of the case, keeping its id and creation time, or adds one with a fresh id; no other row changes |
| `AlertStoreService.InMemoryAlertStore.Save` | backend/app/services/alert_store.py:166-185 | the record is changed in place or appended, as specified |
| `AlertStoreService.InMemoryAlertStore.Get` | backend/app/services/alert_store.py:187-193 | a row is found by id and creation time only |
| `AlertStoreService.InMemoryAlertStore.FetchPage` | backend/app/services/alert_store.py:219-234 | filters, cursor test, order and one row beyond the limit, over the stored records |
| `AlertQueries.RowIsFound` | backend/app/services/alert_store.py:187-193 | a row is the answer if and only if it is in the table with that id and that creation time |
| `AlertQueries.RefusedExactly` | backend/app/db/repository.py:66-95 | a query is refused if and only if its range is empty or inverted or exceeds ninety-two days, or its cursor cannot be read |
| `AlertQueries.PageIsExact` | backend/app/services/query_service.py:124-138 | a page holds the first wanted rows after the cursor, up to the limit, from old to new or new to old as asked; it has a cursor, of its last row, if and only if a wanted row was left out, and every one left out comes later |
| `AlertQueries.WalkIsInTimeOrder` | backend/app/services/alert_store.py:285-288 | the rows of an ascending walk go up in creation time and then id, those of a descending walk down, whatever is saved between its pages |
| `Pagination.PageCovers` | backend/app/services/query_service.py:124-138 | every wanted row is on the page, or after its last row when there is a next cursor |
| `Pagination.WalkIsStrictlySorted` | backend/app/services/alert_store.py:219-234 | whatever is saved between pages, the pages together are strictly sorted by creation time and id |
| `Pagination.WalkMissesNothing` | backend/app/services/alert_store.py:285-288 | a row present and matching at every page of a finished walk is returned |
| `Pagination.ReturnedOnce` | backend/app/services/alert_store.py:285-288 | no row is returned twice |
| `Pagination.WalkReturnsOnlyMatches` | backend/app/services/alert_store.py:264-282 | only rows that matched when their page was read are returned |
| `Pagination.WalkEnds` | backend/app/services/query_service.py:124-138 | on a store at rest the walk ends within as many pages as the wanted rows fill |
| `Pagination.WalkEndsUnderSaves` | backend/app/services/query_service.py:124-138 | with rows saved between the pages the walk is finished once its pages could hold more rows than the table has by then |
| `Base64Url.RepadInvertsStrip` | backend/app/schemas/query.py:46-58 | for byte strings of every length, padding to a multiple of four restores exactly the padding that was stripped |
| `Base64Url.DecodeInvertsEncode` | backend/app/schemas/query.py:46-58 | the decoder gives every byte string back from its unpadded url-safe text |
| `Base64Url.TextIsUrlSafe` | backend/app/schemas/query.py:46-49 | the text has none but letters, digits, hyphens and underscores, whatever the bytes |
| `Cursor.IsoRoundTrip` | backend/app/schemas/query.py:46-62 | every timestamp is read back from its ISO text, with microseconds and offset |
| `Cursor.CursorRoundTrip` | backend/app/schemas/query.py:46-65 | every timestamp and row id come back from their cursor, which holds url-safe characters alone |
| `Cursor.PaddedCursorIsTaken` | backend/app/schemas/query.py:52-65 | the reader takes every cursor with its padding put back on, which is a text the writer never produces if and only if there is padding |
| `Cursor.CursorInjective` | backend/app/schemas/query.py:46-49 | two positions never share a cursor |
| `CursorCodec.CodecRoundTrips` | backend/app/schemas/query.py:46-65 | the cursor text meets what pagination needs of it, for every range of the calendar |
| `CursorCodec.RealCursorsMissNothing` | backend/app/services/query_service.py:124-138 | the walk theorems with the cursor text the API hands out |
| `AlertStream.AppendHolds` | backend/app/services/alert_stream.py:354-372 | published sequences are 1 to n and the buffer holds the last min(n, size) of them |
| `AlertStream.NewHubHolds` | backend/app/services/alert_stream.py:330-352 | a hub is made if and only if its queues hold at least one and its buffer at least as much; it starts empty, numbering from one |
| `AlertStream.CatchUpIsExact` | backend/app/services/alert_stream.py:443-472 | a positive cursor needs a resync if and only if it is ahead of the stream or older than the buffer reaches; otherwise it gets all publications after it; the answer names the oldest number retained and the latest published |
| `AlertStreamRuns.EveryRunIsComplete` | backend/app/services/alert_stream.py:354-398 | in every interleaving each publication since a live subscriber joined is with it or on its way, exactly once |
| `AlertStreamRuns.SerialisedRunsAreOrdered` | backend/app/services/alert_stream.py:221-299 | with publishes serialised, received items, queue and handed-off callbacks are the contiguous publications since joining; a dropped subscriber received an unbroken beginning |
| `AlertStreamResume.EverythingSinceCursor` | backend/app/services/alert_stream.py:375-398 | over any serialised run, what a client with a usable positive cursor was handed on joining, then what it got live, then what is on its way, is everything published after its cursor, in order, none twice |
| `AlertStreamResume.CursorIsLastHandedExactly` | backend/app/services/alert_stream.py:221-263 | over any run the cursor a drop reports is the last item handed to the client if and only if it got something live or its catch-up was empty |
| `AlertStreamResume.DropForgetsTheCatchUp` | backend/app/services/alert_stream.py:375-398 | a run in which a client is handed the second publication and told to resume after the first |
| `AlertStreamResume.ResumeLosesNothing` | backend/app/services/alert_stream.py:443-472 | coming back with a positive cursor needs a resync if and only if the cursor is ahead or more was published since than the buffer holds; otherwise it completes what the client had, and hands nothing over twice if and only if the client had got something live or its earlier catch-up was empty |
| `AlertStreamResume.SubscribeStartsWhereCatchUpEnds` | backend/app/services/alert_stream.py:375-398 | catch-up and live delivery meet without gap or overlap |
| `AlertStreamResume.OverflowForcesResyncExactly` | backend/app/services/alert_stream.py:291-347 | after an overflow with nothing newer published, a client that got something live must resync if and only if buffer and queue are equally large; one that got nothing live, if and only if its catch-up, the queue and one more exceed the buffer |
| `AlertStreamResume.OverflowBeforeFirstItem` | backend/app/services/alert_stream.py:291-299 | a serialised run in which the buffer is larger than the queue and the overflow still forces a resync |
| `AlertStreamRuns.HandOverKeepsOrderExactly` | backend/app/services/alert_stream.py:366-372 | a hand-over keeps a subscriber's order if and only if nothing older is still in flight to it |
| `AlertStreamRuns.ConcurrentPublishersCanSwap` | backend/app/services/alert_stream.py:366-372 | a run of two publishers that reverses two notifications |
| `AlertStreamWaking.DropsExactly` | backend/app/services/alert_stream.py:254-299 | a step drops a subscription if and only if its queue overflows, its loop is gone at a hand-over or the hub closes, each with its own reason; a reason once recorded is never replaced |
| `AlertStreamWaking.FirstReasonStays` | backend/app/services/alert_stream.py:254-263 | over any run the first drop reason stays |
| `AlertStreamWaking.CloseReachesEveryone` | backend/app/services/alert_stream.py:416-425 | whoever is attached when the hub closes is dropped in the end, whatever happens in between |
| `AlertStreamWaking.AttachedExactly` | backend/app/services/alert_stream.py:375-425 | a subscription is attached from its joining until its own close detaches it or the hub closes, and no longer |
| `AlertStreamWaking.WaitersAreWoken` | backend/app/services/alert_stream.py:265-273 | in every run a dropped subscription whose client waits has something queued or the mark on its way |
| `AlertStreamWaking.DroppedWaiterIsAnswered` | backend/app/services/alert_stream.py:221-240 | so once its loop has run, the waiting client is answered: with what was queued first, and with the recorded reason and its cursor when that is the mark |
| `AlertStreamWaking.LaterAskIsTold` | backend/app/services/alert_stream.py:221-240 | a client that asks at any time after the drop is told the first reason and its cursor at once |
| `AlertStreamWaking.CancelLosesNothing` | backend/app/api/v1/endpoints/stream.py:133-165 | a client that gives up waiting keeps what is queued and on its way, and can ask again |
| `AlertStreamWaking.NothingAfterTheEnd` | backend/app/services/alert_stream.py:275-299 | once a subscription is closed or dropped its client gets what is queued and nothing else, ever |
| `AlertStreamWaking.ShutdownIsTold` | backend/app/services/alert_stream.py:254-273 | a run in which a client waits for its first alert while the hub closes, and is told of the shutdown with cursor zero |
| `AlertStreamService.AlertSubscription.RunNext` | backend/app/services/alert_stream.py:270-299 | one loop callback changes the subscription as specified |
| `AlertStreamService.AlertSubscription.AskNext` | backend/app/services/alert_stream.py:221-240 | `next` raises for a dropped subscription before it waits |
| `AlertStreamService.AlertSubscription.CancelNext` | backend/app/api/v1/endpoints/stream.py:133-165 | a consumer that gives up waiting loses nothing that is queued |
| `AlertStreamService.AlertSubscription.TakeNext` | backend/app/services/alert_stream.py:221-240 | an item moves the cursor; the mark raises |
| `AlertStreamService.AlertSubscription.HandOver` | backend/app/services/alert_stream.py:275-289 | a notification becomes a callback, or drops a subscriber whose loop is closed |
| `AlertStreamService.AlertSubscription.Close` | backend/app/services/alert_stream.py:242-252 | closing detaches once and leaves the hub usable |
| `AlertStreamService.AlertHub.Remove` | backend/app/services/alert_stream.py:411-414 | one listing of the subscription goes, if there is one, and the hub stays usable |
| `AlertStreamService.AlertHub.Publish` | backend/app/services/alert_stream.py:354-373 | the alert is numbered, buffered and handed to every subscriber |
| `AlertStreamService.AlertHub.Subscribe` | backend/app/services/alert_stream.py:375-398 | the subscriber joins with the catch-up of its cursor; a negative cursor is refused and nobody joins |
| `AlertStreamService.AlertHub.CatchUpNow` | backend/app/services/alert_stream.py:443-472 | one pass over the buffer gives the specified catch-up |
| `AlertStreamService.AlertHub.Close` | backend/app/services/alert_stream.py:416-425 | everyone is detached and dropped with the shutdown reason, and woken (`AlertStreamWaking.WaitersAreWoken`) |
| `Pipeline.IdForIsInjective` | backend/app/services/entity_registry.py:44-50 | ids are stable and no two entities share one |
| `Pipeline.IdentityIsOffset` | backend/app/pipeline.py:216-249 | windows of one entity have one identity if and only if they start at one offset |
| `Pipeline.PutKeepsSimulation` | backend/app/pipeline.py:216-250 | one window, new, repeated or refused, keeps rows and cases in step |
| `Pipeline.SimulationHolds` | backend/app/pipeline.py:277-286 | after any arrivals rows and cases are in bijection by case id, each row encodes its case's current state, and the row's last announcement is the row |
| `CaseRows.RowsShowTheirCases` | backend/app/services/correlator.py:748-794 | after any arrivals there is one row for each case, and every column of it is what the detections counted so far make it, with the grouped flag and the status the run gave it |
| `CaseRows.DetectedAreTheWindows` | backend/app/pipeline.py:216-250 | the correlator is given each accepted window in order of arrival, with the window's own score, close time and trace, the labeler's family, and its entity's id |
| `CaseRows.AnnouncedOnce` | backend/app/pipeline.py:277-286 | in any run a window that is accepted and did not come before is announced once, as the row of the case that counted it, and a new row is created at that time; any other window announces nothing |
| `Pipeline.RowsKeepTheirKeys` | backend/app/services/alert_store.py:166-185 | over any run a row's id and creation time never change and the row of a case stays its row |
| `Pipeline.PutAccepts` | backend/app/pipeline.py:233-249 | a window is refused if and only if it has no close time or a blank family, and then cases, rows and stream stay; any other is accepted from then on; its entity is registered if and only if it has a close time or was known |
| `Pipeline.ReplayChangesNothing` | backend/app/pipeline.py:277-280 | an accepted window that comes again changes registry, cases, table and stream in nothing |
| `Pipeline.DetectedAreArrived` | backend/app/pipeline.py:216-250 | the windows ingested are exactly the accepted arrivals, under the ids of their entities |
| `Pipeline.TableCountsAreExact` | backend/app/services/correlator.py:748-794 | the counts the table shows for an entity add up to the distinct windows of it that arrived and were accepted, over any arrivals with colon-free families |
| `PipelineService.EntityRegistry.Id` | backend/app/services/entity_registry.py:44-50 | the id given and the registry afterwards are as specified |
| `PipelineService.AlertWriter.Accept` | backend/app/pipeline.py:277-286 | a duplicate changes nothing; any other outcome is stored, as `CaseRows.SummaryIsShown` says of its case, and its row published and handed to every attached subscriber |
| `PipelineService.DetectionSink.Accept` | backend/app/pipeline.py:216-250 | registry, case store, table and hub change as one specified step, and each attached subscriber is handed the one announcement, if there is one |
| `FlowBus.LogIsWhatWasRouted` | backend/app/pipeline.py:114-131 | each partition's log is exactly its flows in send order, with offsets from zero without a gap |
| `FlowBus.OtherLogsStay` | backend/app/pipeline.py:114-131 | sending touches no log of another topic, and none of a partition that no flow was assigned to |
| `FlowBus.BatchesConcatenate` | backend/app/messaging/producer.py:101-115 | batches sent one after the other are one stream |
| `FlowBus.SourceKeepsItsOrder` | backend/app/messaging/partitioner.py:44-67 | two flows of a source sit in one log, the earlier at the smaller offset |
| `FlowBus.InProcessBus.Accept` | backend/app/pipeline.py:114-131 | a record is appended under the next offset, or refused outside the partition range |
| `FlowBus.InProcessBus.Read` | backend/app/pipeline.py:133-140 | the records with the offsets from a start up to the limit or the log's end, each once and in order |
| `FlowBus.ReadsJoin` | backend/app/pipeline.py:133-140 | reading on from where a read ended gives what one longer read gives |
| `FlowBus.FlowProducer.SendBatch` | backend/app/messaging/producer.py:101-115 | a batch is sent record by record in order |
| `Offsets.OffsetTracker.Record` | backend/app/messaging/producer.py:129-138 | a commit moves a partition forward only |
| `Offsets.OffsetTracker.LagReport` | backend/app/messaging/producer.py:150-152 | every partition's lag, never negative |
| `Offsets.CommittedIsGreatest` | backend/app/messaging/producer.py:129-138 | for commits in any order a partition stands at the greatest offset committed for it |
| `Offsets.CommitsCommute` | backend/app/messaging/producer.py:129-138 | the order of commits does not matter |
| `WorkerOrder.ResumesAfterGreatest` | backend/app/messaging/producer.py:140-143 | for commits in any order a consumer resumes at n if and only if every committed offset is below n and n - 1 was committed, or none was and n is zero |
| `WorkerOrder.LagCounts` | backend/app/messaging/producer.py:145-152 | the lag is the number of offsets of the log that are still to be read |
| `WorkerOrder.BatchIsExact` | backend/app/messaging/producer.py:129-143 | a batch is the next records there are, at most so many, and committing it moves the resume point just past it |
| `WorkerOrder.RestartReadsOn` | backend/app/messaging/producer.py:140-143 | after a restart the next batch begins just past the last commit, so nothing committed is emitted again |
| `Offsets.NothingIsSkipped` | backend/app/messaging/producer.py:140-143 | over reads, commits, restarts and late commits, what was emitted is an unbroken beginning of the log and the resume point never moves back |
| `Offsets.DrainReachesEnd` | backend/app/workers/scoring_worker.py:276-297 | reading everything that is there leaves no offset unemitted |
| `WorkerOrder.ReadCommitsWhatItRead` | backend/app/workers/scoring_worker.py:276-297 | the worker reads all it may of what is there and commits the last record it read, scored or not |
| `WorkerOrder.EmitSharesOut` | backend/app/workers/scoring_worker.py:303-358 | scoring takes whole windows of the oldest records of each source, everything of a released source, and nothing else |
| `WorkerOrder.WaitingIsInOrder` | backend/app/workers/scoring_worker.py:276-358 | after any run each source waits with less than a window of its own records, all of them read, oldest first |
| `Offsets.RunsAreAccountedFor` | backend/app/workers/scoring_worker.py:303-358 | after any run of the worker, with crashes between batches, between any windows of a batch or release, and before a commit, each committed record was scored, waits, or waited unscored at a crash |
| `Offsets.CrashLosesExactlyWhatWaits` | backend/app/workers/scoring_worker.py:276-297 | a restart loses exactly the records that waited before it and were in no window scored by then |
| `Offsets.EveryRecordIsScoredExactly` | backend/app/workers/scoring_worker.py:264-297 | after a final flush every committed record was scored if and only if no crash found an unscored record in the buffer |
| `Offsets.CrashLosesABufferedRecord` | backend/app/workers/scoring_worker.py:276-297 | a three-step run that commits a record and never scores it |
| `TokenRuns.RotateOutcome` | backend/app/auth/tokens.py:179-204 | in every reachable state an unexpired refresh token of an unrevoked family rotates if and only if it has not rotated before or its expiry falls between the readings, and otherwise revokes its family |
| `TokenRuns.EachTokenRotatesOnceExactly` | backend/app/auth/tokens.py:179-204 | over any run of calls that do not overlap, each token id rotates at most once if and only if no step presented a spent token of a standing family with its expiry between the two readings |
| `TokenRuns.EachTokenRotatesOnce` | backend/app/auth/tokens.py:179-204 | so among calls that do not overlap one clock reading per rotation makes every token single use |
| `TokenRuns.TokenRotatesTwice` | backend/app/auth/tokens.py:109-120 | a run from the start, with plausible clocks, in which one token rotates twice and its login ends with two live tokens |
| `TokenRuns.OneUnspentExactly` | backend/app/auth/tokens.py:179-204 | over any run of calls that do not overlap, a login has at most one unspent refresh token if and only if none of its own tokens was so repeated |
| `TokenRuns.OneLiveToken` | backend/app/auth/tokens.py:211-234 | such a login has at most one live refresh token, whatever non-overlapping calls did to the tokens of others |
| `TokenRuns.SpentTokenRotatesAgainExactly` | backend/app/auth/tokens.py:109-120 | with two readings, a remembered spent token rotates again if and only if its expiry falls between them |
| `TokenRuns.ReplayEndsFamily` | backend/app/auth/tokens.py:196-200 | over any run, presenting a spent token that is unexpired at both readings leaves its family without a live token for ever |
| `TokenRuns.RevokedForever` | backend/app/auth/tokens.py:126-132 | a revocation lasts and keeps its first time |
| `TokenRuns.RevocationTail` | backend/app/auth/tokens.py:163-169 | over any run, from the revocation plus the access lifetime on no access token of that login verifies |
| `TokenRuns.NoPairAfterRevocation` | backend/app/auth/tokens.py:192-209 | no rotation makes a pair in a revoked family, whatever the clocks read, and no login does whose family is new |
| `TokenLogins.RevokesExactly` | backend/app/auth/tokens.py:206-209 | a logout is accepted if and only if its token is a signed refresh token before its expiry; it then revokes that family and no other, and a refusal changes nothing |
| `TokenLogins.LogoutEndsLogin` | backend/app/auth/tokens.py:206-209 | over any run, from an accepted logout on no refresh token of that login is live and every rotation of one is refused; every other login stands as it did |
| `TokenLogins.LogoutEndsAccess` | backend/app/auth/tokens.py:163-169 | an access lifetime after an accepted logout no access token of that login verifies |
| `TokenLogins.RotationAfterLogout` | backend/app/auth/tokens.py:192-209 | a run in which a token that was live is refused as revoked one second after its logout |
| `TokenLogins.AccessVerifiesExactly` | backend/app/auth/tokens.py:163-169 | over any run a token verifies if and only if it is the access token of a pair the service made and has not expired; a refresh token never does |
| `TokenLogins.LoginMakes` | backend/app/auth/tokens.py:159-161 | a login makes one pair for its subject, role and family, beginning at the second the clock shows and lasting the two lifetimes |
| `TokenLogins.RotationMakes` | backend/app/auth/tokens.py:179-204 | a rotation makes at most one pair, for its token's subject and family, with the new role if one is given and the token's role otherwise |
| `TokenLogins.PairsAreOfTheirLogin` | backend/app/auth/tokens.py:179-204 | over any run every pair is for the subject that began its family, and its two tokens agree in subject, role and start |
| `TokenOverlap.SingleUseExactly` | backend/app/auth/tokens.py:192-204 | in every interleaving of overlapping calls each token id rotates at most once if and only if no completed rotation asked about its token before an earlier rotation of it was marked, nor after one with its expiry reached |
| `TokenOverlap.OverlapRotatesTwice` | backend/app/auth/tokens.py:192-204 | a run in which two overlapping calls rotate one token at one clock reading |
| `TokenOverlap.RotationOutrunsRevocation` | backend/app/auth/tokens.py:192-204 | a run in which a pair is made in a family after its revocation |
| `TokenOverlap.RevokeNowIsLogout` | backend/app/auth/tokens.py:206-209 | a revocation between the calls is what an accepted logout does |
| `TokenOverlap.AloneIsRotate` | backend/app/auth/tokens.py:179-204 | a call that nothing interrupts is the rotation in one piece, whatever its outcome |
| `TokenServiceObject.InMemoryRefreshStore.LookUp` | backend/app/auth/tokens.py:109-120 | asking after expiry forgets the entry |
| `TokenServiceObject.TokenService.IssuePair` | backend/app/auth/tokens.py:159-161 | a login's first pair, and the service's state after it |
| `TokenServiceObject.TokenService.RotateToken` | backend/app/auth/tokens.py:179-204 | result and state of a rotation, with its clock readings apart |
| `TokenServiceObject.TokenService.RevokeToken` | backend/app/auth/tokens.py:206-209 | result and state of a logout, which `TokenLogins.RevokesExactly` says without its code |
| `TokenServiceObject.TokenService.VerifyAccessToken` | backend/app/auth/tokens.py:163-169 | a token verifies if it was signed here, has not expired and is an access token |
| `PdfDocument.AssembleDocument` | backend/app/services/alert_export.py:213-233 | the loop with running offsets writes the specified document |
| `PdfDocument.ReadInvertsAssemble` | backend/app/services/alert_export.py:213-233 | a reader that follows the last line to the table and the table to the objects gets every body back if and only if the last object starts below ten to the tenth (sections 7.5.4 and 7.5.5 of ISO 32000-1:2008) |
| `PdfDocument.EntryPointsAtObject` | backend/app/services/alert_export.py:213-233 | the i-th twenty-byte entry holds the byte offset at which object i stands |
| `PdfDocument.StartIsFound` | backend/app/services/alert_export.py:229-233 | the last line leads to the table |
| `PdfPages.SizeIsDeclared` | backend/app/services/alert_export.py:230-233 | the trailer declares one object more than the document has bodies (section 7.5.5 of ISO 32000-1:2008) |
| `PdfText.EscapeText` | backend/app/services/alert_export.py:123-137 | the loop writes the specified literal |
| `PdfText.LiteralIsRead` | backend/app/services/alert_export.py:123-137 | whatever the value, its literal ends at the writer's own parenthesis and reads back as the value, characters outside the font as question marks (section 7.3.4.2 of ISO 32000-1:2008) |
| `PdfText.CharactersAreReadExactly` | backend/app/services/alert_export.py:123-137 | a character comes back if and only if it is in the printable ranges of the font, and any other as a question mark |
| `PdfText.EscapeStaysOnLine` | backend/app/services/alert_export.py:123-137 | a literal holds no line break and only Latin-1 |
| `PdfText.OpIsRead` | backend/app/services/alert_export.py:153-159 | a text operator reads back as the string it shows |
| `PdfText.SplitInvertsJoin` | backend/app/services/alert_export.py:207-210 | the lines of a page come back from its stream |
| `PdfText.StreamIsRead` | backend/app/services/alert_export.py:207-210 | the declared length is the number of bytes between the stream marks (section 7.3.8 of ISO 32000-1:2008) |
| `PdfReport.RowsFitThePage` | backend/app/services/alert_export.py:66-89 | a page takes as many rows as fit above the margin, and one more would not fit |
| `PdfReport.ClipFits` | backend/app/services/alert_export.py:140-145 | a clipped cell fits, is unchanged if and only if it fitted, and otherwise shows that it was cut |
| `PdfReport.ChunksAreTheRows` | backend/app/services/alert_export.py:258-264 | the pages hold every row once, in order |
| `PdfReport.RenderReport` | backend/app/services/alert_export.py:258-293 | the loop over pages writes the specified document, whose pages `PdfPages.PagesAreFound` fixes |
| `PdfReport.PageStands` | backend/app/services/alert_export.py:284-292 | page p's references, 5 + 2p and 6 + 2p, hit its own page and content objects |
| `PdfReport.KidsAreRead` | backend/app/services/alert_export.py:277-283 | the page tree lists exactly the page objects, in order |
| `PdfReport.ReportIsRead` | backend/app/services/alert_export.py:236-293 | from the bytes a reader gets, page by page, every string that was drawn (`PdfPages.CellIsFound` says which and where) |
| `PdfPages.PagesAreFound` | backend/app/services/alert_export.py:162-204 | from the bytes a reader gets as many pages as the rows need, each with its own number and the number of pages in its title, the definition, the generated line on page one, the column heads, and the cells of its own rows, in order, and nothing else |
| `PdfPages.CellIsFound` | backend/app/services/alert_export.py:258-264 | row i stands on page i / 37, and its j-th cell, cut to its column, is the (i % 37) * 11 + j-th string below the heads |
| `PdfPages.EveryRowIsShownOnce` | backend/app/services/alert_export.py:258-264 | the row parts of the pages, joined, are the cells of every row once, in order |
| `PdfPages.ColumnLimits` | backend/app/services/alert_export.py:66-89 | how many characters each of the eleven columns has room for |
| `PdfPages.CountIsDeclared` | backend/app/services/alert_export.py:277-283 | the page tree declares as many pages as it lists |
| `Text.BlankStripsToNothing` | backend/app/services/erasure.py:114-124 | a value is refused as blank if and only if stripping leaves nothing of it |
| `Text.StripOf` | backend/app/auth/api_keys.py:182-195 | white space around a presented key is not part of it |
| `ApiKeyFormat.MatchIsThePattern` | backend/app/auth/api_keys.py:112-115 | parsing succeeds on exactly the strings of the pattern and gives their only parts |
| `ApiKeyFormat.RoundTripExactly` | backend/app/auth/api_keys.py:167-195 | a formatted key parses back to its id and secret if and only if the id has at most nineteen digits and the secret does not end in a line feed |
| `ApiKeyFormat.KeysThatDoNotComeBack` | backend/app/auth/api_keys.py:167-195 | two keys formatted without complaint: a secret with a final line feed comes back without it, and an id of twenty digits does not come back |
| `ApiKeyFormat.SpaceIsIgnored` | backend/app/auth/api_keys.py:182-195 | a key reads the same with any white space around it |
| `ApiKeyFormat.FormatKeyInjective` | backend/app/auth/api_keys.py:167-179 | a key fixes its id and secret |
| `ApiKeys.VerifiesExactly` | backend/app/auth/api_keys.py:528-561 | after any run a string is accepted if and only if it was issued, under an id of at most nineteen digits, and neither revoked nor erased since |
| `ApiKeys.Fate` | backend/app/auth/api_keys.py:408-444 | an issued key is live at the end of a run if and only if no later event ended it |
| `ApiKeys.IdsAreNeverReused` | backend/app/auth/api_keys.py:383-398 | later keys have greater ids, whatever was revoked or erased |
| `ApiKeys.FirstRevocationIsKept` | backend/app/auth/api_keys.py:408-413 | the first revocation time stays for as long as the row does |
| `ApiKeys.ErasedStaysErased` | backend/app/auth/api_keys.py:446-478 | an erased row never comes back |
| `ApiKeyRecords.IssuedExactly` | backend/app/auth/api_keys.py:383-398 | a key is issued if and only if it can be written and the request names key, owner and some scope; the store then holds one record more, which says what was asked for, and a refusal leaves it alone |
| `ApiKeyRecords.IssuedIsKept` | backend/app/auth/api_keys.py:383-478 | over any run a stored record keeps the id, name, scopes, digest and creation time it was issued with, and its owner while it is live |
| `ApiKeyRecords.VerifiedIsIssued` | backend/app/auth/api_keys.py:528-561 | over any run whoever presents an accepted key gets the name, owner, scopes and creation time it was issued with, not revoked, with a use recorded now or within the interval |
| `ApiKeyRecords.PresentingChangesOnlyItsRow` | backend/app/auth/api_keys.py:528-561 | presenting an accepted key changes its own row, to the record answered, and no other; presenting anything else changes nothing |
| `ApiKeyRecords.EndIsRecorded` | backend/app/auth/api_keys.py:408-478 | over any run the row of an ended key says how it ended first: at the time of the revocation, at its own creation when the owner was replaced, and no row when the owner was erased |
| `ApiKeyRecords.RevokedExactly` | backend/app/auth/api_keys.py:408-413 | a revocation is refused if and only if the key is live and the time is before its creation; otherwise that row alone changes, to its first revocation time |
| `ApiKeyRecords.TouchedExactly` | backend/app/auth/api_keys.py:415-423 | a use is recorded if and only if the key is stored and none was recorded within the interval before |
| `ApiKeyRecords.ErasedExactly` | backend/app/auth/api_keys.py:446-478 | an erasure is refused if and only if the owner has keys and the replacement is white space alone; otherwise exactly the owner's rows go or are carried over, and are counted |
| `ApiKeys.InMemoryApiKeyStore.Create` | backend/app/auth/api_keys.py:383-398 | a refused request uses up no id |
| `ApiKeys.InMemoryApiKeyStore.RevokeKey` | backend/app/auth/api_keys.py:408-413 | result and state of a revocation |
| `ApiKeys.InMemoryApiKeyStore.TouchKey` | backend/app/auth/api_keys.py:415-423 | a use is recorded at most once per interval |
| `ApiKeys.InMemoryApiKeyStore.Verify` | backend/app/auth/api_keys.py:528-561 | result and state of a verification |
| `ApiKeys.InMemoryApiKeyStore.EraseKeysOf` | backend/app/auth/api_keys.py:446-478 | exactly the owner's rows are removed or renamed, and counted |
| `Erasure.RepeatsDoNotMatter` | backend/app/services/erasure.py:441-509 | any run leaves all stores and the ledger as the run without repeated requests does |
| `Erasure.RepeatChangesNothing` | backend/app/services/erasure.py:462-474 | a request is reported as already erased if and only if its subject was asked for before, and then nothing changes |
| `Erasure.LedgerIsFirstRequests` | backend/app/services/erasure.py:490-500 | the ledger lists the subjects in the order of their first requests, numbered 1 to n, with distinct tombstones |
| `Erasure.ErasedUntilAddedAgain` | backend/app/services/erasure.py:441-509 | after its first request a subject is in the stores if and only if it was added again |
| `Erasure.CascadeEffect` | backend/app/services/erasure.py:476-488 | however many targets there are, only the subject's kind of store changes, once |
| `Erasure.RedactEffect` | backend/app/services/erasure.py:570-588 | which rows there are after redaction, in one kind or in all, and what each holds; rows with other values or of other kinds are as they were |
| `Erasure.CountConservedExactly` | backend/app/services/erasure.py:570-588 | redaction keeps the number of rows if and only if no kind it reaches holds both the value and its replacement |
| `Erasure.ErasureConservesEntities` | backend/app/services/erasure.py:570-588 | in runs that add no tombstones every erasure conserves the rows and leaves other values untouched |
| `Erasure.EraseUserEffect` | backend/app/services/erasure.py:637-649 | exactly the user goes, and with a stored user exactly that user's keys |
| `Erasure.KeysStayGone` | backend/app/services/erasure.py:637-649 | after the first request for a stored user no key of that owner exists until one is issued, or renamed, to the owner again |
| `ErasureReports.RefusedExactly` | backend/app/services/erasure.py:114-124 | a request is refused if and only if its subject is blank or over 512 characters or nobody answers for it, each with its own error, and then nothing changes |
| `ErasureReports.OutcomesTell` | backend/app/services/erasure.py:476-488 | the outcomes name the targets in order; the first target of the subject's kind counts the rows it moved or the user it removed, and every other counts none |
| `ErasureReports.ReportsAreExact` | backend/app/services/erasure.py:462-509 | over any run the report of a request is that of a first one, with its counts and its ledger number, or of a repeat that affected nothing |
| `ErasureReports.EntriesTell` | backend/app/services/erasure.py:490-500 | over any run each ledger entry says who asked when in the first proper request for its subject, and what that did to the stores as they were |
| `ErasureReports.AddedStands` | backend/app/services/erasure.py:564-588 | over any run an added entity stands with what was said of it last until its own value is asked to be erased, whatever else is added or erased |
| `ErasureServiceObject.InMemoryErasureLedger.HasTombstone` | backend/app/services/erasure.py:287-289 | the scan finds a tombstone if and only if it is recorded |
| `ErasureServiceObject.InMemoryEntityStore.Add` | backend/app/services/erasure.py:564-568 | an entity is registered under its kind and value if and only if the value is not blank |
| `ErasureServiceObject.InMemoryUserStore.Add` | backend/app/services/erasure.py:631-635 | a user is registered if and only if the identifier is not blank |
| `ErasureServiceObject.InMemoryEntityStore.RedactValue` | backend/app/services/erasure.py:570-588 | the loop over a snapshot gives the specified rows and count |
| `ErasureServiceObject.InMemoryUserStore.EraseOwner` | backend/app/services/erasure.py:637-649 | the user and the keys in their own store change as specified |
| `ErasureServiceObject.ErasureService.Build` | backend/app/services/erasure.py:410-435 | refused if and only if there is no target or two share a name |
| `ErasureServiceObject.ErasureService.EraseSubject` | backend/app/services/erasure.py:441-509 | report, stores and ledger of one request |
| `ErasureServiceObject.ErasureService.Ask` | backend/app/services/erasure.py:114-124 | a request that names no subject, or one over 512 characters, is refused and changes nothing |
| `PendingLogins.CapIsNeverExceeded` | backend/app/auth/oidc.py:161-175 | the store never holds more logins than its cap |
| `PendingLogins.StatesAreDistinct` | backend/app/auth/oidc.py:161-185 | in every run each state is stored once at most, whatever states are started again |
| `PendingLogins.InsertReplaces` | backend/app/auth/oidc.py:161-175 | a login under a state that is stored already takes its place; another one joins as the newest |
| `PendingLogins.EvictKeepsNewest` | backend/app/auth/oidc.py:170-174 | eviction ends with room if and only if the cap is positive, and drops the oldest |
| `PendingLogins.CreateFailsExactly` | backend/app/auth/oidc.py:161-175 | a start fails if and only if the cap is not positive |
| `PendingLogins.RedeemedAtMostOnce` | backend/app/auth/oidc.py:177-185 | no state is redeemed twice |
| `PendingLogins.RedeemedWasStarted` | backend/app/auth/oidc.py:177-185 | what a callback gets was started under that state and is not older than the limit |
| `PendingLogins.KeptUnlessCrowdedOut` | backend/app/auth/oidc.py:161-197 | an unexpired login nobody asked for is still there unless as many newer ones as the cap were started |
| `PendingLogins.UsableIsRedeemed` | backend/app/auth/oidc.py:177-185 | such a login is what its callback gets |
| `PendingLogins.NothingOldStays` | backend/app/auth/oidc.py:187-197 | no event leaves a login behind that is older than the limit, but for the one it starts |
| `PendingLogins.PendingLoginStore.Start` | backend/app/auth/oidc.py:161-175 | pruning, the eviction loop and the insertion, and that the loop ends |
| `PendingLogins.PendingLoginStore.Redeem` | backend/app/auth/oidc.py:177-185 | the entry is removed before its age is looked at |
| `Partitions.MonthsBetween` | backend/app/db/partitions.py:74-89 | the loop ends and gives the consecutive months of the range; an empty range is refused |
| `Partitions.BoundsAbut` | backend/app/db/partitions.py:27-37 | each month's bounds end where the next month's begin |
| `Partitions.EveryDayHasOneMonth` | backend/app/db/partitions.py:27-37 | each day of the range lies in the bounds of exactly one listed month, except in December of the last year |
| `Partitions.NeededExactly` | backend/app/db/partitions.py:74-89 | a listed month holds a day of the range unless it is the last and the range ends on its first |
| `Partitions.MinimalExactly` | backend/app/db/partitions.py:74-89 | the list is minimal if and only if the range does not end on the first of a month |
| `Partitions.NameIsInjective` | backend/app/db/partitions.py:40-50 | no two partitions share a name, across tables as well |
| `Partitions.NameSaysMonth` | backend/app/db/partitions.py:40-50 | a name is refused if and only if the table is not partitioned or the month is none; it says the table, the year and the month in two digits |

## Left out

- Floating point: scores, weights and coordinates are reals or opaque text; rounding in binary is not modelled.
- The fusion arithmetic, the window scorer and the flow-to-record conversion are parameters.
- FastAPI routes, tracing, metrics, logging and latency timers.
- SQL statements, migrations, the ORM and the PostgreSQL stores; the in-memory stores stand for them.
- The Kafka client and consumer groups; the hash behind `partition_for` is a parameter that depends on the source alone.
- Cryptography: signed tokens are a set of vouched-for values, key digests and tombstones are injective.
- The reasons and details of `AlertCase.explanation_payload` (its families, partial flag and count are modelled), and the trace id cut out of a trace parent.
- The aggregate, overview and histogram readings of the alert store, and listings of the ledger and the key store: easy members.
- Sessions of an entity seen under several families: grouping ignores the family and the cool-down does not, so there is no single gap rule to refine.
- `CorrelatorSessions.SessionRefinement`: assumes non-decreasing times, distinct evidence ids and no closed case of the entity; out-of-order detections are absorbed without an upper bound, and a closed case ends a session early.
- `AlertStreamResume.ResumeLosesNothing`: speaks of positive cursors, because cursor zero asks for whatever the buffer holds and never for a resync.
- `Cursor.CursorRoundTrip`: the reader accepts the text the writer produces; other JSON and ISO spellings that Python's readers take are reported as malformed.
- `CursorCodec.CodecRoundTrips`: a naive timestamp in a forged cursor is refused here and raises at the comparison in the program.
- `ApiKeyFormat.MatchIsThePattern`: digits are ASCII; the pattern's digit class takes other decimal digits too, which no issued key holds.
- `Erasure.ErasureConservesEntities`: a row's other fields are one opaque value, and the user store always has a key store, as it is wired.
- `PendingLogins.KeptUnlessCrowdedOut`: clock readings do not decrease along the run; threads that read the clock before taking the lock can be reordered by less than they waited.
- `PdfReport.ReportIsRead`: the positions and fonts of the drawn text are opaque.
- `TokenRuns.RevocationTail`: a run's calls follow one another; `TokenOverlap` interleaves rotations and shows what overlap breaks.
- `ApiKeys.IdsAreNeverReused`: calls on the key store follow one another; `create` reads and bumps the next id without a lock, so two that overlap could be given one id.
- `Erasure.RepeatsDoNotMatter`: requests follow one another; the service looks a tombstone up and appends it later without a lock.
- `Pipeline.SimulationHolds`: the stream is announced the whole row, where the program hands it the projection of the query API; reasons, details and trace id are not columns of the model.
- Redactor key derivation, RBAC tables, webhooks, retention jobs, the dashboard and the training code.
