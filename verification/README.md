# Verified model of ELIOT Search

ELIOT Search retains files, cuts them into units, publishes immutable
generations through a crash-safe control database and serves paged exact-match
results over a framed session. This Dafny project models the five parts of it
whose correctness spans many functions, and proves what each part promises.
`dafny verify dfyconfig.toml` checks everything.

## How the project is organised

**Publication protocol.** `Control` has the rows, the header and one function
for each database transaction, returning the committed database and result or
the error for which nothing changes. `Protocol` turns these into a transition
system with the remote backend and everything any client may ever have read;
history only grows, so a crash, which forgets values, enables nothing that was
not enabled before it, and every run with crashes, lost replies and several
clients is a run of the system. `Graph`, `CorpusSteps`, `BuildSteps`,
`PendingSteps` and `ClosingSteps` show that every step keeps the invariant;
`PublicationTheorems` has the results over whole runs. `Catalogue` says what
each source and preparation transaction reads, writes and removes, by the
tables' own keys, and `Progress` when each publication transaction succeeds.
`Verify` is the exhaustive check of a saved generation, proved equivalent to a
declarative description; `Acceptance` says what acceptance means and which sealed builds
are accepted. `Store` is the mutable control writer, each method proved to be
one step of a run; `Staging` and `Publish` are the drivers above it, up to one
whole publication against any sequence of backend answers. A store is made
`calm` or not: a calm one is never interrupted, reads every artifact and has
every mutation acknowledged, and for it the same methods also promise success.

**Preparation.** `Text` is UTF-8 (RFC 3629), `Lines` the materialized line
inventory and the streaming cursor, `Layout` the line-preferred units, `Wire`
and `Artifact` the byte format, `Prepared` the producer and the decoder.
`DecodedUnits` connects the decoder to staging.

**Exact search.** `Literal` is the prefix table and the block-wise scan.
`Exact` has the accounting over what is found behind each selected source, the
client's validator of both result kinds and the raw execution; `Decoded` finds
the retained text of a source and executes over it. `Published` lists the
sources of the published generation and runs either search over them.
`Answers` reads what a search shows off the inventory and the objects alone,
and says what a client may conclude from what it accepted, whoever made it.

**Session.** `Session` is the I/O owner, its queue and the worker as events,
with the invariant of every run; `Requests` is the account of every request and
its one answer, and what each event does; `Exchange` holds the same as mutable
objects; `Window` cuts pages and checks them on the client's side; `Delivery`
joins the runs with the client; `Frame` receives and writes frames.

**Root directory.** `PlainRoot` models the directory as a map from names to
contents, every file operation as a point where the process may stop.

## Main results

- A successful commit publishes exactly the source and preparation tables of
  that instant, under any interleaving (`PublicationTheorems.CommitIsFresh`),
  and `Publish.PrepareView` carries this to the generation finally opened.
- A commit succeeds exactly for a sealed, created, wholly uploaded build of the
  present corpus with nothing in flight (`Progress.CommitSucceeds`), and a
  publication that nothing interrupts succeeds for every prepared corpus within
  the limits, sources with gaps included, as long as what is already served or
  resumed is sound (`Publish.PrepareView` under `Publish.CanPublish`).
- Every source and preparation transaction succeeds exactly under a guard that
  still stands, and changes exactly what it names (`Catalogue.RemovedExactly`
  and the lemmas beside it).
- At most one mutation is outstanding; the uploaded count is the acknowledged
  prefix; a build superseded in doubt is never served, deleted or cleaned.
- Whenever staging succeeds the exhaustive check accepts
  (`Staging.StageCapture`), and acceptance puts every byte of a prepared source
  in exactly one unit (`Acceptance.AcceptedCoversOnce`).
- The artifact decoder accepts exactly the encodings of acceptable contents,
  and decoding what was prepared returns the text and the layout's own units.
- Lines end exactly where their bytes say, CR LF being one terminator
  (`Lines.LineEndsAreTerminators`, `Lines.ContentByBytes`).
- Bytes are prepared exactly when they are textual and the one layout that
  follows the rule fits every limit (`Prepared.Prepare`).
- The literal scan reports every occurrence. Raw and decoded results tell the
  whole truth about every selected source, and the client's independent check
  refuses one exactly when it shows an item of a source with a zero identifier,
  or a missing object whose artifact is above the ceiling
  (`Exact.AccountsValidate`). In an accepted generation only an empty source
  can have such an artifact (`Published.AcceptedInventory`), and a generation
  this daemon staged has none. `Published.Search` opens the published
  generation and searches its own inventory.
- In every session run the fully flushed pages are a prefix of the result, no
  cursor move is stale, and every cursor move comes from a page job that was
  never cancelled, timed out or replaced; the client accepts each of those
  pages and holds exactly that prefix (`Delivery.ClientHoldsFlushed`).
- In every session run the requests asked, less those a Close replaced, are
  those answered whole, in order and under their own identifiers, and then
  those that still wait (`Requests.AnsweredOnce`).
- The client accepts every page the daemon can cut, and whatever pages it
  accepted, it holds an ordered prefix of answers (`Answers.AcceptedPrefix`). Raw and decoded results are
  executed here and proved to be such that a window may retain them; that a
  ranked result is one is a hypothesis, its retrieval being the backend's work.
- Frames depend only on the byte stream, not on how it is cut into reads, and
  what was sent as frames is received as those frames (`Frame.SentIsReceived`).
- Every state either root operation leaves, at whatever file operation it is
  stopped, is absent, empty, unfinished or current, and undisturbed
  initialization takes the first three to current. A root is current exactly
  when it holds what may be opened, in use or not (`PlainRoot.CurrentIsOpenable`).

## Where the code decides

- Identifiers are drawn at random and read back as any sixteen bytes, but the
  client refuses a zero one. `Exact.AccountsValidate` gives the exact condition
  under which a truthful result is refused and `Exact.ZeroIdIsRefused` an input;
  a zero source identifier matters only if its source contributes an item, which
  ascending order makes the first, and a zero namespace only if anything does.
- A saved outcome may name an artifact above the ceiling the client accepts. A
  decoded search reports it when the source object is lost, before the artifact
  itself would be read, and then the client refuses the result
  (`Exact.LongArtifactIsRefused`, exactly when: `Decoded.DecodedRefusal`). No
  raw result is refused for this reason (`Exact.RawRefusal`). The evidence rows
  of an accepted generation bound every artifact with a unit, so only a source
  of zero bytes qualifies (`Acceptance.AcceptedArtifact`); staging reads every
  ready artifact under the ceiling, so it publishes none, empty source or not
  (`Staging.StageCapture`, `DecodedUnits.StagedNamesNone`).
- The source row encoder has no object ceiling where the decoder has one
  (`CorpusSteps.CeilingOnRead`).
- A wanted revision of a new database starts at zero and every changing source
  or preparation transaction advances it; creating the source schema alone does
  not, which is harmless because it moves no row.
- Limits that no single step checks (completed sources against the source
  count, pages against the point ceiling) hold because of the invariant: the
  header decoder enforces them and no run ever writes a header it would refuse.
- What a caller is told is not always what happened: a transaction whose
  commit reached the disk can still be reported as a database failure.
  `Store.Transacted` says so, and the final commit reads the header back.

## Model

| member | source | states |
|---|---|---|
| `PublicationTheorems.CommitIsFresh` | `crates/search-control-redb/src/publication.rs:1153-1210` | In every run from a root without publications, whenever a commit succeeds the generation it publishes is exactly the source and preparation tables of that instant, with nothing in flight and creation plus every page insert acknowledged in order |
| `PublicationTheorems.CurrentMatchIsFresh` | `crates/search-control-redb/src/publication.rs:218-222` | A capture that finds the current generation matching was read while that generation was exactly the current source and preparation tables |
| `PublicationTheorems.Reachable` | `crates/search-control-redb/src/publication.rs:418-461` | Every state any interleaving of source, preparation, build, backend and cleanup steps can reach satisfies the whole invariant |
| `PublicationTheorems.NextKeeps` | `crates/search-control-redb/src/publication.rs:418-461` | One step of any kind keeps the invariant: catalogue indexes, header, row ownership, graph coherence, freshness, dispatch account and cleanup knowledge |
| `PublicationTheorems.RunKeeps` | `crates/search-control-redb/src/publication.rs:418-461` | Every finite run keeps the invariant |
| `PublicationTheorems.OneOutstanding` | `crates/search-control-redb/src/publication.rs:1076-1112` | A dispatched mutation without a known result is the last one of its build and is the one the pending or superseded header names; there is at most one |
| `PublicationTheorems.UploadedIsAcknowledged` | `crates/search-control-redb/src/publication.rs:1118-1146` | The settled acknowledgements of the pending build are exactly creation and then pages 0 up to the uploaded count, in order; the dispatch revision counts its mutations |
| `PublicationTheorems.CollectionsAccounted` | `crates/search-control-redb/src/publication.rs:1334-1391` | A collection the backend acknowledged is current, pending, retired or deleted; a deleted one is never served or pending, has nothing in flight and was not in doubt |
| `PublicationTheorems.InDoubtForever` | `crates/search-control-redb/src/publication.rs:1257-1314` | A build superseded with a mutation in flight never becomes current or pending in any later state, never has its collection deleted and never loses or changes a row |
| `PublicationTheorems.NeverReused` | `crates/search-control-redb/src/publication.rs:602-672` | A reserved sequence that is neither current nor pending never becomes either again, and never reappears among the retired rows |
| `PublicationTheorems.ReservationIsNew` | `crates/search-control-redb/src/publication.rs:640-669` | A reservation draws a sequence that nothing owns, that has no row, no dispatch and no deleted collection |
| `PublicationTheorems.SealedRowsFrozen` | `crates/search-control-redb/src/publication.rs:736-825` | From sealing until it leaves the pending and current slots, no source, page or evidence row of a generation changes and its counts stay |
| `PublicationTheorems.HeadersReadBack` | `crates/search-control-redb/src/publication.rs:321-361` | Every header a run writes is accepted again when read, every retired row is readable, retired rows plus a pending build never exceed eight, and superseding never meets a full retired table |
| `PublicationTheorems.NextMoves` | `crates/search-control-redb/src/publication.rs:1153-1314` | The complete list of moves a sequence can make in one step: who may become current, pending or retired, which rows may change, and what never moves |
| `PublicationTheorems.UsableForever` | `crates/search-control-redb/src/current_preparation.rs:722-729` | The same over any run: neither failed preparations nor any publication step lose an artifact usable for inputs that stay |
| `Catalogue.CommitSourceSucceeds` | `crates/search-control-redb/src/current_source.rs:875-1048` | A source commit succeeds if and only if the guard is what a read would return now and revisions are left to count what changes |
| `Catalogue.CommitSourceWrites` | `crates/search-control-redb/src/current_source.rs:978-1048` | A source commit writes one row and one locator under the guard's id and nothing else: a new source as revision one, an old one as its next revision under the same registration, and nothing when nothing changed |
| `Catalogue.RemoveSucceeds` | `crates/search-control-redb/src/current_source.rs:1061-1154` | A removal succeeds if and only if nothing is expected, or every expected row is stored exactly so, none twice, within the inventory limit and with a revision left |
| `Catalogue.RemovedExactly` | `crates/search-control-redb/src/current_source.rs:1110-1150` | After a removal, under every id the row and preparation, and under every locator the entry, are as before if it is not among those expected, and absent if it is |
| `Catalogue.SelectSettingsSucceeds` | `crates/search-control-redb/src/current_preparation.rs:535-607` | A settings selection succeeds if and only if the settings are supported, the source is retained under the same registration and the preparation is the one seen, with revisions left |
| `Catalogue.SelectSettingsWrites` | `crates/search-control-redb/src/current_preparation.rs:555-607` | It writes that one preparation, the settings under the next revision with whatever outcome there was, and nothing else |
| `Catalogue.CommitOutcomeSucceeds` | `crates/search-control-redb/src/current_preparation.rs:690-752` | An outcome is accepted if and only if its guard is what a read would return again, with revisions left if it is written |
| `Catalogue.CommitOutcomeWrites` | `crates/search-control-redb/src/current_preparation.rs:711-752` | It writes that one preparation's outcome bound to the guard's inputs, or nothing where nothing would change or a gap would replace a usable artifact |
| `CorpusSteps.RevisionRule` | `crates/search-control-redb/src/current_source.rs:658-670` | A source or preparation transaction that leaves the wanted-corpus revision alone leaves every source row and every preparation row alone |
| `CorpusSteps.CommitSourceMoves` | `crates/search-control-redb/src/current_source.rs:978-1048` | Committing a source advances the wanted revision unless nothing changed, and keeps the id and locator indexes each other's inverse |
| `CorpusSteps.RemoveSourcesMoves` | `crates/search-control-redb/src/current_source.rs:1061-1154` | Removing sources advances the wanted revision and keeps the id and locator indexes each other's inverse |
| `CorpusSteps.CorpusActionKeeps` | `crates/search-control-redb/src/current_source.rs:658-670` | Any source or preparation transaction keeps the publication invariant, whatever build is under way |
| `CorpusSteps.SourceGuardSpent` | `crates/search-control-redb/src/current_source.rs:875-946` | Once a commit under a guard changed anything, every further commit under that guard is stale |
| `CorpusSteps.SettingsGuardSpent` | `crates/search-control-redb/src/current_preparation.rs:555-607` | Selecting settings keeps the outcome, counts its revision and spends the view it was made from |
| `CorpusSteps.OutcomeGuardSpent` | `crates/search-control-redb/src/current_preparation.rs:690-752` | A saved outcome is bound to the inputs and settings its guard was read with, and spends that guard |
| `CorpusSteps.CeilingOnRead` | `crates/search-control-redb/src/current_source.rs:489-578` | The row encoder has no ceiling where the decoder has one: what a commit wrote reads back exactly when its object is within the ceiling |
| `CorpusSteps.OverCeilingIsWritten` | `crates/search-control-redb/src/current_source.rs:489-515` | An object one byte over the ceiling is committed as a row no read accepts |
| `CorpusSteps.ReadyIsKept` | `crates/search-control-redb/src/current_preparation.rs:722-729` | No source or preparation transaction takes a usable artifact away while the source keeps its registration, object and settings: a gap saved later does not replace it |
| `BuildSteps.CaptureIsJoin` | `crates/search-control-redb/src/publication.rs:506-595` | A successful capture is exactly the join of the source and preparation tables, each row consistent with its preparation |
| `BuildSteps.CaptureIsFresh` | `crates/search-control-redb/src/publication.rs:506-595` | A capture is fresh for the wanted revision it carries |
| `BuildSteps.ToMapContent` | `crates/search-control-redb/src/publication.rs:674-720` | A captured inventory in key order lists each of its rows exactly once |
| `BuildSteps.StartKeeps` | `crates/search-control-redb/src/publication.rs:602-672` | Reserving a generation keeps the invariant |
| `PendingSteps.PersistKeeps` | `crates/search-control-redb/src/publication.rs:674-720` | Saving a chunk of captured inputs keeps the invariant, and touches no source row of a sealed build |
| `PendingSteps.InsertInputsKeep` | `crates/search-control-redb/src/publication.rs:699-716` | Inserted inputs extend the saved rows with exactly the captured rows and disturb none |
| `PendingSteps.PutPageEffect` | `crates/search-control-redb/src/publication.rs:736-825` | A committed page changes only the rows of its own sequence and its own header |
| `PendingSteps.StageKeeps` | `crates/search-control-redb/src/publication.rs:736-825` | Staging a page keeps the invariant, and with it the point and page ceilings no step checks |
| `PendingSteps.FinishKeeps` | `crates/search-control-redb/src/publication.rs:831-869` | Completing a source keeps the invariant: completed sources never exceed the source count |
| `PendingSteps.SealKeeps` | `crates/search-control-redb/src/publication.rs:875-890` | Sealing keeps the invariant: every captured source is saved and complete |
| `PendingSteps.DispatchKeeps` | `crates/search-control-redb/src/publication.rs:1076-1112` | Recording a dispatch keeps the invariant |
| `PendingSteps.SettleEffect` | `crates/search-control-redb/src/publication.rs:1118-1146` | Settling moves the header by exactly the answer: creation, one more page, or nothing when refused |
| `PendingSteps.SettleKeeps` | `crates/search-control-redb/src/publication.rs:1118-1146` | Settling keeps the invariant |
| `PendingSteps.EditKeeps` | `crates/search-control-redb/src/publication.rs:462-473` | An edit of the pending build that meets its local obligations keeps the whole invariant |
| `Graph.StagePageKeeps` | `crates/search-control-redb/src/publication.rs:760-822` | Staging one page keeps the source, page and evidence rows coherent and appends exactly the page's points |
| `ClosingSteps.AnswerBuildLog` | `crates/search-control-redb/src/publication.rs:1118-1146` | Only the in-flight mutation can still be answered, so an answer never changes what a header has settled |
| `ClosingSteps.AnswerKeeps` | `bins/eliot-searchd/src/published_corpus.rs:354-377` | A backend answer arriving at any time keeps the invariant |
| `ClosingSteps.CommitEffect` | `crates/search-control-redb/src/publication.rs:1153-1210` | A commit succeeds only fresh, sealed, created and fully uploaded with nothing in flight, and makes the predecessor an owned retired row |
| `ClosingSteps.CommitKeeps` | `crates/search-control-redb/src/publication.rs:1153-1210` | Committing keeps the invariant |
| `ClosingSteps.AbandonKeeps` | `crates/search-control-redb/src/publication.rs:1217-1247` | Abandoning keeps the invariant |
| `ClosingSteps.SupersedeKeeps` | `crates/search-control-redb/src/publication.rs:1257-1314` | Superseding keeps the invariant |
| `ClosingSteps.RemoveEffect` | `crates/search-control-redb/src/publication.rs:1409-1453` | Row removal touches only rows of its retired sequence, which is neither current nor pending |
| `ClosingSteps.RemoveKeeps` | `crates/search-control-redb/src/publication.rs:1409-1453` | Removing retired rows keeps the invariant |
| `ClosingSteps.ForgetKeeps` | `crates/search-control-redb/src/publication.rs:1398-1454` | Forgetting a retired row keeps the invariant: no data row is orphaned |
| `Progress.CommitSucceeds` | `crates/search-control-redb/src/publication.rs:1153-1210` | A commit under the pending header succeeds if and only if nothing is in flight, the build is sealed, created and fully uploaded, the corpus is the one it captured, and a revision is left: gaps are no obstacle |
| `Progress.StartSucceeds` | `crates/search-control-redb/src/publication.rs:602-672` | Under a capture of the present database a build is reserved if and only if none is pending, the retired table has room and a sequence is left |
| `Progress.PersistSucceeds` | `crates/search-control-redb/src/publication.rs:674-720` | A chunk of distinct captured rows, none saved yet, is always saved |
| `Progress.StagePageSucceeds` | `crates/search-control-redb/src/publication.rs:736-825` | A page of next points that encodes is always staged while the build is open: no byte ceiling of the whole build can refuse it |
| `Progress.FinishSucceeds` | `crates/search-control-redb/src/publication.rs:831-869` | A source is marked complete if and only if the build is open, it is captured and unfinished, and it has that many staged units |
| `Progress.SealSucceeds` | `crates/search-control-redb/src/publication.rs:875-890` | A build is sealed if and only if the corpus is the captured one and every source is complete |
| `Progress.DispatchSucceeds` | `crates/search-control-redb/src/publication.rs:1076-1112` | A mutation is recorded if and only if the corpus is the captured one, none is in flight, the build is sealed and this one is next |
| `Progress.SettleSucceeds` | `crates/search-control-redb/src/publication.rs:1118-1146` | An answer is recorded if and only if it is for the mutation in flight at its revision |
| `Progress.AbandonSucceeds` | `crates/search-control-redb/src/publication.rs:1217-1247` | A build is abandoned if and only if nothing is in flight |
| `Progress.SupersedeSucceeds` | `crates/search-control-redb/src/publication.rs:1257-1314` | A build is set aside if and only if something is in flight: there is always room for it |
| `Progress.RemoveSucceeds` | `crates/search-control-redb/src/publication.rs:1398-1496` | Rows of a retired generation, and its retired row, are removed if and only if that retired row stands |
| `Progress.RetirementsRead` | `crates/search-control-redb/src/publication.rs:1334-1391` | The retired rows of a state of a run are always read, all of them |
| `Verify.VerifyGeneration` | `crates/search-control-redb/src/publication/verify.rs:181-232` | The exhaustive check accepts exactly the saved graphs the declarative description allows, in both directions, and otherwise reports corruption |
| `Verify.VerifySources` | `crates/search-control-redb/src/publication/verify.rs:79-125` | The inventory walk succeeds exactly when every row is sound and complete and the source, gap and unit counts and the namespace agree |
| `Verify.VerifyPages` | `crates/search-control-redb/src/publication/verify.rs:192-226` | The page walk succeeds exactly when page keys are consecutive, every page is accepted after those before it and the counts agree |
| `Verify.VerifyPage` | `crates/search-control-redb/src/publication/verify.rs:127-145` | One page is accepted exactly when its points continue the graph read so far |
| `Verify.VerifyEvidence` | `crates/search-control-redb/src/publication/verify.rs:147-179` | The evidence walk succeeds exactly when its keys are ids of this generation and as many as its points |
| `Verify.AcceptIsOrderly` | `crates/search-control-redb/src/publication/verify.rs:56-71` | Accepting one more point against the progress records is exactly keeping every source's units numbered and abutting |
| `Verify.KeysAreTheIds` | `crates/search-control-redb/src/publication/verify.rs:147-179` | A key count and a range check decide that the evidence table is exactly that of the listed points |
| `Verify.GraphParts` | `crates/search-control-redb/src/publication/verify.rs:181-232` | The description is the conjunction of what the stages of the walk check |
| `Acceptance.AcceptedCoversOnce` | `crates/search-control-redb/src/publication/verify.rs:56-76` | In an accepted generation every byte of a prepared source lies in exactly one unit, and a gap has none |
| `Acceptance.AcceptedIds` | `crates/search-control-redb/src/publication/verify.rs:127-179` | The points of an accepted generation are its sequence paired with 0, 1, 2, ... in page order and the evidence table holds exactly those keys |
| `Acceptance.SealedBuildAccepted` | `crates/search-control-redb/src/publication/verify.rs:181-232` | In every reachable state the check accepts a sealed build exactly when the staged units of each prepared source tile its bytes |
| `Acceptance.PendingAccepted` | `crates/search-control-redb/src/publication/verify.rs:181-232` | The same, for the pending build of any state that satisfies the invariant |
| `Acceptance.StaysAccepted` | `crates/search-control-redb/src/publication.rs:1052-1069` | A sealed generation accepted once is accepted for as long as it is uploaded or served, whatever runs meanwhile |
| `Acceptance.AcceptedArtifact` | `crates/search-control-redb/src/publication/codec.rs:117-133` | In an accepted generation a ready source that is not empty names an artifact within the ceiling |
| `Store.ControlStore.constructor` | `crates/search-control-redb/src/publication.rs:1649-1654` | A new control file is a valid start of a protocol run |
| `Store.ControlStore.EditDatabase` | `crates/search-control-redb/src/publication.rs:418-461` | One write transaction commits completely or not at all; a caller told of a database failure may find either |
| `Store.ControlStore.CommitSource` | `crates/search-control-redb/src/current_source.rs:978-1048` | Success writes one row and one locator as the guard says and nothing else; otherwise everything is left alone, or a database failure hides that one source step happened; nothing fails without cause when nothing interrupts |
| `Store.ControlStore.RemoveSources` | `crates/search-control-redb/src/current_source.rs:1061-1154` | Success leaves every row, locator and preparation not named as it was and none that was named; otherwise everything is left alone, or a database failure hides that one removal happened |
| `Store.ControlStore.SelectSettings` | `crates/search-control-redb/src/current_preparation.rs:514-607` | Success writes the one preparation, its settings under the next revision; otherwise everything is left alone, or a database failure hides that one settings step happened |
| `Store.ControlStore.CommitOutcome` | `crates/search-control-redb/src/current_preparation.rs:690-752` | Success writes the one outcome, or nothing if it would lose a usable artifact; otherwise everything is left alone, or a database failure hides that one outcome step happened |
| `Store.StageEach` | `crates/search-control-redb/src/publication.rs:760-807` | Staging point by point with an early exit is the specified staging of the whole page, success or failure |
| `Store.InsertEach` | `crates/search-control-redb/src/publication.rs:699-716` | Inserting row by row with an early exit is the specified insertion of the whole chunk |
| `Store.ControlStore.StageRows` | `crates/search-control-redb/src/publication.rs:736-825` | The mutable staging of header and three tables computes exactly the specified edit |
| `Store.ControlStore.StagePage` | `crates/search-control-redb/src/publication.rs:736-825` | The transaction is one staging step of the protocol, or leaves everything alone |
| `Store.ControlStore.FinishSource` | `crates/search-control-redb/src/publication.rs:831-869` | The transaction is one completion step of the protocol, or leaves everything alone |
| `Store.ControlStore.CompleteCapture` | `crates/search-control-redb/src/publication.rs:875-890` | The transaction is the sealing step of the protocol, or leaves everything alone |
| `Store.ControlStore.RecordDispatch` | `crates/search-control-redb/src/publication.rs:1076-1112` | The transaction is one dispatch step of the protocol, or leaves everything alone |
| `Store.ControlStore.FinishDispatch` | `crates/search-control-redb/src/publication.rs:1118-1146` | The transaction is one settling step of the protocol, or leaves everything alone |
| `Store.ControlStore.AbandonBuild` | `crates/search-control-redb/src/publication.rs:1217-1247` | The transaction is the abandoning step of the protocol, or leaves everything alone |
| `Store.ControlStore.SupersedeUnknown` | `crates/search-control-redb/src/publication.rs:1257-1314` | The transaction is the superseding step of the protocol, or leaves everything alone |
| `Store.JoinRow` | `crates/search-control-redb/src/publication.rs:539-583` | One captured row is the join of its two table rows, consistent, and charged its encoded bytes within the bound; it is corrupt only when the rows do not belong together and over the limit only when its bytes do not fit |
| `Store.ReadCorpus` | `crates/search-control-redb/src/publication.rs:506-595` | One ordered pass returns a capture of the database it read; it reports an unprepared corpus only when some source has no matching preparation, a limit only when the corpus is too large, and corruption only when rows do not join |
| `Store.ControlStore.CaptureCorpus` | `crates/search-control-redb/src/publication.rs:898-902` | A capture is exactly the stored corpus and changes no row; it never finds corruption in a state of a run; uninterrupted it fails only for an unprepared source or a corpus too large |
| `Store.ControlStore.StartBuild` | `crates/search-control-redb/src/publication.rs:602-720` | A returned build is reserved and holds exactly the captured inputs, saved in chunks of 32, each chunk its own transaction; uninterrupted it is returned whenever the capture is of the present corpus, none is pending, and place and sequence remain |
| `Store.ControlStore.CommitGeneration` | `crates/search-control-redb/src/publication.rs:1153-1210` | Whether the commit's own result arrives or the header is read back instead, success means this generation is current, and the present corpus if a build was pending; uninterrupted it succeeds whenever the transaction does |
| `Store.ControlStore.ReadPending` | `crates/search-control-redb/src/publication.rs:388-404` | A successful read returns the stored pending header |
| `Store.ControlStore.RetiredGenerations` | `crates/search-control-redb/src/publication.rs:1334-1391` | Every retired row is accepted before any is returned, and all of them are returned; uninterrupted they always are |
| `Store.ControlStore.ClearTable` | `crates/search-control-redb/src/publication.rs:1409-1440` | Repeated removal of at most 32 keys ends with the table empty of the sequence and touches nothing else; uninterrupted it always ends so |
| `Store.ControlStore.FinishRetirement` | `crates/search-control-redb/src/publication.rs:1398-1454` | Success leaves no row of the sequence and no retired row; an unresolved build is refused with nothing changed; other sequences are untouched; uninterrupted, every standing resolved row is finished |
| `Store.ControlStore.PersistRows` | `crates/search-control-redb/src/publication.rs:674-720` | The row-by-row body of a chunk's transaction computes exactly the specified edit, or drops the whole chunk on the first row already there |
| `Staging.StageCompletePage` | `bins/eliot-searchd/src/published_corpus.rs:208-263` | Halving a page on an explicit stack stages its points in their order, each part within both byte limits; only a point that does not fit alone is too large; uninterrupted, next points that each fit alone are all staged |
| `Staging.MeasurePage` | `bins/eliot-searchd/src/published_corpus.rs:220-241` | A page is measured as fitting, as one that must be split, or as not matching its decoded units, exactly; any other failure has its cause |
| `Staging.StageSource` | `bins/eliot-searchd/src/published_corpus.rs:264-353` | A staged source adds exactly one point for each decoded unit, consecutively numbered, and is marked complete; a gap is only marked; uninterrupted, every source whose units can each be sent alone is staged |
| `Staging.StageCapture` | `bins/eliot-searchd/src/published_corpus.rs:555-578` | Whenever staging a captured corpus returns the sealed build, the exhaustive check accepts it, and every ready artifact was read and decoded; uninterrupted, it is returned whenever every source can be staged and the units fit one generation |
| `Staging.OwnUnitsTile` | `bins/eliot-searchd/src/published_corpus.rs:264-353` | Points made from a partition tile their source and belong to no other |
| `Staging.HydratesOwn` | `bins/eliot-searchd/src/published_corpus.rs:60-100` | Evidence of a source hydrates exactly when it is the evidence of one of the decoded units, coordinates and marks alike |
| `DecodedUnits.DecodedEvidenceValid` | `crates/search-control-redb/src/publication/codec.rs:117-133` | The evidence of any unit of an accepted artifact passes the page encoder |
| `DecodedUnits.DecoderPartitions` | `bins/eliot-searchd/src/published_corpus.rs:285-293` | A reader that returns only units the artifact decoder accepted meets what staging requires of it |
| `DecodedUnits.StagedNamesNone` | `bins/eliot-searchd/src/published_corpus.rs:283-293` | A corpus staged by a reader of accepted artifacts under the artifact ceiling names no artifact above it |
| `DecodedUnits.DecodedIsStageable` | `bins/eliot-searchd/src/published_corpus.rs:264-353` | A source whose artifact the decoder accepts can be staged whenever a request of a single point is within the request limit |
| `Publish.PrepareView` | `bins/eliot-searchd/src/published_corpus.rs:580-650` | When publication succeeds under any backend answers and interruptions, the opened generation is current, is exactly the present source and preparation tables, passes the exhaustive check as stored and was fully acknowledged; uninterrupted, with every mutation acknowledged, it succeeds for every prepared corpus within the limits, gaps included, when what is already served or resumed is sound |
| `Publish.SettleReply` | `bins/eliot-searchd/src/published_corpus.rs:354-377` | An applied answer advances the build by exactly its mutation; an answer in doubt changes nothing and is reported; an applied one is always recorded when nothing interrupts |
| `Publish.Send` | `bins/eliot-searchd/src/published_corpus.rs:378-446` | A sent mutation is recorded before it is dispatched and settled before it counts; uninterrupted, the next mutation of a build of the present corpus is always sent |
| `Publish.Upload` | `bins/eliot-searchd/src/published_corpus.rs:378-446` | Success means the collection was created once and every page inserted in order, on the same rows; uninterrupted, a sealed build of the present corpus is uploaded whole |
| `Publish.Cleanup` | `bins/eliot-searchd/src/published_corpus.rs:523-554` | Success leaves nothing of any retired generation that was not in doubt; success or not, no header, no source table, no other sequence and nothing of an unresolved build changes; uninterrupted it succeeds |
| `Publish.ValidateGeneration` | `crates/search-control-redb/src/publication.rs:1052-1069` | Succeeds exactly for a generation the header names whose rows the exhaustive check accepts; stale exactly when it is not named, otherwise corrupt |
| `Publish.OpenPublished` | `crates/search-control-redb/src/publication.rs:1698-1706` | Succeeds exactly when there is a current generation and its rows are accepted, and opens that one; each error has its cause |
| `Publish.Recover` | `bins/eliot-searchd/src/published_corpus.rs:589-616` | The capture publication works from has no build in doubt, which is set aside under its own sequence and reported; a build it resumes is sealed and matches the corpus; an unfinished or outdated one is abandoned and the caller told to come again |
| `Publish.BuildAndUpload` | `bins/eliot-searchd/src/published_corpus.rs:618-632` | The build it returns is sealed, created and fully uploaded with nothing in flight; a resumed build stays the same generation; uninterrupted, a corpus whose every source can be staged is built and uploaded |
| `Publish.PrepareGeneration` | `bins/eliot-searchd/src/published_corpus.rs:588-635` | The generation to verify is the current one, of the present tables, or a sealed build; uninterrupted, an acceptable one is found and its commit will succeed |
| `Publish.GapsCanPublish` | `bins/eliot-searchd/src/published_corpus.rs:580-650` | A root never published can publish a corpus of which every source is a gap |
| `Text.BoundaryIsScalarStart` | `crates/search-prep/search-unitizer/src/layout.rs:85-133` | In valid UTF-8 the one-byte boundary test finds exactly the starts of scalars |
| `Text.NextBoundary` | `crates/search-prep/search-unitizer/src/layout.rs:117-132` | The scalar at a boundary ends at the next boundary, at most four bytes on |
| `Text.ValidIsEncoded` | `crates/search-prep/search-unitizer/src/prepared.rs:112-139` | Bytes pass as text exactly when they are the UTF-8 encoding of some scalar values (section 3 of RFC 3629) |
| `Lines.ScanLines` | `crates/search-prep/search-materializer/src/utf8/scan.rs:43-82` | The scan returns exactly the line inventory, or refuses when it has too many lines |
| `Lines.AllLinesConsecutive` | `crates/search-prep/search-materializer/src/utf8/scan.rs:43-82` | Lines are numbered in order and cover the text without gap or overlap |
| `Lines.LineIsScanned` | `crates/search-prep/search-materializer/src/utf8/scan.rs:84-108` | Each line of the inventory is the one scanning from its start finds |
| `Lines.BelowInside` | `crates/search-prep/search-unitizer/src/layout.rs:56-68` | The binary lookup of a position finds the one line that reaches it |
| `Lines.Cursor.Next` | `crates/search-prep/search-unitizer/src/prepared/decode.rs:172-211` | The forward cursor yields the inventory's lines one by one, then nothing, and refuses exactly the line past the maximum |
| `Lines.LineEndsAreTerminators` | `crates/search-prep/search-materializer/src/utf8/scan.rs:43-82` | A line ends exactly at the end of a non-empty text, after an LF, and after a CR that no LF follows: CR LF is one terminator |
| `Lines.ContentByBytes` | `crates/search-prep/search-materializer/src/utf8/scan.rs:84-108` | The content of a line excludes exactly its terminator: two bytes for CR LF, one for a lone CR or LF, none at an unterminated end |
| `Layout.ChooseEnd` | `crates/search-prep/search-unitizer/src/layout.rs:85-133` | A unit ends where the line-preferred rule says; there is no end exactly when the scalar at its start is longer than the hard size |
| `Layout.LineBoundaryIffReachable` | `crates/search-prep/search-unitizer/src/layout.rs:85-117` | A unit ends on a line boundary exactly when some line ends within its hard reach |
| `Layout.Describe` | `crates/search-prep/search-unitizer/src/layout.rs:56-78` | Line numbers and line-start and line-end marks of a unit are those of the lines its ends lie in |
| `Layout.Unitize` | `crates/search-prep/search-unitizer/src/layout.rs:30-83` | Units are non-empty, aligned, at most the hard size, partition the text and follow the rule; refused exactly when no such layout within the unit limit exists, a scalar too long only for a hard size under four |
| `Layout.LayoutIsExact` | `crates/search-prep/search-unitizer/src/layout.rs:30-83` | The rule determines the whole layout of a text: no two unit lists follow it |
| `Wire.LERoundTrip` | `crates/search-prep/search-unitizer/src/prepared/wire.rs:20-24` | Reading back a written little-endian integer gives it again |
| `Wire.UnLERoundTrip` | `crates/search-prep/search-unitizer/src/prepared/wire.rs:49-69` | Any bytes are the little-endian writing of the integer they read as |
| `Wire.Reader.Take` | `crates/search-prep/search-unitizer/src/prepared/wire.rs:36-47` | A read returns the next bytes and advances, or nothing and stays, never past the end |
| `Wire.Reader.TakeNat` | `crates/search-prep/search-unitizer/src/prepared/wire.rs:49-69` | The integer read is the one whose writing these bytes are |
| `Wire.PlaceValues` | `crates/search-prep/search-unitizer/src/prepared/wire.rs:55-69` | Four and eight bytes read by their place values, the low byte first |
| `Artifact.UnitInjective` | `crates/search-prep/search-unitizer/src/prepared/encode.rs:49-57` | Two representable units with the same descriptor are equal |
| `Artifact.ReadUnit` | `crates/search-prep/search-unitizer/src/prepared/decode.rs:112-119` | A descriptor is read exactly when the bytes are the encoding of some unit, and then as that unit |
| `Artifact.BindingIsExact` | `crates/search-prep/search-unitizer/src/prepared/encode.rs:25-48` | The fields before the text determine the source and the settings |
| `Prepared.Seek` | `crates/search-prep/search-unitizer/src/prepared/decode.rs:129-140` | Moving the forward cursor stops at the line a lookup in the whole inventory would find |
| `Prepared.CheckUnit` | `crates/search-prep/search-unitizer/src/prepared/decode.rs:120-148` | The streaming check of a unit is the check against the whole inventory, in both directions |
| `Prepared.ReadUnits` | `crates/search-prep/search-unitizer/src/prepared/decode.rs:85-156` | Descriptors are accepted exactly when the bytes encode acceptable units of the text, and those units are returned |
| `Prepared.ReadFields` | `crates/search-prep/search-unitizer/src/prepared/decode.rs:60-83` | The bound fields are compared in order; refusal means the bytes do not begin with them |
| `Prepared.Decode` | `crates/search-prep/search-unitizer/src/prepared/decode.rs:12-58` | Accepted bytes are exactly the encodings of an acceptable text and units, which are what is returned: any accepted artifact re-encodes to itself |
| `Prepared.Encode` | `crates/search-prep/search-unitizer/src/prepared/encode.rs:13-60` | The written artifact is the specified encoding, refused exactly when it passes the byte ceiling |
| `Prepared.RejectBinary` | `crates/search-prep/search-materializer/src/utf8/scan.rs:19-41` | Content is refused as binary exactly when it holds a NUL byte or at least the threshold of control bytes |
| `Prepared.Prepare` | `crates/search-prep/search-unitizer/src/prepared.rs:112-139` | Bytes are prepared exactly when they are textual and their layout by the rule fits every limit; the first failing check is the error reported, and each later refusal has its cause |
| `Prepared.EncodingIsExact` | `crates/search-prep/search-unitizer/src/prepared/encode.rs:13-60` | Two acceptable readings of the same bytes are the same text and units |
| `Prepared.RoundTrip` | `crates/search-prep/search-unitizer/src/prepared.rs:152-175` | Decoding what preparation produced, under the same source, settings and limits, never fails and returns the original text and exactly the units layout chose |
| `Prepared.BoundToOne` | `crates/search-prep/search-unitizer/src/prepared/decode.rs:60-83` | Saved bytes accepted for two sources or settings are accepted for the same |
| `Prepared.BinaryRule` | `crates/search-prep/search-materializer/src/utf8/scan.rs:19-41` | Content has too many controls exactly when at least four bytes, and at least one in every hundred, are controls other than tab, line feed, form feed and carriage return |
| `Prepared.DaemonPrepares` | `bins/eliot-searchd/src/published_corpus.rs:36-49` | Under the limits of the daemon, bytes are prepared exactly when they are the recorded ones of a retained source, textual, and within the line and unit limits: the encoded size never refuses |
| `Literal.Compile` | `bins/eliot-searchd/src/exact_literal.rs:32-54` | The table holds the longest proper border of every prefix; only an empty literal is refused |
| `Literal.Scan` | `bins/eliot-searchd/src/exact_literal.rs:56-83` | The scan reports exactly all occurrences, overlapping ones too, whatever the 8192-byte blocks cut, with no more fallbacks than bytes |
| `Literal.OccurrencesAre` | `bins/eliot-searchd/src/exact_literal.rs:56-83` | The reported list contains a position exactly when the literal occurs there |
| `Literal.OccurrencesAscend` | `bins/eliot-searchd/src/exact_literal.rs:56-83` | Occurrences are strictly ascending and at most one for each byte |
| `Literal.Restart` | `bins/eliot-searchd/src/exact_literal.rs:74-78` | Going on from the longest border after a whole match loses no overlapping occurrence |
| `Literal.MatchesAreAligned` | `bins/eliot-searchd/src/decoded_exact.rs:130-143` | A byte match of valid UTF-8 in valid UTF-8 starts and ends on scalar boundaries (section 3 of RFC 3629) |
| `Exact.Execute` | `bins/eliot-searchd/src/raw_exact.rs:84-144` | The outcome is decided by request, inventory and store: each error exactly for its cause, and otherwise the truth about every selected source, accepted by its own final check: totals, missing objects, the first items, completeness and negative claim |
| `Exact.Tally.ScanReading` | `bins/eliot-searchd/src/raw_exact.rs:20-82` | Scanning a source or noting it missing keeps all running totals and the shown prefix exact, and no counter overflows |
| `Exact.Tally.CountMatches` | `bins/eliot-searchd/src/decoded_exact.rs:130-159` | Every occurrence is counted and those that fit are shown in order; in retained text none fails to be cut out |
| `Exact.Tally.Conclude` | `bins/eliot-searchd/src/raw_exact.rs:130-143` | The final check refuses a truthful result exactly when something it would show is refused |
| `Exact.SliceIsLiteral` | `bins/eliot-searchd/src/decoded_exact.rs:135-143` | Wherever the literal occurs in a retained text, the text can be cut there and reads as the literal |
| `Exact.SelectSources` | `bins/eliot-searchd/src/exact_literal.rs:120-147` | Exactly the specified selection is returned, and it is refused exactly when a requested id is not published |
| `Exact.SelectionSize` | `bins/eliot-searchd/src/exact_literal.rs:120-147` | Distinct requested ids select exactly as many sources |
| `Exact.CountsAgree` | `crates/search-provider-protocol/src/dto.rs:603-625` | Items of each kind are as many as matches and gaps |
| `Exact.CountsBounded` | `crates/search-provider-protocol/src/dto.rs:604-622` | Matches never exceed scanned bytes, and nothing is scanned without a source |
| `Exact.AllOrdered` | `crates/search-provider-protocol/src/dto.rs:809-829` | All items of a pinned inventory are in source and byte order, in one artifact each |
| `Exact.ValidateRequest` | `crates/search-provider-protocol/src/dto.rs:566-653` | The client's check of either kind accepts exactly the results that meet its declarative description |
| `Exact.AccountsValidate` | `crates/search-provider-protocol/src/dto.rs:788-834` | A result that tells the truth about a pinned inventory passes the client's check if and only if the namespace, or the first source's identifier when that source adds an item, is not zero and no missing object names an artifact above the ceiling before the limit is reached |
| `Exact.RefusedShows` | `crates/search-provider-protocol/src/dto.rs:708-733` | Those refusals, read off the inventory, are exactly the truthful results that show an item the client refuses |
| `Exact.ZeroIdIsRefused` | `crates/search-provider-protocol/src/dto.rs:1671-1681` | A truthful result that the client refuses: one lost object of a source whose id is zero |
| `Exact.RawRefusal` | `crates/search-provider-protocol/src/dto.rs:506-531` | A raw result is refused exactly when its namespace is zero and there is any item, or the first source's id is zero and it contributes one: no raw result names an artifact |
| `Exact.SelectionMembers` | `bins/eliot-searchd/src/exact_literal.rs:134-143` | The selection holds exactly the published sources whose ids were requested |
| `Exact.LongArtifactIsRefused` | `crates/search-provider-protocol/src/dto.rs:220-234` | A truthful decoded result that the client refuses: a lost empty source whose artifact is recorded one byte above the ceiling |
| `Exact.HexDecodes` | `bins/eliot-searchd/src/exact_literal.rs:86-101` | Two digits stand for each byte, the high one first |
| `Decoded.Visit` | `bins/eliot-searchd/src/decoded_exact.rs:47-115` | The content found is exactly the specified one: the source's own bytes accepted by the artifact decoder, or a gap with its cause; it fails exactly otherwise |
| `Decoded.OneText` | `bins/eliot-searchd/src/decoded_exact.rs:95-110` | Saved bytes are the artifact of at most one text, so a text that is not the source's bytes is a mismatch |
| `Decoded.TextSound` | `bins/eliot-searchd/src/decoded_exact.rs:117-179` | Whatever the object store holds, what is found behind a published source is sound: its text is valid UTF-8 of the recorded length and its artifact within the ceiling |
| `Decoded.Execute` | `bins/eliot-searchd/src/decoded_exact.rs:181-239` | The outcome is decided by request, inventory and objects: each error exactly for its cause, and otherwise the truth about every selected source, accepted by its own final check: no occurrence is missed, each hit reads as the literal, each source without text is a gap with its reason |
| `Decoded.DecodedRefusal` | `bins/eliot-searchd/src/decoded_exact.rs:69-94` | A decoded result is refused exactly under the zero-identifier condition or when a selected source whose object is missing names an artifact above the ceiling before the limit is reached |
| `Decoded.OneSource` | `bins/eliot-searchd/src/decoded_exact.rs:95-110` | Saved bytes are the artifact of one source: one identity, registration and object, under one settings |
| `Published.SoundInventory` | `crates/search-control-redb/src/publication/verify.rs:76-125` | Rows whose counts the inventory check accepts, listed in key order, are an inventory exact search accepts |
| `Published.SourceInventory` | `crates/search-control-redb/src/publication.rs:1518-1596` | Reading the inventory succeeds exactly when rows and counts agree, and then lists every row once in key order |
| `Published.AcceptedInventory` | `crates/search-control-redb/src/publication.rs:1518-1596` | The inventory of an accepted generation is one exact search accepts, and only its empty sources can name an artifact above the ceiling |
| `Published.Search` | `bins/eliot-searchd/src/framed_search/window.rs:39-106` | Opening the published generation and searching it accounts for exactly the sources selected from the generation that is current and accepted |
| `Answers.RawItemsAre` | `bins/eliot-searchd/src/raw_exact.rs:20-144` | An item belongs to the whole raw answer exactly when some selected source says it: each place in its bytes where the literal stands, or that its object is missing; a search fails exactly when a read does |
| `Answers.TextItemsAre` | `bins/eliot-searchd/src/decoded_exact.rs:47-239` | An item belongs to the whole decoded answer exactly when some selected source says it: each place in its text where the literal stands, or the reason it has none |
| `Answers.AcceptedShows` | `crates/search-provider-protocol/src/dto.rs:566-653` | Whoever made it, an accepted result shows each item at most once and in order, each raw match reads as the literal, and it claims completeness exactly when it shows all it counts |
| `Answers.AcceptedPrefix` | `crates/search-provider-protocol/src/dto.rs:1460-1540` | Whoever made the pages, a client that accepted them holds an ordered prefix of at most as many answers as asked for; it is told of more exactly while some are missing; of a complete exact result its own counts are the totals |
| `Session.FlushedIsPrefix` | `bins/eliot-searchd/src/framed_search/session.rs:313-341` | In every run, under cancel, deadline, close, deferral and expiry, the fully flushed pages are exactly a prefix of the result and the worker never refuses a cursor move |
| `Session.OutputContinues` | `bins/eliot-searchd/src/framed_search/session.rs:313-341` | Whatever is about to be flushed continues that prefix |
| `Session.RunKeeps` | `bins/eliot-searchd/src/framed_search/session.rs:386-452` | Every run of I/O owner, queue and worker keeps the session invariant |
| `Session.NextKeeps` | `bins/eliot-searchd/src/framed_search/session.rs:386-452` | Every event keeps the session invariant |
| `Session.AcceptQuiet` | `bins/eliot-searchd/src/framed_search/session.rs:138-236` | Admitting a frame sends at most one job, moves no cursor and never sends beside a pending output |
| `Session.FlushedKeeps` | `bins/eliot-searchd/src/framed_search/session.rs:313-341` | A flush commits exactly the page it finished, and what was deferred begins after it |
| `Session.WorkerKeeps` | `bins/eliot-searchd/src/framed_search/session/worker.rs:158-223` | The worker's cursor is where the commits it has taken leave it; no commit is stale; a page starts where the last flushed page ended |
| `Session.RunStops` | `bins/eliot-searchd/src/framed_search/session.rs:80-136` | In every run the active job's flag is raised exactly when the job was stopped, and only work that was sent is ever flagged |
| `Session.ChainIsPrefix` | `bins/eliot-searchd/src/framed_search/window.rs:180-186` | A chain of cursor moves flushes a prefix of the items |
| `Session.StoppedMovesNothing` | `bins/eliot-searchd/src/framed_search/session.rs:267-341` | In every run every cursor move ever sent or still on its way out comes from a page job that was never cancelled, timed out or replaced, and from a reply that does not end the session |
| `Session.ReplacedIsSilent` | `bins/eliot-searchd/src/framed_search/session.rs:138-236` | Once a later job was sent, no reply of an earlier job ever goes out |
| `Session.FlushSucceeds` | `bins/eliot-searchd/src/framed_search/session.rs:313-341` | In every run a whole flush succeeds: the request that waited is always admitted |
| `Requests.AnsweredAsAsked` | `bins/eliot-searchd/src/framed_search/session.rs:267-282` | In every run an output made by a job, and the active job, carry the identifier of the request that job was sent for |
| `Requests.AnsweredOnce` | `bins/eliot-searchd/src/framed_search/session.rs:138-341` | In every run the requests asked, less those a Close replaced, are exactly those answered whole, in the same order, and then those that still wait: none is dropped, none answered twice, none under another identifier |
| `Requests.ReplyIsTaken` | `bins/eliot-searchd/src/framed_search/session.rs:267-282` | In every run the worker's reply for the active job goes out under that request's identifier, unchanged unless the job was stopped and the reply does not end the session |
| `Requests.EventTakes` | `bins/eliot-searchd/src/framed_search/session.rs:80-236` | In every run: a cancellation flags the job at work, fails an unsent answer or marks the waiting request; a request becomes a job or is refused by whether a window was ever opened; a whole flush sends its cursor move and then takes up what waited; a deadline stops the job |
| `Requests.EndsExactly` | `bins/eliot-searchd/src/framed_search/session.rs:138-341` | In every run the session ends with exactly these events: a frame that breaks the exchange, the whole flush of an ending reply, or a deadline with nothing to stop or with what was stopped still not answered |
| `Requests.PageIsMade` | `bins/eliot-searchd/src/framed_search/session/worker.rs:97-156` | In every run a page job against an open window is answered by the range that starts where the flushed pages ended, and a Close by the reply that ends the session |
| `Requests.CommandIsTreated` | `bins/eliot-searchd/src/framed_search/session/worker.rs:158-223` | In every run each cursor move is taken, a failing job is told so and disturbs nothing, and the fixed lifetime ends the worker with an ending reply |
| `Exchange.Exchange.Accept` | `bins/eliot-searchd/src/framed_search/session.rs:138-236` | The object's update is the session's admission step, errors included |
| `Exchange.Exchange.Cancel` | `bins/eliot-searchd/src/framed_search/session.rs:99-136` | The object's update is the session's cancel step |
| `Exchange.Exchange.RejectWith` | `bins/eliot-searchd/src/framed_search/session.rs:86-97` | A typed refusal becomes the output and changes nothing else |
| `Exchange.Exchange.CancelActive` | `bins/eliot-searchd/src/framed_search/session.rs:80-84` | Only the active job's flag is raised |
| `Exchange.Exchange.Received` | `bins/eliot-searchd/src/framed_search/session.rs:267-282` | The object's update is the session's reply step, whose output carries the request's own identifier |
| `Exchange.Exchange.TimedOut` | `bins/eliot-searchd/src/framed_search/session.rs:300-311` | The object's update is the session's deadline step |
| `Exchange.Exchange.Flushed` | `bins/eliot-searchd/src/framed_search/session.rs:313-341` | The object's update is the session's flush step, with the end of the session |
| `Exchange.WorkerLoop.Step` | `bins/eliot-searchd/src/framed_search/session/worker.rs:158-223` | One pass of the loop is the session's worker step |
| `Exchange.WorkerLoop.CommitPage` | `bins/eliot-searchd/src/framed_search/window.rs:180-186` | The cursor moves exactly when the move starts where it stands and stays inside the result |
| `Window.Window.CommitPage` | `bins/eliot-searchd/src/framed_search/window.rs:180-186` | The cursor moves exactly from where it stands, forward and within the result |
| `Window.Open` | `bins/eliot-searchd/src/framed_search/window.rs:39-106` | An exact query of either kind yields a window that holds the first items of the whole answer with the whole answer's totals |
| `Window.ExactIsRetained` | `bins/eliot-searchd/src/framed_search/window.rs:78-95` | Every completed exact execution, of bytes or of retained text, is a result a window may retain |
| `Window.Window.CutPage` | `bins/eliot-searchd/src/framed_search/window.rs:108-177` | The page is the longest at the cursor that fits a frame and the client accepts it; an error means not even one item fits |
| `Window.ClientAccepts` | `crates/search-provider-protocol/src/dto.rs:1460-1514` | Every page the daemon can cut of a ranked, raw or decoded result, shortened or not, passes the client's check against the prefix it holds, and extends that prefix |
| `Window.Client.CheckEntries` | `crates/search-provider-protocol/src/dto.rs:1460-1540` | The entry loop accepts exactly the ordered answers of the query's kind and counts matches and gaps |
| `Window.Client.AcceptPage` | `crates/search-provider-client/src/child.rs:781-827` | A page extends the held prefix exactly when it is accepted and its summary is the first one's |
| `Window.ServePage` | `bins/eliot-searchd/src/framed_search/window.rs:108-186` | A client fed pages cut at the committed cursor never refuses one and always holds exactly the committed prefix; the cursor advances until the end |
| `Delivery.ClientHoldsFlushed` | `bins/eliot-searchd/src/framed_search/window.rs:108-186` | In every session run whose pages hold an item while any is left, under cancel, deadline, close and deferral, the client accepts each flushed page against what it holds and ends up holding exactly the committed prefix of the result |
| `Frame.FeedAppend` | `crates/search-provider-protocol/src/frame.rs:42-76` | The frames of a byte stream do not depend on how it was cut into chunks |
| `Frame.FrameBuffer.Push` | `crates/search-provider-protocol/src/frame.rs:42-76` | A fragment gives a frame exactly its own bytes, a bad length is refused before any body is stored, and input always makes progress |
| `Frame.FrameBuffer.constructor` | `crates/search-provider-protocol/src/frame.rs:26-37` | A buffer starts empty and incomplete |
| `Frame.Receiver.Consume` | `bins/eliot-searchd/src/framed_search/session.rs:238-265` | The frames delivered by repeated pushes are those of the byte stream; the error for no progress is unreachable |
| `Frame.FeedErrors` | `crates/search-provider-protocol/src/frame.rs:42-76` | A stream never fails for lack of progress |
| `Frame.Fits` | `crates/search-provider-protocol/src/frame.rs:324-334` | The counting writer answers whether the whole serialization is within the ceiling |
| `Frame.EncodedLength` | `crates/search-provider-protocol/src/frame.rs:261-300` | The capped writer succeeds exactly under its ceiling and agrees with the counting writer |
| `Frame.PrepareComplete` | `crates/search-provider-protocol/src/frame.rs:181-216` | Everything is returned exactly when it fits; otherwise the largest strict prefix that fits, and nothing only when not even the empty reply does |
| `Frame.FrameIsDelivered` | `crates/search-provider-protocol/src/frame.rs:42-76` | One well-formed frame is delivered whole and leaves nothing behind |
| `Frame.SentIsReceived` | `crates/search-provider-protocol/src/frame.rs:42-76` | What is sent as frames is received as the same frames in order, however the stream is cut |
| `PlainRoot.Disk.Initialize` | `crates/search-runtime/search-runtime-owner/src/plain_root.rs:1112-1180` | Every state any stop leaves is recoverable; undisturbed, an absent, empty or unfinished root becomes current; a root that may be opened, its database in use or not, is told to exist already and keeps all but its leftover stages; any other root is refused untouched |
| `PlainRoot.Disk.Discard` | `crates/search-runtime/search-runtime-owner/src/plain_root.rs:1308-1355` | Every state any stop leaves is recoverable; undisturbed, a root with its exact marker is left with only its lock; any other root is refused untouched |
| `PlainRoot.Disk.Publish` | `crates/search-runtime/search-runtime-owner/src/plain_root.rs:960-1050` | Through every partial stage, link and unlink the root stays recoverable; success leaves the file with its exact bytes and no stage, and other bytes are never replaced |
| `PlainRoot.Disk.WriteStage` | `crates/search-runtime/search-runtime-owner/src/plain_root.rs:981-1021` | Every partial stage is recoverable, and success leaves the exact bytes |
| `PlainRoot.Disk.Link` | `crates/search-runtime/search-runtime-owner/src/plain_root.rs:1023-1049` | Linking and unlinking pass only through recoverable states |
| `PlainRoot.Disk.RemoveStage` | `crates/search-runtime/search-runtime-owner/src/plain_root.rs:914-924` | A stage is removed only when its bytes are its own |
| `PlainRoot.Disk.CleanupStages` | `crates/search-runtime/search-runtime-owner/src/plain_root.rs:933-958` | Both leftover stages are checked before either goes; the root stays current and nothing else changes |
| `PlainRoot.Disk.AcquireLock` | `crates/search-runtime/search-runtime-owner/src/plain_root.rs:801-863` | The lock is created only in an empty root and never replaced |
| `PlainRoot.Disk.EnsureFolder` | `crates/search-runtime/search-runtime-owner/src/plain_root.rs:1066-1085` | A store directory is created only if missing |
| `PlainRoot.Disk.InitializeControl` | `crates/search-runtime/search-runtime-owner/src/plain_root.rs:1101-1106` | The control database ends up empty and formatted, from absent, zero-length or formatted |
| `PlainRoot.Disk.CreateStore` | `crates/search-runtime/search-runtime-owner/src/plain_root.rs:1151-1159` | Creating the store stays within the marked phase |
| `PlainRoot.Disk.Commit` | `crates/search-runtime/search-runtime-owner/src/plain_root.rs:1161-1180` | Publishing the manifest makes a complete store current |
| `PlainRoot.Disk.Complete` | `crates/search-runtime/search-runtime-owner/src/plain_root.rs:1151-1180` | Every unfinished phase completes to a committed root when nothing stops it |
| `PlainRoot.Disk.RemoveStore` | `crates/search-runtime/search-runtime-owner/src/plain_root.rs:1347-1354` | The database, the directories and the marker go in an order that stays recoverable |
| `PlainRoot.PhasedIsRecoverable` | `crates/search-runtime/search-runtime-owner/src/plain_root.rs:561-784` | Every phase of either operation is classified absent, empty, unfinished or current, never corrupt or unsupported, and current exactly when committed |
| `PlainRoot.IncompleteIsPhased` | `crates/search-runtime/search-runtime-owner/src/plain_root.rs:666-784` | A root probed as unfinished is in one of the phases initialization can continue from |
| `PlainRoot.CurrentWithoutStage` | `crates/search-runtime/search-runtime-owner/src/plain_root.rs:561-664` | Removing a leftover stage leaves a current root current |
| `PlainRoot.CurrentIsOpenable` | `crates/search-runtime/search-runtime-owner/src/plain_root.rs:496-664` | A root is current if and only if it holds only its own names, the exact manifest, exact marker and stages if any, the lock, both directories and one database file, fresh or used |
| `PlainRoot.UseKeepsCurrent` | `crates/search-runtime/search-runtime-owner/src/plain_root.rs:496-510` | Whatever is stored in the database or the objects of a current root, it stays current |
| `PlainRoot.StatusMeans` | `crates/search-runtime/search-runtime-owner/src/plain_root.rs:511-784` | Absent, empty, unfinished, importing and archive roots are exactly those with the contents that name them |

## Left out

Represented abstractly:

- Database engine: each table is a map, grouped by the sequence prefix of its keys, and each transaction one atomic step; file locks, engine recovery and repair are outside.
- Row codecs of sources, evidence and pages: rows are typed values and only their encoded sizes are modelled; the size ceilings of the header row and of a retired row, and pages saved by the older version 1 format, are not.
- Digests: a function parameter. BLAKE3 is not part of this model.
- Serialization of protocol messages: a size or a list of write lengths, for which the reply writer needs only that more items take more bytes.
- Backend: any sequence of applied, refused and unknown answers, and a measured request size. Its schema checks, its canary query and its hydration text are outside; the units a page would be hydrated from are compared by their coordinates.
- Clocks, deadlines and cancellation: a step may fail early wherever the source checks; in the pure preparation and search functions these early errors are not modelled.
- Worker: that it has ended is noticed only by the reply that never comes, while the program also notices it at the next send.
- Occurrence callbacks: the scan returns the list of occurrences and its caller walks it, rather than the two interleaving.
- Memory allocation failures and the texts of error codes.
- Path kinds, file locking by other processes, directory synchronization and the recovery of a damaged control database in the root; a database file is absent, empty, fresh, used or damaged.

Not modelled:

- Selections' own rows, source locators' path syntax, file acquisition and the scan of directories: their results are inputs of the source transactions.
- Reading evidence back for a search (resolving points, pinning a published view) and ranked search itself; a ranked item's own text, score and citation checks are one Boolean.
- Expanding one item of a window, and the client's write side and child process.
- Exporting, importing and archiving roots.

Contracts stated weaker than they could be:

- Protocol.InitInv: starts from a root without publications; a database whose tables were damaged by something other than these transactions is rejected by the decoder and is not a state of a run.
- Publish.PrepareView: says nothing of which error is returned when it fails, because any step may be interrupted; what a failure leaves behind is covered by the store's validity. Success is promised under `CanPublish`, which is sufficient, not necessary.
- Publish.Recover: names the error of an uninterrupted call on a corpus that can be captured, and no other, for the same reason.
- Publish.Upload: the hydration of a page before it is sent is only a nondeterministic failure, which a calm store does not meet; which evidence a decoded unit hydrates is `Staging.HydratesOwn`, and the text itself is not modelled.
- Publish.Cleanup: in a calm store the backend's deletion of a collection is confirmed.
- Progress.StagePageSucceeds: gives the condition staging meets, not a necessary one; refusals are those of the point by point checks.
- Progress.PersistSucceeds: likewise sufficient.
- Staging.StageSource: does not distinguish the errors of the object store and of the artifact decoder.
- Staging.StageCapture: takes the artifact decoder as a function whose results partition their source; that any reader of accepted artifacts is one is `DecodedUnits.DecoderPartitions`.
- Store.ControlStore.FinishDispatch: requires the answer it records to be the backend's, which the driver guarantees by settling only what it received.
- Store.ControlStore.CommitSource: requires the object to be within the source ceiling, which acquisition guarantees; what happens above it is `CorpusSteps.CeilingOnRead`.
- Protocol.Next: records a remote deletion when it is issued, not when it is confirmed, so that a lost reply is covered.
- Window.Client.AcceptPage: leaves out the correlation of the reply with the request, which belongs to the client's write side.
- Window.Open: requires of a ranked result what the client will check of it, because its retrieval and the checks on its own text, score and citation are not modelled.
- Frame.PrepareComplete: requires that serialized size grows with each item, which holds of any reply with its items in one array.
- PlainRoot.Disk.AcquireLock: contention with another process is not modelled, so it does not fail for that reason.
- PlainRoot.Disk.InitializeControl: treats formatting the database as one file operation after its creation.
