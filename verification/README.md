# Verified models of the rebuild infrastructure

Dafny models of the parts of OSS Rebuild whose correctness does not show in any one function,
with proofs of what they promise. `dafny verify dfyconfig.toml` checks all of it.

| part | files |
|---|---|
| Guarded upserts, delta replication, the docdb cache | `Upserts`, `Convergence`, `Segments`, `Replication`, `ReplicationProofs`, `ReplicationTheorems`, `ReplicationOrder`, `MonotoneReads`, `SyncProgress`, `ReplicationRuns`, `DocCache`, `Snapshots`, `SnapshotSteps` |
| Line buffer and pipe | `LineBuffer`, `BufferedPipe` |
| JAR manifests and signatures | `ManifestText`, `ManifestProofs`, `ManifestFile`, `ManifestLaws`, `JarSignature` |
| Archive stabilization | `Orders`, `StableSorting`, `Canonical`, `RepeatedNames`, `TarStabilize`, `ZipStabilize`, `RecordCsv`, `WheelRecord` |
| Agent sessions and scratch VMs | `Transactions`, `Sessions`, `Reservations`, `Scratch` |
| Concurrent combinators | `Coalescing`, `CoalescedCalls`, `ParDo` |
| Time travel, versions, bitmaps, listings | `Timestamps`, `NpmWarp`, `PyPIWarp`, `Semvers`, `Versionx`, `VersionMix`, `BitWords`, `Bitmap`, `OrderConsistency` |
| Shared | `Options`, `Texts` |

Code that updates state in place is a class or a method with a loop, proved against a function of
the old state. Protocols are transition systems whose steps are the atomic operations of the code;
their theorems hold in every state of every run. Everything else is functions and lemmas.

**Replication.** The steps are: a write becomes durable, a rollup begins, scans a table, publishes or
crashes, a delta run begins, scans, lands its segment or crashes, a cache sync stats, downloads,
replays, swaps, lists, applies one segment or stops. Any number
of rollups may be in progress at once. The timing hypotheses of the protocol are guards of those
steps: a write whose scan clock reads u is durable by u + slack; a document is only overwritten by one
that neither clock puts earlier, and in a table without an `updated` column it is written once; delta
runs neither overlap nor share a second and scan within the cache's slack of their name; and a run
that finds no segment reaches back behind every base in use. The scan clock of a table is the field
its bounded scan compares, `updated` or, for `runs`, `created`; the guard stamp of the upserts is
another matter, and `runs` has none. Nothing lost, visibility and Freshness need no more than that.
That rows and bases only advance needs rollups that do not overlap, which those theorems say
(`Replication.RollupsApart`). The store is a map, and one object is written atomically. Times are in
milliseconds and segment names in whole seconds, as in the code. The tables of the protocol are those of
the snapshot's registry that have deltas: every doc table but the priority signals, which only rollups
write (`internal/snapshot/source.go:20-26`).

## Where the code and what is said of it part

Each of these is proved, with an input that shows it and the exact condition where there is one.

- Upserts are documented as order-independent (`internal/docdb/store.go:7-13`). They are if and only
  if no two documents of a key share that key's newest stamp (`Convergence.ConvergesIffUniqueNewest`,
  `OrderCanMatter`).
- `Freshness` is documented as a watermark that segments advance (`internal/docdb/cache.go:91-92`). It
  goes back when no segment has been applied over the served base and either the first one applied is
  named before that base's watermark or a base with an older watermark and nothing to replay takes its
  place, and only then (`ReplicationTheorems.FreshnessGoesBackIff`). The first happens even when
  rollups do not overlap (`ReplicationRuns.FreshnessCanGoBack`); the second only when they do
  (`ReplicationTheorems.OrderedBasesAdvance`, `ReplicationRuns.OverlapTakesRowsAway`).
- Reads are not monotone. Over any part of a run, no query finds a row gone or older than an earlier
  query did, if and only if the base of every rehydration in between, with the segments replayed over
  it, still supplies the row served before (`MonotoneReads.MonotoneReadsIff`, `RowSurvivesIff`). Rollups
  that do not overlap are enough for that (`ReplicationTheorems.ServedRowsOnlyAdvance`), but nothing in
  `internal/snapshot/snapshot.go` keeps two apart: when the one that scanned earlier publishes later, a
  served row can be missing again (`ReplicationRuns.OverlapTakesRowsAway`).
- `BufferedPipe.Read` promises EOF once closed and empty (`internal/bufiox/pipe.go:44-46`). With a slice
  of length zero it reports EOF beside data, or waits beside data (`BufferedPipes.EofBeforeDrainedIff`,
  `EmptySliceMisreads`).
- Stripping jarsigner's edits gives the original back if and only if the original had no digest
  attribute in an entry section and no empty or Name-only one (`JarSignature.StripUndoesSigningIff`,
  `UncleanIsNotRestored`).
- A completed session stays completed if and only if no set-up update that writes another status takes
  effect after it (`Sessions.CompletedForever`). Set-up ends with such an update after the job has been
  launched (`internal/api/apiservice/agent.go:198-202`), so a job that completes first is reopened
  (`Sessions.SetupUpdateReopens`).
- `parDo` with concurrency 0 and an item blocks for ever (`ParDo.ClosesIffThereIsAToken`, `NoTokenBlocks`).
- The prerelease order is not that of item 11 of Semantic Versioning 2.0.0. On two prereleases the two
  agree exactly as `Semvers.PrereleasesAgreeIff` says, on two identifiers as `IdentifiersAgreeIff` does.
  Whatever text follows the last digit is ignored, so every identifier with a digit ties with its
  extensions (`TailIsIgnored`), and text followed by a number is compared by number
  (`NumbersAreNotText`); "rc1a" and "rc1b", "rc9" and "rc10" are such (`DisagreesOnMixed`). Without such
  identifiers they agree (`AgreesWithSpecOnPlain`).
- Mixing semantic versions with plain releases and strings of other schemes is documented as
  intransitive (`internal/versionx/versionx.go:68-71`). One semantic version keeps the order if and
  only if it has no "v", no prerelease, no number past int64 and no letter or digit in its build, or is
  a prerelease of v0.0.0 (`VersionMix.MixIsOrderedIff`); every other breaks transitivity.
- `semver.Cmp` reports each of two malformed versions as the smaller (`Semvers.CmpAntisymmetricIff`,
  `BothAreSmaller`).
- The PyPI warp asks for no version, and so serves the project's present-day info, if and only if no
  release has a file uploaded by the date (`PyPIWarp.NothingReleasedIff`, `TodaysInfo`); and `urls`
  always stays as fetched (`ProjectMeaning`) although a comment in `internal/timewarp/pypi.go:136-139`
  says it is updated.
- An npm document that can be warped to an early date can fail at a later one
  (`NpmWarp.LaterWarpFailsIff`, `LaterWarpCanFail`).

## Model

| member | source | states |
|---|---|---|
| Upserts.DocUpsertSQL | internal/docdb/store.go:122-149 | the statement lists every column with its extraction and the raw document, conflicts on the key, overwrites every non-key column, and is guarded exactly when the table has an `updated` column |
| Upserts.ExecRefinesUpsert | internal/docdb/store.go:116-149 | executing that statement on a table whose columns all derive from their documents keeps them so and is the guarded upsert on documents; it fails exactly on a NULL key column |
| Convergence.FoldAdvances | internal/docdb/segments.go:130-132 | folding records never drops a key or takes a row to an older stamp, reflects every record, and invents nothing |
| Convergence.ConvergesIffUniqueNewest | internal/docdb/store.go:7-13 | all orders and repetitions of a set of documents leave the same rows if and only if each key has one newest document, NULL being oldest |
| Convergence.ReplayConverges | internal/docdb/store.go:7-13 | replaying a batch in another order, before or after an earlier batch, ends in the same rows |
| Convergence.OrderCanMatter | internal/docdb/store.go:7-13 | two documents of a guarded table with one key and stamp whose order decides the row |
| Convergence.DocTableDefFinds | internal/docdb/segments.go:58-69 | the first definition of that name decides: it is the one found, and none is found if and only if there is none of that name or the first has no columns, whatever later ones are |
| Convergence.Conn.Prepare | internal/docdb/segments.go:184-195 | a statement is built once per table, the earlier ones being kept, and refused exactly for unknown or derived tables |
| Convergence.Conn.ApplyRecords | internal/docdb/segments.go:175-204 | all records of a segment take effect as the fold of upserts, or none does; it succeeds exactly when every record is applicable |
| Segments.SortedUnion | internal/docdb/segments.go:113-128 | a listing of earlier and later names is the earlier listing followed by the later one |
| Segments.ReplayOneMore | internal/docdb/cache.go:163-173 | replaying one more segment is applying its records to the rows replayed so far |
| ReplicationProofs.DeltaBeginKeeps | internal/snapshot/delta.go:57-68 | a run resuming from the newest segment name less the slack, or from the bootstrap window, can miss only writes an earlier run saw or every base holds |
| ReplicationProofs.DeltaLandKeeps | internal/snapshot/delta.go:97-115 | landing a segment, or nothing when nothing changed, keeps every covered write covered and every cache prefix a prefix |
| ReplicationProofs.RollupPublishKeeps | internal/snapshot/snapshot.go:83-152 | a published base holds everything durable when its watermark was taken, before the scans |
| ReplicationProofs.HydrateIsReplay | internal/docdb/cache.go:179-232 | hydration is the replay of every segment from the watermark less the cache slack |
| ReplicationProofs.ApplyExtendsPrefix | internal/docdb/cache.go:163-173 | applying the next listed segment extends the applied prefix of the listing by one |
| ReplicationProofs.StepKeeps | internal/docdb/cache.go:140-175 | every step of the protocol, crashes and overlapping rollups included, keeps the invariant |
| SyncProgress.NextSync | internal/docdb/cache.go:140-155 | in every state of every run a sync lists segments exactly when it finds the served base, is skipped exactly when it finds the refused one, and downloads any other |
| SyncProgress.SwapServesTheStat | internal/docdb/cache.go:147-227 | a swap leaves the tag its sync found as the served one, and nothing refused |
| ReplicationTheorems.NoLostUpdate | internal/snapshot/delta.go:39-115 | in every state of every run, a cache that has applied a segment reflects every write with a scan clock that was durable when that segment's run scanned its table |
| ReplicationTheorems.CaughtUpReflectsLastRun | internal/snapshot/delta.go:39-42 | a cache with nothing left to apply reflects every write with a scan clock that the last completed run's scans came after, even if that run wrote no segment |
| ReplicationTheorems.ReflectedIsSameOrNewer | internal/docdb/store.go:7-13 | a reflected write is in the cache as itself or something strictly newer, with distinct stamps per key where upserts are guarded, and as itself where they are not |
| ReplicationTheorems.QueryVisibility | internal/docdb/cache.go:81-89 | every state a query sees is the fold of one base and a name-ordered prefix of the segments from its slack window on |
| ReplicationTheorems.FreshnessIsComplete | internal/docdb/cache.go:91-102 | every write with a scan clock durable before Freshness is reflected |
| ReplicationTheorems.FreshnessGoesBackIff | internal/docdb/cache.go:91-102 | a step lowers Freshness exactly when no segment was applied and it either applies a first one named before the served base's watermark or swaps in a base of an older watermark with none to replay |
| ReplicationTheorems.OrderedBasesAdvance | internal/docdb/cache.go:179-232 | when rollups do not overlap, a rehydration never takes the served watermark back |
| ReplicationOrder.StepKeepsOrder | internal/snapshot/snapshot.go:76-152 | when rollups do not overlap, every step keeps the published base at least as new as those downloaded and served, and all of them before the rollup in progress |
| ReplicationRuns.FreshnessCanGoBack | internal/docdb/cache.go:91-102 | a run within every hypothesis, rollups apart, in which Freshness goes back |
| ReplicationRuns.OverlapTakesRowsAway | internal/snapshot/snapshot.go:76-152 | a run with two overlapping rollups in which a rehydration takes a served row away and Freshness back |
| MonotoneReads.RowSurvivesIff | internal/docdb/cache.go:137-232 | between any two states of a run, a served row is still served, as itself or newer, if and only if the base then in use or a segment applied over it supplies it |
| MonotoneReads.RowRegressesIff | internal/docdb/cache.go:137-232 | a step takes a served row away or back exactly when it is a rehydration whose base and replayed segments do not supply it |
| MonotoneReads.MonotoneReadsIff | internal/docdb/cache.go:137-232 | over any part of a run reads of a key are monotone if and only if every rehydration in it keeps the row then served |
| ReplicationTheorems.ServedRowsOnlyAdvance | internal/docdb/cache.go:137-232 | when rollups do not overlap, once a row is served every later state of the run serves its key, as that row or a newer one, through any number of rehydrations |
| ReplicationTheorems.OlderSegmentsAreInTheBase | internal/docdb/cache.go:20-24 | records of a segment before the base's slack window were durable before its watermark, so the base reflects them |
| DocCache.Cache.Sync | internal/docdb/cache.go:140-175 | nothing for a refused base or a failed stat; for a replaced base a wholesale rehydration, which succeeds exactly when the base can be served; otherwise the new segments up to the first the database refuses |
| DocCache.Cache.ApplyNew | internal/docdb/cache.go:156-173 | the new segments are applied one transaction at a time up to the first with a record the database refuses, each recorded after it; success if and only if there is none |
| DocCache.Cache.Rehydrate | internal/docdb/cache.go:179-232 | succeeds if and only if the download is of this era with a readable watermark, the listing is there and every segment in the window is applicable; then the base with that window replayed is served under its tag, with nothing refused and the last segment as applied; else the old copy untouched but for remembering a refused base |
| DocCache.HydratedIs | internal/docdb/cache.go:207-225 | those fields are the protocol's hydrated state |
| DocCache.SyncTwice | internal/docdb/cache.go:140-232 | after a rehydration the next sync of the same base is neither skipped nor a rehydration: with a listing that continues the first it leaves the base with every segment of the window replayed |
| DocCache.Cache.Freshness | internal/docdb/cache.go:93-102 | the protocol's Freshness of the cache's state |
| DocCache.WriteSegment | internal/docdb/segments.go:74-108 | succeeds if and only if every table takes deltas and the object can be written or there is nothing to write; writes exactly when there is something, one object with all records in definition order |
| DocCache.SegmentRecordsAre | internal/docdb/segments.go:97-104 | definition order loses and invents no record |
| Snapshots.Delta | internal/snapshot/delta.go:43-115 | resumes from the newest segment's time less the slack, or from the bootstrap window; fails exactly when the listing, the scan of a table with deltas or the write does; is quiet exactly when none of them has anything new; else writes one object named for the start of the run with all that was answered |
| Snapshots.ChangesAre | internal/snapshot/delta.go:93-105 | a record is written exactly when its table has deltas and the source answered its document there |
| Snapshots.RegistryIsValid | internal/snapshot/tables.go:135-331 | the registry's names are distinct and the write statement can be built for each of its doc tables |
| SnapshotSteps.StampIsScanClock | internal/snapshot/source.go:82-105 | where a table is guarded, the stamp its upserts compare is the clock its bounded scan compares; only the runs are not |
| SnapshotSteps.DefaultsAreValid | internal/docdb/cache.go:20-24 | the run's default slack and bootstrap and the cache's slack meet the protocol's hypotheses for writes durable and scans done within two minutes |
| SnapshotSteps.DeltaTakesSteps | internal/snapshot/delta.go:43-115 | a run that does not fail begins, scans every table with deltas and lands, as steps of the protocol, and leaves the objects that the protocol's store then means |
| LineBuffers.WriteMeaning | internal/bufiox/linebuffer.go:38-92 | the bytes accepted follow those queued, as few of the oldest complete lines as make room are dropped, and a write cut short leaves only the unfinished line before a piece that cannot fit beside it |
| LineBuffers.AcceptedIff | internal/bufiox/linebuffer.go:61-71 | a piece is accepted if and only if it fits in the capacity beside the unfinished line |
| LineBuffers.ConsumeIsDrop | internal/bufiox/linebuffer.go:157-178 | the line lengths after a read are those of the remaining bytes |
| LineBuffers.AppendPiece | internal/bufiox/linebuffer.go:72-89 | a piece completes or lengthens the unfinished line in the queue of lengths |
| LineBuffers.LineBuffer.Write | internal/bufiox/linebuffer.go:40-92 | the ring holds exactly the queue the write specification gives, and the count reported is its; an error exactly when nothing was taken |
| LineBuffers.LineBuffer.Read | internal/bufiox/linebuffer.go:95-118 | copies and removes exactly the front bytes, and touches nothing else of the slice |
| LineBuffers.LineBuffer.EvictOldestLine | internal/bufiox/linebuffer.go:143-154 | removes exactly the first complete line, or reports that there is none |
| LineBuffers.LineBuffer.WriteToBuffer | internal/bufiox/linebuffer.go:121-139 | appends the data across the wrap |
| LineBuffers.LineBuffer.UpdateLineLengthsAfterRead | internal/bufiox/linebuffer.go:157-178 | the lengths and the pending length after consuming that many bytes |
| LineBuffers.LineBuffer.Clear | internal/bufiox/linebuffer.go:193-201 | the empty queue |
| BufferedPipes.BufferedPipe.Write | internal/bufiox/pipe.go:30-42 | refused when closed; otherwise the queue's write, signalling exactly when something was taken |
| BufferedPipes.BufferedPipe.ReadPass | internal/bufiox/pipe.go:47-65 | one pass of the loop: the front bytes, or EOF, or a wait, with nothing else changed |
| BufferedPipes.BufferedPipe.Close | internal/bufiox/pipe.go:69-78 | closed from then on, an error the second time |
| BufferedPipes.NothingInvented | internal/bufiox/pipe.go:30-65 | over every interleaving, the bytes delivered and evicted followed by those queued are exactly those accepted, in order |
| BufferedPipes.NeverStranded | internal/bufiox/pipe.go:36-64 | a waiting reader with room for a byte has neither data nor a close before it |
| BufferedPipes.FitsWhole | internal/bufiox/linebuffer.go:40-92 | what fits in the free space is taken whole with nothing evicted |
| BufferedPipes.EofBeforeDrainedIff | internal/bufiox/pipe.go:44-65 | EOF before the buffer is drained exactly for an empty slice on a closed pipe |
| BufferedPipes.EmptySliceMisreads | internal/bufiox/pipe.go:44-65 | a run in which an empty slice waits beside data and is told EOF beside data |
| ManifestProofs.FoldUnfolds | pkg/stabilize/manifest.go:211-235 | the folded lines of a value joined without their leading spaces are the value, and each is within the limit |
| ManifestProofs.LinesFoldAtSpaces | pkg/stabilize/manifest.go:211-235 | each line but the last ends at the last space past the name among its first 72 bytes, and at the 72nd byte only where there is none |
| ManifestProofs.OneFolding | pkg/stabilize/manifest.go:211-235 | there is no other folding of the text with these cuts |
| ManifestProofs.PrintedLinesFit | pkg/stabilize/manifest.go:183-235 | every printed line has at most 72 bytes before its CRLF (JAR File Specification, Notes on Manifest and Signature Files) |
| ManifestProofs.ParsePrint | pkg/stabilize/manifest.go:91-246 | parsing a printed manifest gives it back, sections and attributes in order |
| ManifestProofs.ParsedIsGood | pkg/stabilize/manifest.go:92-180 | every successful parse yields valid names, distinct up to case, unbroken values and no empty entry section |
| ManifestProofs.PrintParseIdempotent | pkg/stabilize/manifest.go:91-246 | parsing, printing and parsing again changes nothing |
| ManifestLaws.EndingsDoNotMatter | pkg/stabilize/manifest.go:238-246 | any lines parse alike with ends of CRLF, of LF or of CR |
| ManifestLaws.HeaderLine | pkg/stabilize/manifest.go:143-161 | a header line is accepted exactly when the trimmed text before its first colon is a valid name new to the section, and its value is what follows less one space |
| ManifestLaws.MissingNewline | pkg/stabilize/manifest.go:135-137 | a manifest whose last line, no continuation, has no line end is refused |
| ManifestFile.Section.Set | pkg/stabilize/manifest.go:45-52 | replaces the value of the attribute of that name up to case, in place, or appends |
| ManifestFile.Section.Get | pkg/stabilize/manifest.go:55-63 | the value of the attribute of that name up to case |
| ManifestFile.Section.Delete | pkg/stabilize/manifest.go:66-74 | removes that attribute and keeps the order of the others |
| ManifestFile.ProcessManifestLine | pkg/stabilize/manifest.go:143-161 | accepts or rejects a header line as specified and appends its attribute |
| ManifestFile.ParseManifest | pkg/stabilize/manifest.go:92-140 | builds exactly the manifest the text means, or fails exactly when it means none |
| ManifestFile.FindSplit | pkg/stabilize/manifest.go:214-232 | the last space past the name among the first 72 bytes, or the 72nd byte if there is none |
| ManifestFile.WriteAttribute | pkg/stabilize/manifest.go:211-235 | writes exactly the lines of the attribute, which fold at those spaces, and ends |
| ManifestFile.WriteSection | pkg/stabilize/manifest.go:200-208 | the attributes' lines in order |
| ManifestFile.WriteManifest | pkg/stabilize/manifest.go:183-197 | the printed text of the manifest |
| JarSignature.StripManifestDigestSections | pkg/stabilize/jar.go:282-306 | the file's text with digests and emptied sections gone; unparsable text is left alone |
| JarSignature.DeleteAllIsWithout | pkg/stabilize/jar.go:227-237 | deleting the digest names one by one removes exactly the digest attributes, order kept |
| JarSignature.AllSevenAreDigests | pkg/stabilize/jar.go:227-237 | every spelling of a digest attribute jarsigner writes is one that is removed |
| JarSignature.StripUndoesSigningIff | pkg/stabilize/jar.go:274-306 | stripping a signed manifest gives the original if and only if the original was clean |
| JarSignature.UncleanIsNotRestored | pkg/stabilize/jar.go:274-306 | an original with a digest of its own that stripping its signing does not restore |
| JarSignature.StripsToCleanIff | pkg/stabilize/jar.go:274-306 | what strips to a clean manifest is a signing of it and nothing else |
| JarSignature.StripTextUndoesSigning | pkg/stabilize/jar.go:274-306 | the same on the bytes of the file |
| Transactions.MemoryResource.GetValue | internal/db/db.go:134-143 | a read is the atomic mutation that keeps what it finds, so the refinement of interleavings covers it: same answer, store unchanged |
| Transactions.MemoryResource.InsertValue | internal/db/db.go:145-154 | stored, or already there and nothing changed |
| Transactions.MemoryResource.UpdateValue | internal/db/db.go:156-165 | replaced, or not found and nothing changed |
| Transactions.MemoryResource.MutateValue | internal/db/db.go:175-188 | one atomic step: not found, rejected, kept or replaced as the callback says |
| Transactions.OptimisticRefinesLocked | internal/db/db.go:104-124 | every interleaving of optimistic transactions, callbacks rerun any number of times, gives the answers and the data of some sequence of locked steps |
| Transactions.LogGrows | internal/db/db.go:104-124 | that sequence only ever grows at its end |
| Transactions.InsertedOnce | internal/db/db.go:145-154 | of any number of inserts of one key one is stored exactly when it finds none, and every later one is told that it exists and changes nothing |
| Sessions.NumbersAreExactlyOneToCount | internal/api/agentapiservice/iteration.go:48-72 | at every moment of every interleaving from count 0, the set-up of an inserted session included, the numbers given out are exactly 1 to IterationCount, each to one caller, none past MaxIterations |
| Reservations.AnsweredAsFound | internal/api/agentapiservice/iteration.go:48-62 | in every history a reservation was granted the count plus one if and only if at its place the session was running below its limit, and else refused with the error that says which |
| Reservations.NoneIsWithheld | internal/api/agentapiservice/iteration.go:48-62 | at every moment as many callers have been told a number as reservations took effect while the session was running, or as the limit left, whichever is fewer |
| Sessions.CompletionAbsorbs | internal/api/agentapiservice/complete.go:32-50 | from the first completion on, until a set-up update, nothing is granted, its stop reason stays, and so do its summary and success where it gave them and the earlier ones where not |
| Sessions.CompletedUntilReopened | internal/api/agentapiservice/complete.go:32-50 | over any sequence of calls, a completed session is completed throughout if and only if no set-up update of another status is among them |
| Sessions.CompletedForever | internal/api/agentapiservice/complete.go:32-50 | a session seen completed is completed in every later state of the run if and only if no set-up update of another status takes effect in between |
| Sessions.OutcomeForever | internal/api/agentapiservice/complete.go:32-50 | without a set-up update in between every field but the update time stays |
| Sessions.SetupUpdateReopens | internal/api/apiservice/agent.go:198-202 | a run in which the launched job completes the session and the set-up then leaves it running |
| Scratches.SkippedIffMarkedRecently | internal/api/agentapiservice/scratch_zone.go:35-71 | after any history of marks and listings a zone is skipped if and only if it was marked less than the TTL ago |
| Scratches.ZoneCooldown.ActiveZones | internal/api/agentapiservice/scratch_zone.go:49-71 | the zones not cooling down in input order; only expired entries of listed zones are forgotten |
| Scratches.CandidatesArePreferred | internal/api/agentapiservice/scratch_zone.go:90-94 | exactly the zones that are not cooling down are tried, or all of them when every one is |
| Scratches.CandidatesInOrder | internal/api/agentapiservice/scratch_zone.go:49-71 | and in the order in which they are configured |
| Scratches.TryZones | internal/api/agentapiservice/scratch_zone.go:97-109 | the first zone not out of stock decides, the ones before it are marked with their times, and a VM is left exactly when the deciding call leaves one |
| Scratches.InsertWithFallthrough | internal/api/agentapiservice/scratch_zone.go:80-110 | the zone returned is the only one that can hold the VM, it was not cooling down unless every zone was, and "" means none can |
| Scratches.Cleanup | internal/api/agentapiservice/scratch.go:132-142 | deletes the VM only where the zone is known, and marks the record |
| Scratches.ParseScratchZones | cmd/agent-api/main.go:59-70 | the zones of the flag, trimmed, none of them empty |
| Texts.SplitJoins | cmd/agent-api/main.go:61-66 | the pieces of a split text joined again are the text |
| Texts.PiecesAreFree | cmd/agent-api/main.go:61-66 | no piece has the separator in it |
| Texts.TrimSpaceIs | cmd/agent-api/main.go:61-66 | trimming takes off white space at both ends, and all there is |
| Scratches.ScratchCreate | internal/api/agentapiservice/scratch.go:102-171 | succeeds if and only if the class has a template, the record is inserted, the first zone in stock creates the VM, its address is recorded, it answers in time and it is marked ready: then one VM, in the recorded zone; failure, with the error each step gives: no VM if and only if no insertion left one or the teardown's deletion in its zone takes effect, and the inserted record Deleted; nothing else touched |
| Scratches.ScratchDelete | internal/api/agentapiservice/scratch.go:188-209 | success if and only if the record is there and both its updates work; then Deleted is recorded; the VM goes exactly when the first update works and its deletion takes effect |
| Scratches.CreateThenDelete | internal/api/agentapiservice/scratch.go:102-209 | done if and only if every step of the creation and both updates of the deletion work; then the cloud is as it was exactly when the VM's deletion took effect |
| Scratches.WaitHealthy | internal/api/agentapiservice/scratch.go:211-237 | healthy exactly when some probe up to the deadline succeeds, the first being immediate |
| Coalescing.StepKeeps | internal/cache/cache.go:35-70 | every atomic step keeps entries, callers and map consistent |
| Coalescing.OneFetchOneAnswer | internal/cache/cache.go:60-65 | an entry's fetch runs at most once, and any two calls that return from one entry, however far apart in the run, return its outcome |
| CoalescedCalls.Obtains | internal/cache/cache.go:43-65 | Get and GetOrSet obtain the entry mapped under the key and leave the map alone; only where there is none Get finds nothing and GetOrSet maps its own; Set always does |
| CoalescedCalls.SharesTheEntry | internal/cache/cache.go:43-65 | while a key stays mapped to one entry, every Get or GetOrSet of it that begins is on that entry, starts no fetch but that entry's first, and returns its outcome |
| CoalescedCalls.CallsCoalesce | internal/cache/cache.go:60-65 | any two such calls return the same outcome, with one fetch at most |
| CoalescedCalls.ReturnsItsOwn | internal/cache/cache.go:51-65 | a call that maps an entry of its own returns the outcome of that entry's fetch |
| CoalescedCalls.OutcomeIsTheFetchs | internal/cache/cache.go:30-34 | the outcome of an entry is what its fetch came to |
| Coalescing.DoneIsFinal | internal/cache/cache.go:30-41 | no step changes the outcome of a finished entry |
| Coalescing.ClearingIsExact | internal/cache/cache.go:35-41 | an entry leaves the map other than by Del or Set only through a call that obtained that very entry and saw it fail |
| Coalescing.QuietMapIsAllSuccesses | internal/cache/cache.go:35-65 | with no call in flight every mapped entry is a finished success |
| Coalescing.SomeoneCanMove | internal/cache/cache.go:35-65 | a call in flight, or the fetch it waits for, can always take a step |
| ParDo.CallsAreBounded | internal/pipe/pipe.go:86-105 | at most `concurrency` calls of fn are under way in every reachable state, or the largest int if it is negative |
| ParDo.AsManyAtOnce | internal/pipe/pipe.go:86-105 | and as many can be, given the items |
| ParDo.NothingAfterClose | internal/pipe/pipe.go:86-105 | once out is closed nothing is sent and no goroutine is left |
| ParDo.ClosedIsComplete | internal/pipe/pipe.go:86-105 | at the close fn was called once for each item, and out holds exactly the union of the outputs |
| ParDo.RunsAreBounded | internal/pipe/pipe.go:86-105 | no run is longer than a bound fixed by the input |
| ParDo.ClosesIffThereIsAToken | internal/pipe/pipe.go:88-95 | a run that can go no further has closed out if and only if concurrency is not 0 or there is no item |
| ParDo.NoTokenBlocks | internal/pipe/pipe.go:88-95 | with concurrency 0 the run that receives its item can go no further and has not closed |
| ParDo.OneTokenKeepsOrder | internal/pipe/pipe.go:86-105 | with concurrency 1 the output is that of the sequential combinator, in order |
| ParDo.SequentialDo | internal/pipe/pipe.go:77-84 | the sequential combinator sends the items' outputs one after the other |
| Canonical.RunCleans | pkg/stabilize/tar.go:159-173 | after any prefix of the list, sorts included, the archive holds exactly the entries cleaned by the stabilizers so far |
| Canonical.SameIffSameForms | pkg/stabilize/tar.go:159-173 | two archives with distinct names end equal if and only if their cleaned entries are the same set, for any lists that clean alike and any unstable sort |
| Canonical.Idempotent | pkg/stabilize/tar.go:159-173 | running again changes nothing |
| TarStabilize.ApplyAfterClean | pkg/stabilize/tar.go:65-110 | the six stabilizers commute and do nothing when repeated |
| TarStabilize.StabilizeTar | pkg/stabilize/tar.go:139-181 | fails exactly on GNU sparse and long-name entries, else is a run of the listed stabilizers in order |
| TarStabilize.TarCanonical | pkg/stabilize/tar.go:24-110 | archives with distinct names stabilize alike if and only if they agree as sets on name, type, link name, size and body, in whatever order the six are listed |
| TarStabilize.TarIdempotent | pkg/stabilize/tar.go:138-181 | stabilizing twice equals once |
| RepeatedNames.DeterminedIff | pkg/stabilize/tar.go:56-62 | for any lawful pipeline that sorts, all runs on an input end alike if and only if its entries of one name have one cleaned form |
| TarStabilize.TarDeterminedIff | pkg/stabilize/tar.go:24-110 | the result depends on the input alone if and only if entries of one name agree on type, link name, size and body |
| TarStabilize.TarSameIff | pkg/stabilize/tar.go:24-110 | and then archives stabilize alike if and only if they have those entries equally often |
| TarStabilize.DuplicateNamesAreAmbiguous | pkg/stabilize/tar.go:56-62 | two different entries of one name may be left in either order |
| ZipStabilize.FlagsAfterClean | pkg/stabilize/zip.go:68-106 | the two stabilizers that touch the flags clear complementary bits in either order |
| ZipStabilize.ApplyAfterClean | pkg/stabilize/zip.go:52-106 | the seven stabilizers commute and do nothing when repeated |
| ZipStabilize.ZipCanonical | pkg/stabilize/zip.go:18-106 | archives with distinct names stabilize alike if and only if they agree as sets on name and content |
| ZipStabilize.ZipDeterminedIff | pkg/stabilize/zip.go:42-106 | the result depends on the input alone if and only if entries of one name have one content |
| ZipStabilize.ZipSameIff | pkg/stabilize/zip.go:42-106 | and then archives stabilize alike if and only if they have the same names and contents equally often |
| ZipStabilize.ZipIdempotent | pkg/stabilize/zip.go:107-125 | stabilizing twice equals once |
| StableSorting.StableSortSorts | pkg/stabilize/context.go:57-62 | the result is the sorted permutation that keeps the order of equal elements |
| StableSorting.StableSortIsUnique | pkg/stabilize/context.go:57-62 | there is no other |
| WheelRecords.StabilizeZip | pkg/stabilize/zip.go:108-125 | runs the stabilizers sequenced by stage, and fails exactly when an entry of the result cannot be read |
| WheelRecords.StabilizedSameIff | pkg/stabilize/zip.go:108-125 | with the seven built-in stabilizers, however listed and staged, results are equal if and only if names and contents are |
| WheelRecords.ZipArchive.WriteRecord | pkg/stabilize/wheel.go:35-79 | writes the specified RECORD, or changes nothing without a RECORD or with an unreadable entry |
| WheelRecords.RecordNames | pkg/stabilize/wheel.go:36-45 | the entry taken for the RECORD is one directly in a directory whose name ends in .dist-info |
| WheelRecords.RecordedAgrees | pkg/stabilize/wheel.go:35-79 | the RECORD written reads back as one row for every other entry with its digest and size, stably sorted by path, then its own row |
| WheelRecords.LastIsTheRecord | pkg/stabilize/context.go:57-62 | when only the RECORD writer is staged at StageFinalize or later, it runs last, wherever it was listed |
| WheelRecords.FinalRecordAgrees | pkg/stabilize/wheel.go:24-79 | under that staging, for any other stabilizers at all, the RECORD of the final archive lists exactly its other entries with their final digests and sizes (PEP 376, RECORD) |
| RecordCsv.FieldBack | pkg/stabilize/wheel.go:82-87 | any path, quoted where needed, is read back as itself (RFC 4180, section 2) |
| RecordCsv.RowsBack | pkg/stabilize/wheel.go:72-87 | the rows written are the rows read, commas, quotes and line breaks in paths included |
| RecordCsv.DecimalBack | pkg/stabilize/wheel.go:74-76 | the size written is the size read |
| NpmWarp.NpmDocument.Warp | internal/timewarp/npm.go:87-156 | whatever the order of ranging over the maps, the outcome is the specified one for some newest version, errors included |
| NpmWarp.WarpMeaning | internal/timewarp/npm.go:87-156 | latest is the newest version not after the date; exactly the versions known to be later are gone; modified is latest's time cut to the second; repository and description are latest's |
| NpmWarp.WarpFailsIff | internal/timewarp/npm.go:87-156 | the warp fails exactly for a missing time map or version list, a time that does not parse, a creation after the date, or a newest version that is no object |
| NpmWarp.WarpComposes | internal/timewarp/npm.go:86-156 | with distinct times, warping to t2 and then to an earlier t1 is warping to t1 |
| NpmWarp.WarpIsIdempotent | internal/timewarp/npm.go:86-156 | warping twice to a date always succeeds and changes nothing |
| NpmWarp.LaterWarpFailsIff | internal/timewarp/npm.go:131-140 | a document warpable to t1 is warpable to a later t2 if and only if the newest version then is not listed as a non-object |
| NpmWarp.LaterWarpCanFail | internal/timewarp/npm.go:131-140 | a document that can be warped to an early date and not to a later one |
| PyPIWarp.PyPIDocument.ScanFiles | internal/timewarp/pypi.go:96-121 | the files of the past and the first sighting over all files, an unparsable time being an error |
| PyPIWarp.PyPIDocument.Warp | internal/timewarp/pypi.go:83-161 | whatever the order of ranging over the releases, the specified outcome for some version first seen last |
| PyPIWarp.ProjectMeaning | internal/timewarp/pypi.go:82-161 | exactly the versions with a file of the past are left, with exactly those files, and the info is the one fetched for the newest, while urls stay as fetched |
| PyPIWarp.LatestIsSeenLast | internal/timewarp/pypi.go:94-130 | the version asked for has a file uploaded by the date, and every other such version has one no later than any of its |
| PyPIWarp.ProjectFailsIff | internal/timewarp/pypi.go:83-161 | the warp fails exactly for missing releases, an upload time that does not parse or a failed fetch |
| PyPIWarp.ProjectWarpComposes | internal/timewarp/pypi.go:82-161 | project time travel composes, with the version fetch a function that keeps the project's name |
| PyPIWarp.ProjectWarpIsIdempotent | internal/timewarp/pypi.go:82-161 | and is idempotent |
| PyPIWarp.NothingReleasedIff | internal/timewarp/pypi.go:94-130 | the version asked for is empty if and only if no release has a file uploaded by the date |
| PyPIWarp.NothingReleasedIsToday | internal/timewarp/pypi.go:131-160 | then no release is left and the info is the whole project's |
| PyPIWarp.SomethingReleasedIsThen | internal/timewarp/pypi.go:131-160 | otherwise the info is that of a version with a file uploaded by the date |
| PyPIWarp.TodaysInfo | internal/timewarp/pypi.go:131-160 | a project warped to before its first release that keeps today's info |
| PyPIWarp.SimpleDocument.Warp | internal/timewarp/pypi.go:166-221 | the specified index, or an error, exactly |
| PyPIWarp.SimpleMeaning | internal/timewarp/pypi.go:163-221 | the files uploaded by the date are left, and the listed versions that one of them stands for |
| PyPIWarp.SimpleFailsIff | internal/timewarp/pypi.go:166-221 | the warp fails exactly for missing files or versions or an upload time that does not parse, at every date alike |
| PyPIWarp.SimpleWarpComposes | internal/timewarp/pypi.go:163-221 | composes without hypotheses, and succeeds alike for every date |
| Semvers.SemversAreOrdered | internal/semver/semver.go:26-34 | Compare is a total preorder on all versions |
| VersionMix.PiecesParse | internal/semver/semver.go:48-65 | a "v" or not, three numbers without superfluous zeros, a prerelease and a build of identifiers or none: any such text parses, to those |
| VersionMix.ParsesOnlyPieces | internal/semver/semver.go:48-65 | and no other text does |
| Semvers.PrereleasesAreOrdered | internal/semver/semver.go:88-105 | so is the prerelease comparison on all strings |
| Semvers.ReleaseIsGreatest | internal/semver/semver.go:89-93 | a version without prerelease is greater than the same with one |
| Semvers.AgreesWithSpecOnPlain | internal/semver/semver.go:67-105 | where every identifier is a number within int64 or free of digits, the order is that of item 11 of Semantic Versioning 2.0.0 |
| Semvers.IdentifiersAgreeIff | internal/semver/semver.go:67-105 | for all pairs of identifiers, exactly when the key order is that of item 11, in terms of the text before the last digits, their lengths and what follows |
| Semvers.PrereleasesAgreeIff | internal/semver/semver.go:67-105 | for all pairs of prereleases, exactly when the order is that of item 11: the first identifiers it tells apart are ordered alike, or their keys tie and what follows is ordered as they are |
| Semvers.TailIsIgnored | internal/semver/semver.go:69-77 | every identifier with a digit ties with itself followed by text without one, which item 11 puts later |
| Semvers.NumbersAreNotText | internal/semver/semver.go:69-105 | text followed by a number is compared by number, where item 11 compares text; they agree exactly on numbers of one length or of lengths the text order happens to follow |
| Semvers.DisagreesOnMixed | internal/semver/semver.go:67-105 | "rc9" precedes "rc10", and "rc1a" ties with "rc1b", against item 11 |
| Semvers.CmpAntisymmetricIff | internal/semver/semver.go:107-117 | swapping the arguments flips the sign if and only if one of them parses |
| Semvers.BothAreSmaller | internal/semver/semver.go:107-117 | two strings each reported smaller than the other |
| Versionx.LooseIsOrdered | internal/versionx/versionx.go:83-106 | compareLoose is a total preorder on all strings, numbers past int64 included |
| Versionx.ApproxIsOrderedApart | internal/versionx/versionx.go:64-79 | ApproxCompare is a total preorder on semantic versions and on all other strings |
| Versionx.PlainReleasesAgree | internal/versionx/versionx.go:72-79 | on plain X.Y.Z releases both orders are the same |
| Versionx.PlainMixIsOrdered | internal/versionx/versionx.go:68-71 | mixing is transitive as long as the semantic versions are plain releases |
| VersionMix.MixIsOrderedIff | internal/versionx/versionx.go:64-106 | one more semantic version keeps the order among plain releases and other strings if and only if it has no "v", prerelease, oversized number or build with a letter or digit, or is a prerelease of v0.0.0 |
| Versionx.MixedCycle | internal/versionx/versionx.go:68-71 | 1.0.0-rc1, 1.0.0 and 1.0.0.post1 form a cycle |
| Bitmaps.OneWord | internal/bitmap/bitmap.go:36-50 | setting or clearing one bit of one word adds or removes one member |
| Bitmaps.CountIsCardinality | internal/bitmap/bitmap.go:61-67 | the population count is the number of members |
| Bitmaps.Bitmap.Set | internal/bitmap/bitmap.go:37-42 | adds the index if it is in range |
| Bitmaps.Bitmap.Clear | internal/bitmap/bitmap.go:45-50 | removes the index |
| Bitmaps.Bitmap.Get | internal/bitmap/bitmap.go:53-58 | membership, for any index |
| Bitmaps.Bitmap.Count | internal/bitmap/bitmap.go:61-67 | cardinality |
| Bitmaps.Bitmap.Combine | internal/bitmap/bitmap.go:74-102 | union, intersection or symmetric difference, aliasing included; nothing on a size mismatch |
| Bitmaps.Bitmap.Invert | internal/bitmap/bitmap.go:105-113 | the complement within the size, bits past it staying zero |
| Bitmaps.NewBatch | internal/bitmap/bitmap.go:23-34 | empty bitmaps on disjoint words of one array |
| Bitmaps.OthersUntouched | internal/bitmap/bitmap.go:22-34 | an update to one bitmap of a batch changes no other |
| BitWords.LowBits | internal/bitmap/bitmap.go:110-112 | the mask of a partial last word has exactly the bits below the size |
| OrderConsistency.CheckOrderConsistency | pkg/diffr/order.go:12-50 | true if and only if the listings are identical, or both free of duplicates with the same sequence of common entries |
| OrderConsistency.PairsIffSequence | pkg/diffr/order.go:36-48 | the common entries agree on every pair if and only if they form the same sequence |

## Left out

- `HierarchicalCache`, and `CoalescingMemoryCache.Clear`, which replaces the map while calls may use it; a fetch that panics.
- `AgentCreateIteration` after the reservation, and its build bookkeeping; `ScratchReap` and `ScratchExec`.
- Scratch records touched by other processes while a creation is under way; a process that dies between the VM's insertion and the record's update.
- The other stabilizers: gzip, gem, crate and the JAR ones except the manifest edit. `StabilizeTar` and `StabilizeZip` see them as stabilizers without a function for the entry, or, for zip, as arbitrary functions of the entries.
- `Constraints.Matches` and nested contexts: a stabilizer of another format does nothing here.
- Tar and zip entries are values in a list rather than shared pointers; sorting is any sorted permutation.
- The zip archive's own comment, which is passed through unchanged.
- Reading and writing of archives, gzip, JSON, SQLite and HTTP. SQL is its row semantics, the store a map.
- The rollup as code: it is a step of the protocol, and its metadata other than the watermark and era, derived tables and signal pruning are not modelled.
- The first `refreshLoop` failure handling, `OpenCache`, and the file system work of `hydrate`.
- `BufferedPipe` with more than one reader; `LineBuffer` with a capacity of 0 or less, which panics.
- Manifest names and attribute names beyond ASCII in case folding.
- SHA-256 and base64: the digest field is any function whose result needs no quoting.
- `extractVersionFromPyFilename` is a parameter of the simple index; time stamps in JSON that are not text, which panic.
- Orderings of stabilizers are unbounded integers: the subtraction that compares them does not overflow.
- A path separator inside a key, which could make two records share a path in `memoryResource`.
- NpmWarp.WarpComposes: assumes distinct publication times and non-empty version names, since ties are broken by the order of ranging over a map.
- PyPIWarp.ProjectWarpComposes: assumes distinct first sightings, real upload times and a fetch that keeps the project's name.
- TarStabilize.TarCanonical: assumes distinct entry names; `TarDeterminedIff` and `TarSameIff` say when repeated names do no harm.
- VersionMix.MixIsOrderedIff: decides one semantic version beside all plain releases and all strings that are no semantic version; for a smaller candidate set the order may survive by chance.
- ReplicationTheorems.NoLostUpdate: says nothing of a document without the field its table is scanned by, which no bounded scan returns.
