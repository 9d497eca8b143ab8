# Integris in Dafny

Integris is a transactional sync and backup engine written in Go. This project models
its five connected parts and proves what they promise when a run is cut off at any point:

- the verifiable journal: record codec, bounded-window reader, independent verifier,
  writer over a crash-injecting segment and over a file (`Bytes`, `RecordCodec`,
  `JournalScan`, `JournalWriter`, `FileSegment`);
- journaled local sync: scan, plan, apply with durable progress, confirm, resume
  (`JournalPayload`, `TxnState`, `Lex`, `SyncPlan`, `LocalSync`);
- the recovery kernel (`Recovery`);
- the deterministic planner (`InsertionSort`, `PlanDocument`, `PlanBuild`, `PlanLaws`);
- session, protocol driver, handshake and chunked transfer (`Transcript`, `Session`,
  `LiveSession`, `ProtocolFrame`, `FrameBodies`, `Driver`, `DriverHistory`, `Handshake`,
  `HandshakeTranscript`, `LiveDriver`, `Transfer`, `LiveTransfer`).

`dafny verify dfyconfig.toml` checks everything.

## Reading the model

SHA-256, HMAC-SHA256 and the AEAD are parameters, so each theorem holds for every such
function. No hash is assumed injective: where equal digests matter, the conclusion is
"equal, or these two named byte strings collide" (`Bytes.IsCollision`). HKDF is defined
from HMAC.

Code that changes state is imperative here. The writer, the crash segment, the recovery
effects, the session, the driver and the receiving store are classes whose methods are
proved to take exactly the step a function on values describes; the laws are lemmas about
those functions. A sync run changes files, not objects, so `LocalSync` passes the disk as
a value through its methods and may stop nondeterministically before or after each effect.

What is false of the code has a failing input and its exact condition:

- a journal field reads back if and only if it clears a 16-bit length comparison
  (`JournalPayload.TakePut`), which is not monotone in its length
  (`JournalPayload.ReadabilityIsNotMonotone`). This is about the codec alone: the path
  grammar keeps every path a sync accepts far below those lengths, so there progress is
  durable (`LocalSync.AppendProgress`);
- over a file, a record shorter than what a failed write left behind can make the journal
  unreadable (`FileSegment.ShorterSecondIsFatal`); the file reads back as acknowledged if
  and only if the next record is at least as long (`FileSegment.ReadsBackExactlyWhen`).
  Local sync returns at its first failed append, so it does not get there;
- interrupted recoveries converge if and only if the journal is not in the one state in
  which removing staging forgets the verdict (`Recovery.ForgetfulRun`,
  `Recovery.ConvergesExactlyWhen`);
- an accepted frame re-encodes to its own bytes if and only if its MAC flag says what the
  key implies (`ProtocolFrame.UnflaggedIsAccepted`, `ProtocolFrame.FrameIsCanonical`);
- an undisturbed transfer completes if and only if the metadata on disk does not vouch for
  a partial of other content, which it can after a failed removal
  (`Transfer.KeptMetadataMisleads`, `Transfer.CompletesExactlyWhen`); while removals work it
  always completes, whatever versions were tried before (`Transfer.AnyHistoryCompletes`).

Premises: one fixed pair of roots; the destination changes only through Sync; the source
does not change while a transaction is open; transaction ids are unused; parsing undoes
formatting of the plan snapshot; fewer than 2^32 entries and 2^63 bytes; no entry has a
staging file's name.

## Model

| member | source | states |
|---|---|---|
| `Bytes.ReadWrite32` | internal/codec/le.go:10-37 | reading undoes writing for every 32-bit value |
| `Bytes.WriteRead32` | internal/codec/le.go:10-37 | writing undoes reading for every four bytes |
| `Bytes.ReadWrite64` | internal/codec/le.go:18-43 | reading undoes writing for every 64-bit value |
| `Bytes.WriteRead64` | internal/codec/le.go:18-43 | writing undoes reading for every eight bytes |
| `Bytes.PutU16LE` | internal/codec/le.go:4-7 | two bytes change, the rest of the buffer does not |
| `Bytes.PutU32LE` | internal/codec/le.go:10-15 | four bytes change, the rest of the buffer does not |
| `Bytes.PutU64LE` | internal/codec/le.go:18-27 | eight bytes change, the rest of the buffer does not |
| `RecordCodec.DecodeEncoded` | internal/codec/journal.go:73-227 | an encoded record followed by any tail decodes to its fields and its length |
| `RecordCodec.EncodeDecoded` | internal/codec/journal.go:132-227 | an accepted record re-encodes to exactly the bytes it was read from |
| `RecordCodec.EncodedInjective` | internal/codec/journal.go:73-126 | equal encodings, each followed by anything, come from equal records and tails |
| `RecordCodec.PreimageInjective` | internal/codec/journal.go:229-253 | equal commitment preimages come from equal fields |
| `RecordCodec.CutIsIncomplete` | internal/codec/journal.go:132-161 | a record cut at any byte is a torn candidate, never corruption |
| `RecordCodec.DecisionIsStable` | internal/codec/journal.go:132-227 | a decision other than incomplete is not changed by more bytes |
| `RecordCodec.WindowSuffices` | internal/journal/reader.go:43-82 | a window of the maximum record size decides as the whole rest would |
| `RecordCodec.CommitmentPreimage` | internal/codec/journal.go:229-253 | the buffer filled in place is the preimage of the fields |
| `RecordCodec.EncodeRecord` | internal/codec/journal.go:73-126 | succeeds exactly on encodable fields, with the canonical bytes; every refusal has its kind |
| `JournalScan.ScanIsSound` | internal/journal/reader.go:26-104 | what a scan accepts is a hash chain, byte for byte, and a torn end is an incomplete record |
| `JournalScan.ScanIsComplete` | internal/journal/reader.go:26-104 | a scan walks over every record of a valid chain and carries on after it |
| `JournalScan.AcceptedIsLongest` | internal/journal/reader.go:26-104 | every valid chain the data begins with is part of what is accepted |
| `JournalScan.CutIsSafe` | internal/journal/reader.go:43-104 | cutting a valid journal anywhere yields exactly the records wholly before the cut, torn exactly off a boundary, never fatal |
| `JournalScan.HeadBindsHistory` | internal/codec/journal.go:112-120 | equal heads of two chains: equal histories, or two named preimages collide |
| `JournalScan.HeadBindsBytes` | internal/journal/reader.go:83-101 | two clean journals with the same head are byte-identical, or two named preimages collide |
| `JournalScan.ReadPrefix` | internal/journal/reader.go:26-104 | the windowed loop computes the scan |
| `JournalScan.VerifyBytes` | internal/journal/verify/verify.go:24-78 | the independent loop computes the same scan |
| `JournalScan.ScannersAgree` | internal/journal/verify/verify.go:24-78 | on every byte string both scanners agree on ending, offset, count, head and next sequence |
| `JournalWriter.PartialAppend` | internal/journal/crashseg.go:75-116 | the first k bytes of the next record are accepted entirely or not at all |
| `JournalWriter.AppendFromReady` | internal/journal/writer.go:48-105 | from a ready writer, an append under any fault extends the accepted records by one or leaves them |
| `JournalWriter.StaleRefuses` | internal/journal/writer.go:48-105 | a writer behind the bytes or over a torn tail appends nothing |
| `JournalWriter.AppendKeeps` | internal/journal/writer.go:48-105 | an append under any fault keeps the journal readable and what was accepted |
| `JournalWriter.ReopenKeeps` | internal/localsync/journaled.go:27-46 | reopening drops only the torn tail and readies the writer |
| `JournalWriter.RunIsSafe` | internal/journal/writer.go:19-105 | over every interleaving of appends, crashes and reopens: acknowledged records stay accepted, sequences are 1 to n, accepted bytes are never overwritten |
| `JournalWriter.NoSecondRecordWithTheSameSequence` | internal/journal/writer.go:48-105 | over the memory and crash segments: after an append that stopped, the same writer refuses every further append, unless the stopped one left nothing |
| `JournalWriter.CrashSegment.Append` | internal/journal/crashseg.go:75-92 | appends all, half or nothing as the armed crash point says |
| `JournalWriter.CrashSegment.Sync` | internal/journal/crashseg.go:97-116 | fails exactly at its crash points and changes no byte |
| `JournalWriter.CrashSegment.Truncate` | internal/journal/segment.go:68-76 | keeps exactly the first n bytes |
| `JournalWriter.Writer.Append` | internal/journal/writer.go:48-105 | the object takes the specified step under its segment's fault |
| `JournalWriter.OpenJournal` | internal/localsync/journaled.go:27-46 | a fatal journal is left alone; otherwise the torn tail is cut and a writer returned |
| `FileSegment.Segment.Append` | internal/journal/segment.go:114-124 | writes over what the file holds at its size, and advances the size only when every byte was written |
| `FileSegment.Segment.Truncate` | internal/journal/segment.go:131-146 | keeps exactly the first n bytes, and the size says so |
| `FileSegment.WholeIsTheStep` | internal/journal/segment.go:114-124 | while the file ends at the segment's size, an append over it is the log's own step |
| `FileSegment.UnsyncedIsTheStep` | internal/journal/writer.go:91-96 | so is an append whose sync fails |
| `FileSegment.ShortIsUnseen` | internal/journal/segment.go:114-124 | after a short write nothing the writer checks has changed |
| `FileSegment.SecondGoesOver` | internal/journal/segment.go:114-124 | the same writer then acknowledges another record, and what the first left beyond it stays in the file |
| `FileSegment.ReadsBackExactlyWhen` | internal/journal/reader.go:26-104 | the file reads back as what was acknowledged, clean, if and only if the second record is at least as long as what the failed write left |
| `FileSegment.LeftoverIsFatal` | internal/journal/reader.go:43-104 | leftover bytes that do not begin a record make the reopened journal fatal |
| `FileSegment.ShorterSecondIsFatal` | internal/journal/segment.go:114-124 | the run on which that happens, on any journal with room |
| `JournalPayload.TakePut` | internal/localsync/jpayload.go:30-68 | a field reads back exactly when the 16-bit comparison clears, else it is an error, never another value |
| `JournalPayload.ObservationRoundTrip` | internal/localsync/jpayload.go:70-98 | the roots read back exactly under the stated length condition |
| `JournalPayload.PlanDigestRoundTrip` | internal/localsync/jpayload.go:100-117 | digest and operation count read back |
| `JournalPayload.ProgressRoundTrip` | internal/localsync/jpayload.go:128-164 | a progress record reads back exactly when readable, else it is an error |
| `JournalPayload.ShortProgressIsReadable` | internal/localsync/jpayload.go:128-164 | paths of up to 65000 bytes, which includes all the grammar accepts, are readable |
| `JournalPayload.ReadabilityIsNotMonotone` | internal/localsync/jpayload.go:59-68 | of the codec taken alone: a 65524-byte path is lost on reading while a 65526-byte one is not |
| `JournalPayload.ConfirmationInjective` | internal/localsync/jpayload.go:166-172 | equal confirmations carry equal digests and counters |
| `TxnState.InspectPrefix` | internal/localsync/txnstate.go:25-84 | the loop rebuilds the last transaction's state |
| `TxnState.FoundIsNamed` | internal/localsync/txnstate.go:25-84 | the transaction found is one some record names |
| `TxnState.AppendRecord` | internal/journal/writer.go:48-105 | a ready journal grows by exactly the record, is cut short with the record accepted or not, or is full; a calm append is not cut short |
| `SyncPlan.Lookup` | internal/localsync/scan.go:115-124 | the binary search finds what a linear search finds |
| `SyncPlan.FindInManifest` | internal/localsync/scan.go:115-124 | looking a path up in a manifest answers what the tree holds there |
| `SyncPlan.BuildPlan` | internal/localsync/plan.go:56-142 | loop and final sort yield the specified operations, or a conflict |
| `SyncPlan.PlanMeaning` | internal/localsync/plan.go:56-142 | a plan covers the source in order, is applicable, and skips exactly what already holds |
| `SyncPlan.ConflictsExactlyWhen` | internal/localsync/plan.go:56-142 | planning fails if and only if some path is a directory on one side and a file on the other |
| `SyncPlan.HoldMeansInSync` | internal/localsync/plan.go:56-142 | all operations of a covering plan hold if and only if source and destination are in sync |
| `SyncPlan.InSyncContents` | internal/localsync/plan.go:81-117 | in sync means equal contents, or the two contents collide |
| `SyncPlan.ReplanOnlySkips` | internal/localsync/plan.go:56-142 | planning again once a plan holds yields only skips |
| `SyncPlan.ParentsFirst` | internal/localsync/plan.go:118-142 | every directory above a path has an earlier operation |
| `SyncPlan.CountersAddUp` | internal/localsync/apply.go:63-128 | completed plus skipped is the number of operations |
| `LocalSync.InitialInv` | internal/localsync/sync.go:149-185 | an empty journal with any destination satisfies the reachable-state invariant |
| `LocalSync.ApplyMkdir` | internal/localsync/apply.go:140-167 | after it the directory is there; exactly it and its missing parents were added; it fails only on a file in the way, changing nothing |
| `LocalSync.ApplyFile` | internal/localsync/apply.go:169-288 | stage, check, rename: the destination gets its missing parents and exactly the checked source content, with no staging file left, or the old content stands; it fails only on a changed source or a conflict |
| `LocalSync.ApplyOp` | internal/localsync/apply.go:79-126 | one operation, interrupted anywhere, changes only its own path and only towards the source |
| `LocalSync.AppendProgress` | internal/localsync/sync.go:264-311 | progress is durable: an acknowledged record moves the resume point to i + 1; a cut-off one leaves it or moves it; it never claims more than what holds |
| `LocalSync.AfterProgress` | internal/localsync/txnstate.go:25-84 | a progress record of a lawful path reads back as the next resume point |
| `LocalSync.ApplyWith` | internal/localsync/apply.go:63-128 | from any resume point the counters end as for an uninterrupted run; a stop leaves the journal at most one operation behind the destination |
| `LocalSync.AfterConfirmation` | internal/localsync/sync.go:264-311 | a confirmation after the last operation settles the transaction with every operation holding |
| `LocalSync.FinishApply` | internal/localsync/sync.go:264-311 | the confirmation appended is a function of the plan alone, however often the run was interrupted |
| `LocalSync.BeginNewTxn` | internal/localsync/journaled.go:113-160 | the snapshot is stored before the transaction is announced; every cut leaves the invariant |
| `LocalSync.ScanTree` | internal/localsync/scan.go:20-112 | the listing is sorted and lists exactly the tree; it is refused if and only if a path breaks the grammar |
| `LocalSync.Resume` | internal/localsync/sync.go:186-223 | no conflict branch can occur: resuming delivers the plan, is interrupted, or the journal is full; a calm one is not interrupted |
| `LocalSync.FastPathIsSound` | internal/localsync/sync.go:239-253 | a fresh plan with the confirmed digest is the confirmed plan and only skips, or the two documents collide |
| `LocalSync.CountOps` | internal/localsync/sync.go:239-253 | the counting loop counts completed and skipped operations |
| `LocalSync.PlanAndApply` | internal/localsync/sync.go:224-262 | fast path or new transaction: on success in sync and confirmed; refused, changing nothing, only for an unlawful path or a directory and a file at one path |
| `LocalSync.Sync` | internal/localsync/sync.go:149-311 | from every reachable state and for every interruption the invariant is kept, only source paths change, and success means in sync with no staging left; a calm run ends in success, a full journal, or a refusal with its reason |
| `LocalSync.SyncUntilSuccess` | internal/localsync/sync.go:44-101 | crash-resume convergence: after any number of interrupted runs the first success leaves every source entry in place with its content or a named collision, other entries untouched and at most one confirmation per transaction; with a clear way a calm last run succeeds unless the journal is full |
| `LocalSync.StaysClear` | internal/localsync/plan.go:56-142 | changes made by a sync never put a conflict or an unlawful path in the way of the next |
| `Recovery.AuthorizationRoundTrip` | internal/recovery/recover.go:229-306 | an authorization payload reads back its binding |
| `Recovery.ScanRecords` | internal/recovery/recover.go:229-306 | the loop with its early returns computes the specified flags |
| `Recovery.FlagsDescribe` | internal/recovery/recover.go:229-306 | the flags say exactly which records were seen, and how many confirmations |
| `Recovery.NeverInventsSuccess` | internal/recovery/recover.go:89-186 | PUBLISHED or CONFIRMED only when publication was observed with matching content and the prefix holds authorization, received, prepared and verified |
| `Recovery.AtMostOneConfirmation` | internal/recovery/recover.go:347-359 | over any recoveries with faults at any checkpoint at most one confirmation is ever appended |
| `Recovery.ConfirmsExactlyWhen` | internal/recovery/recover.go:56-198 | a confirmation is appended if and only if one is called for and no fault precedes it |
| `Recovery.OneFaultIsInvisible` | internal/recovery/recover.go:308-359 | one faulted recovery does not change where a complete one ends |
| `Recovery.Converges` | internal/recovery/recover.go:56-198 | any number of interrupted recoveries then a complete one equal one complete recovery |
| `Recovery.ConvergesExactlyWhen` | internal/recovery/recover.go:115-120 | convergence holds for every fault sequence if and only if the starting state is not the forgetful one |
| `Recovery.ForgetfulRun` | internal/recovery/recover.go:115-120 | the concrete faulted run after which the verdict differs |
| `Recovery.FurtherRecoveryIsQuiet` | internal/recovery/recover.go:56-198 | after a complete recovery a further one appends no record |
| `Recovery.Recover` | internal/recovery/recover.go:56-198 | the branches and effects yield exactly the specified verdict, and perform it |
| `Recovery.MemPersist.ConfirmOnce` | internal/recovery/recover.go:347-359 | checkpoint, append, checkpoint: what is recorded under each fault |
| `Recovery.MemPersist.DoCleanup` | internal/recovery/recover.go:308-324 | removes staging exactly when the policy allows it and no fault precedes |
| `Recovery.MemPersist.DoQuarantine` | internal/recovery/recover.go:326-345 | quarantines staging exactly when it exists and no fault precedes |
| `InsertionSort.SortPermutes` | internal/plan/sort.go:65-103 | sorting permutes |
| `InsertionSort.SortSorts` | internal/plan/sort.go:65-103 | sorting sorts |
| `InsertionSort.SortedUnique` | internal/plan/sort.go:65-103 | what the order discerns has one sorted arrangement |
| `InsertionSort.SortForgetsOrder` | internal/plan/sort.go:65-103 | permutations of what the order discerns sort alike |
| `InsertionSort.MapSort` | internal/plan/sort.go:47-77 | sorting commutes with looking only at the key |
| `InsertionSort.Sink` | internal/plan/sort.go:70-75 | the swapping inner loop inserts one element |
| `InsertionSort.Sort` | internal/plan/sort.go:65-103 | copy and sort in place yields the specified arrangement |
| `PlanDocument.ComparePathComponents` | internal/plan/sort.go:7-25 | the loop computes the component order |
| `PlanDocument.PathsEqual` | internal/plan/sort.go:7-25 | paths compare equal if and only if they are equal |
| `PlanDocument.PathsTransitive` | internal/plan/sort.go:7-25 | the path order is transitive |
| `PlanDocument.KeysEqual` | internal/plan/sort.go:28-44 | rows compare equal if and only if path, capability and action are |
| `PlanDocument.ClassificationsOrdered` | internal/plan/sort.go:47-63 | the canonical order is an order |
| `PlanDocument.EntryInjective` | internal/plan/encode.go:64-95 | an encoded entry delimits itself |
| `PlanDocument.PlanInjective` | internal/plan/encode.go:9-50 | equal plan bytes come from equal digests, entries and destructive summary |
| `PlanDocument.EncodeEntryBytes` | internal/plan/encode.go:64-95 | encodes exactly what two-byte counts can hold |
| `PlanDocument.EncodeDestructiveSubset` | internal/plan/encode.go:99-113 | the loop encodes exactly the destructive entries, in order |
| `PlanDocument.EncodePlan` | internal/plan/encode.go:9-50 | the document and its digest, or a refusal exactly when a count does not fit |
| `PlanBuild.PickRepresentation` | internal/plan/build.go:146-171 | the loop computes the specified pick |
| `PlanBuild.LeastIsLeast` | internal/plan/build.go:146-171 | the running best is the least eligible identifier, and exists if and only if one is eligible |
| `PlanBuild.Walk` | internal/plan/build.go:27-52 | the loop with its early returns computes entries, blocking items or the first error |
| `PlanBuild.Build` | internal/plan/build.go:12-76 | the whole of Build computes the specified outcome |
| `PlanLaws.PickIsLeast` | internal/plan/build.go:146-171 | over the caller's own lists: the least eligible identifier, or none exactly when none is eligible |
| `PlanLaws.RowMeaning` | internal/plan/build.go:101-141 | a row becomes an entry if and only if the policy admits it, and then its own fields and least representation |
| `PlanLaws.PassMeaning` | internal/plan/build.go:27-52 | the pass fails if and only if a row is invalid or a neighbour has its key; it blocks exactly what is not admitted |
| `PlanLaws.NeighboursSuffice` | internal/plan/build.go:35-37 | comparing neighbours in sorted order finds every duplicate |
| `PlanLaws.RefusedExactlyWhen` | internal/plan/build.go:54-57 | refusal if and only if the input is acceptable and some row is not admitted; the preflight lists exactly those rows with their reasons, in canonical order |
| `PlanLaws.BuiltExactlyWhen` | internal/plan/build.go:12-76 | a plan if and only if acceptable, admitted and within the size limit, with exactly these bytes and digest |
| `PlanLaws.EntriesAreSound` | internal/plan/build.go:23-75 | one entry per classification, each its own row's with the least eligible representation, in strictly increasing canonical order |
| `PlanLaws.BuiltIsInjective` | internal/plan/encode.go:9-113 | equal plans come from equal digests and equal entries |
| `PlanLaws.DistinctForgetsOrder` | internal/plan/build.go:11-76 | with distinct keys, permuting rows, candidates and allow-lists leaves plan, digest, preflight and error unchanged |
| `PlanLaws.NormForgets` | internal/plan/build.go:146-150 | permuting a row's candidates leaves its normal form |
| `PlanLaws.DuplicatesAreRejected` | internal/plan/build.go:35-37 | a key given twice is rejected, whatever else the input holds |
| `PlanLaws.OrderIsInvisible` | internal/plan/build.go:11-76 | for all inputs: permuting leaves the outcome unchanged, or both are rejected |
| `Transcript.WrittenInjective` | internal/crypto/crypto.go:110-128 | different sequences of labelled fields never feed the hash the same bytes |
| `Transcript.DigestBinds` | internal/crypto/crypto.go:110-139 | equal transcript digests: the same steps were bound, or the two transcripts collide |
| `Transcript.RunningHash.Append` | internal/crypto/crypto.go:110-128 | appends the whole field, or nothing exactly when label or data is out of range; what was appended before stays |
| `Session.HighestIsGreatest` | internal/session/session.go:146-171 | the version chosen is common to both sides and nothing common is higher; none exactly when nothing is common |
| `Session.HighestOffered` | internal/session/session.go:146-171 | the two loops compute it |
| `Session.SelectSuite` | internal/session/suite.go:10-29 | the first local suite the peer offers |
| `Session.NegotiateSafe` | internal/session/session.go:174-202 | keeps the invariant and only advances |
| `Session.ConfirmSafe` | internal/session/session.go:207-230 | keeps the invariant and only advances or fails |
| `Session.AuthenticateSafe` | internal/session/session.go:234-252 | keeps the invariant and only advances or fails |
| `Session.AuthenticateProofSafe` | internal/session/peerauth.go:31-81 | keeps the invariant; peer authenticated only once both directions are |
| `Session.AuthorizeSafe` | internal/session/archiveauth.go:25-42 | keeps the invariant; authorized only after mutual authentication |
| `Session.AuthorizeArchiveSafe` | internal/session/session.go:256-264 | the same without a proof |
| `Session.ActivateSafe` | internal/session/session.go:267-289 | active only when authenticated, authorized and not downgraded |
| `Session.ClosingSafe` | internal/session/session.go:292-327 | accepting, closing and failing keep the invariant and the accept limit |
| `LiveSession.LiveSession.Negotiate` | internal/session/session.go:174-202 | the method takes the specified step, keeps the session invariant, only advances, and unbinds nothing from the transcript |
| `LiveSession.LiveSession.ConfirmAccept` | internal/session/session.go:207-230 | the method takes the specified step, keeps the session invariant, only advances, and unbinds nothing from the transcript |
| `LiveSession.LiveSession.Authenticate` | internal/session/session.go:234-252 | the method takes the specified step, keeps the session invariant, only advances, and unbinds nothing from the transcript |
| `LiveSession.LiveSession.AuthenticateProof` | internal/session/peerauth.go:31-81 | the method takes the specified step, keeps the session invariant, only advances, and unbinds nothing from the transcript |
| `LiveSession.LiveSession.AuthorizeArchive` | internal/session/session.go:256-264 | the method takes the specified step, keeps the session invariant, only advances, and unbinds nothing from the transcript |
| `LiveSession.LiveSession.AuthorizeArchiveProof` | internal/session/archiveauth.go:25-42 | the method takes the specified step, keeps the session invariant, only advances, and unbinds nothing from the transcript |
| `LiveSession.LiveSession.Activate` | internal/session/session.go:267-289 | the method takes the specified step, keeps the session invariant, only advances, and unbinds nothing from the transcript |
| `LiveSession.LiveSession.AcceptNext` | internal/session/session.go:292-306 | the method takes the specified step, keeps the session invariant, only advances, and unbinds nothing from the transcript |
| `LiveSession.LiveSession.Close` | internal/session/session.go:320-327 | the method takes the specified step, keeps the session invariant, only advances, and unbinds nothing from the transcript |
| `ProtocolFrame.FrameRoundTrip` | internal/protocol/protocol.go:81-192 | what encodes is decoded by a peer with the same key |
| `ProtocolFrame.FrameIsCanonical` | internal/protocol/protocol.go:138-192 | an accepted frame re-encodes to its own bytes if and only if its flag says what the key implies |
| `ProtocolFrame.UnflaggedIsAccepted` | internal/protocol/protocol.go:138-192 | every frame with the flag clear and a valid MAC is accepted and does not re-encode to itself |
| `FrameBodies.OfferRoundTrip` | internal/protocol/negotiate.go:19-91 | every offer that encodes is read back |
| `FrameBodies.OfferIsCanonical` | internal/protocol/negotiate.go:50-91 | every offer that is read has that one encoding |
| `FrameBodies.EncodeNegotiateOfferBody` | internal/protocol/negotiate.go:19-47 | the append loops compute the encoding, or refuse |
| `FrameBodies.ParseNegotiateOfferBody` | internal/protocol/negotiate.go:50-91 | the loop with its advancing offset computes the parse |
| `FrameBodies.AcceptRoundTrip` | internal/protocol/negotiate.go:99-132 | encoding gives a body if and only if parsing that body gives the choice |
| `FrameBodies.PeerAuthRoundTrip` | internal/protocol/peerauth.go:9-23 | direction and proof are read back |
| `FrameBodies.ChunkRoundTrip` | internal/protocol/data_chunk.go:17-49 | encoding gives a body if and only if parsing that body gives the chunk |
| `Driver.HandleSafe` | internal/protocol/driver.go:103-220 | any inbound frame keeps the session invariant and only advances it or fails it |
| `Driver.AfterSafe` | internal/protocol/driver.go:103-355 | so does any event, inbound, outbound or setting the proof keys |
| `Driver.RunIsSafe` | internal/session/session.go:330-353 | over every run, keys set at any time, the source's Invariants hold, the phase only moves forward or to FAILED, and FAILED stays |
| `Driver.MutationIsAuthorized` | internal/session/session.go:292-353 | from a constructor: data only after mutual authentication and archive authorization, within the limit, never downgraded |
| `DriverHistory.AcceptedInOrder` | internal/protocol/driver.go:107-112 | the accepted frames carry consecutive sequences of this session: no replay, gap or reordering |
| `DriverHistory.DataIsCounted` | internal/protocol/driver.go:180-207 | the session counts exactly the data frames accepted, within its limit |
| `DriverHistory.PeerProofShown` | internal/session/peerauth.go:31-81 | a direction is authenticated only if some event showed its proof, under the key then in force, over the digest frozen at negotiation |
| `DriverHistory.ArchiveProofShown` | internal/session/archiveauth.go:25-42 | the archive is authorized only if some event showed its proof, under the key then in force, over the digest frozen after peer authentication |
| `DriverHistory.MutationNeedsProofs` | internal/protocol/driver.go:156-207 | from a constructor, when keys are set before the first proof frame: accepted data means all three proofs were shown during the run |
| `DriverHistory.SettingKeysSuffices` | internal/remotesync/handshake.go:77-87 | setting both keys once before any proof frame, and never to nothing, meets that condition |
| `Handshake.FrameLands` | internal/protocol/driver.go:280-304 | between linked drivers a frame is made, decoded and reaches the switch |
| `Handshake.NegotiationAgrees` | internal/remotesync/handshake.go:56-75 | offer and accept go through exactly for an agreeable offer, leaving the same session at both ends |
| `Handshake.ProofsAgree` | internal/remotesync/handshake.go:77-102 | both proofs cross and both ends are mutually authenticated in the same session |
| `Handshake.ArchiveAgrees` | internal/remotesync/handshake.go:104-110 | the archive proof crosses |
| `Handshake.ActivateAgrees` | internal/remotesync/handshake.go:112-117 | activation crosses |
| `Handshake.TrafficAgrees` | internal/protocol/driver.go:70-88 | both ends derive the same 32-byte traffic key from the same transcript |
| `Handshake.HandshakeAgrees` | internal/remotesync/handshake.go:38-122 | for all offers, ids and roots the exchange completes if and only if the offer is agreeable and the root has 32 bytes; then both ends are ACTIVE with equal session, transcript and key and mirrored sequences |
| `HandshakeTranscript.TranscriptIs` | internal/session/session.go:187-200 | a completed handshake has bound exactly eleven named fields, in order: negotiation, both proof tags over the negotiation digest, the archive tag over the digest after them, activation |
| `HandshakeTranscript.TranscriptBinds` | internal/crypto/crypto.go:110-139 | two handshakes with equal transcript digests offered the same versions, made the same choice and bound the same fields, or the two transcripts collide |
| `HandshakeTranscript.TagsBindIds` | internal/crypto/peerauth.go:26-40 | equal bound fields mean the same session id, or two named keyed messages share an HMAC |
| `Handshake.AgreedFlows` | internal/remotesync/handshake.go:118-121 | after a handshake data can flow both ways |
| `Handshake.AllArrive` | internal/protocol/driver.go:280-304 | after it, within the receiver's limit, every message arrives once, in order and unchanged |
| `LiveDriver.LiveDriver.Handle` | internal/protocol/driver.go:103-220 | the method takes the specified step; the session stays safe and only advances |
| `LiveDriver.LiveDriver.HandleData` | internal/protocol/driver.go:180-207 | payload and offset are taken before the session accepts, as specified |
| `LiveDriver.LiveDriver.Transmit` | internal/protocol/driver.go:280-304 | the send sequence advances exactly when a frame is made |
| `LiveDriver.LiveDriver.EncodeNegotiateOffer` | internal/protocol/driver.go:224-237 | the method takes the specified step |
| `LiveDriver.LiveDriver.EncodeNegotiateAccept` | internal/protocol/driver.go:241-258 | the method takes the specified step; the session stays safe and only advances |
| `LiveDriver.LiveDriver.SendPeerAuth` | internal/protocol/driver.go:309-332 | the proof is sent, then applied here too; the session stays safe and only advances |
| `LiveDriver.LiveDriver.SendArchiveAuth` | internal/protocol/driver.go:336-355 | the proof is sent, then applied here too; the session stays safe and only advances |
| `LiveDriver.LiveDriver.EncodeDataChunk` | internal/protocol/driver.go:263-277 | the send offset advances exactly when a chunk is made |
| `LiveDriver.LiveDriver.InstallTrafficKey` | internal/protocol/driver.go:70-88 | the method takes the specified step |
| `LiveDriver.RunHandshake` | internal/remotesync/handshake.go:148-224 | the two routines, step by step on objects, end agreed exactly for an agreeable offer |
| `Transfer.BeginKeeps` | internal/remotesync/store.go:102-160 | from any trusted disk, whatever another version left: begin acknowledges an offset up to which the partial holds the sender's bytes |
| `Transfer.ChunkKeeps` | internal/remotesync/store.go:162-188 | a chunk, written whole or cut short anywhere, leaves a beginning of the sender's content |
| `Transfer.EndKeeps` | internal/remotesync/store.go:205-257 | a successful end stages the sender's content; a failed one stages nothing else |
| `Transfer.RunKeeps` | internal/remotesync/store.go:102-257 | over any interruptions, failed file operations and resumes, a partial that will be resumed is a beginning of the content, exactly `off` bytes of it while open |
| `Transfer.FinishIsExact` | internal/remotesync/store.go:205-257 | whatever the trusted disk held before, a successful end stages exactly the content |
| `Transfer.CompleteIsExact` | internal/remotesync/store.go:109-117 | "already complete" means the content is staged, or what was there before collides with it |
| `Transfer.FinishIsChecked` | internal/remotesync/store.go:226-229 | even over a foreign partial, what is staged has the announced digest: equal or colliding |
| `Transfer.AttemptCompletes` | internal/remotesync/transfer.go:93-234 | from any trusted disk one undisturbed attempt, sending exactly the missing bytes in any chunks, completes |
| `Transfer.CompletesExactlyWhen` | internal/remotesync/store.go:119-135 | from any disk at all: it completes if and only if the disk is trusted, or what it assembles collides with the content |
| `Transfer.KeptMetadataMisleads` | internal/remotesync/transfer.go:87-90 | the run after which a disk is not trusted: metadata of one version kept by a failed removal beside a partial of the next |
| `Transfer.HistoryHasAnOwner` | internal/remotesync/store.go:119-160 | while metadata can be removed, after any history of versions the disk belongs to one of them, or two of them collide |
| `Transfer.AnyHistoryCompletes` | internal/remotesync/store.go:102-257 | after any such history an undisturbed attempt at any content completes and stages it, or two of the contents collide |
| `LiveTransfer.LocalStore.BeginFile` | internal/remotesync/store.go:102-160 | the method takes the specified step |
| `LiveTransfer.LocalStore.WriteChunk` | internal/remotesync/store.go:162-188 | the method takes the specified step |
| `LiveTransfer.LocalStore.PersistActive` | internal/remotesync/store.go:190-203 | the method takes the specified step |
| `LiveTransfer.LocalStore.EndFile` | internal/remotesync/store.go:205-257 | the method takes the specified step |
| `LiveTransfer.SendFile` | internal/remotesync/transfer.go:93-234 | one attempt, stopped anywhere: the invariant is kept; a sender that returns success sent size minus acknowledged offset; a receiver that returns success has the content staged |
| `LiveTransfer.SendUntilComplete` | internal/remotesync/transfer.go:93-234 | over any number of attempts from any trusted disk, whenever the receiver first succeeds the content is staged |

## Left out

- Power loss, lost or reordered writes and fsync strength: a crash is a process stop that keeps what was written.
- JournalWriter.NoSecondRecordWithTheSameSequence: says nothing of a short write over a file, where the writer does append again; `FileSegment` says what follows.
- Directory walking, symlinks, special files and modes: a tree is a map from paths to directories and contents, and equality is on type and content, as planning does not compare modes.
- LocalSync.ScanTree: yields the sorted listing of a map, because the walk itself is library code; special files are not in the map, and the skipped metadata directory is not part of the tree.
- LocalSync.ApplyMkdir: creates the missing parents in one step, because intermediate parents are directories the plan makes anyway.
- LocalSync.ApplyFile: creates the missing parents in one step, and stages, checks and renames with a stop possible between but not inside them.
- LocalSync.Sync: passes the disk as a value instead of updating an object, and takes one fixed pair of roots; a snapshot stored for other roots is not modelled.
- JSON of plans, configuration and partial metadata: parsing is assumed to undo formatting.
- Path rules on names (dots, separators, control characters, Unicode normalisation): a parameter of the planner and of local sync; the limits on components and bytes are modelled.
- The openat twins of the path-based code, and the IPC-mediated store, journal and index.
- Recovery.Recover: the action list, the recovery count and the idempotence flag of the outcome, which only account for what was done, and event emission are not modelled.
- Handshake.HandshakeAgrees: the peer prologue and keyring lookup are not modelled; both ends are given the same root and peer name.
- LiveDriver.RunHandshake: interleaves the two routines as their reads and writes force; timeouts and transport errors are not modelled.
- Sessions restored from a seal: the invariants are for sessions built by the constructors.
- HandshakeTranscript.TranscriptBinds: does not conclude equal suite lists, because the transcript binds the suite chosen and not the list.
- Transfer.AttemptCompletes: the encoding of the application messages (begin, ack, chunk, end) is not modelled, nor are manifests and commit.
- LiveTransfer.LocalStore.WriteChunk: offsets are unbounded; the source counts in 64 bits.
- Strength of SHA-256, HMAC, HKDF and the AEAD, randomness and key storage.
- The daemon, launcher, confinement, platform, authority, configuration, deletion, resource and observability packages and the commands: process lifecycle, operating system calls or finite tables, which would only add easy members.
