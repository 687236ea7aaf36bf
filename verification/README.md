# gstApp: a verified model of its protocols and codecs

gstApp records, streams and captures four cameras.  Inside the GStreamer wiring lie several
self-contained protocols and algorithms; this project models them in Dafny and proves what
they promise.  One file, one module:

- `PrepareStatus`, `Prepare` - the two-domain prepare transaction of the MAX9296
  deserialisers: the strict status line, classification, concurrent workers with bounded
  retry, joins, second reads, verdict, rollback, and later cancels.  The driver, thread
  creation and joining, and the order of the workers' stores are arbitrary; the outcome is
  specified on the log of driver calls and the report.
- `FrameAlign` - the incremental join of four frame-id streams with drops, a queue limit and
  reconnect epochs; its simple reading is set intersection.
- `SeiCodec` - Annex B framing, emulation prevention, SEI messages and the frame-id record;
  the encoder is written from ITU-T H.265 (sections 7.3.1.1, 7.3.2.4, 7.3.5 and Annex B.2).
- `Gf256`, `AesTables`, `AesSBox`, `AesColumns`, `Aes`, `Passwd` - the AES of FIPS 197 by in-place
  byte operations, its tables, and the password file on top of it.
- `MediaGate` - publication and retirement of an appsrc by several threads, back-pressure, and
  the gate that resumes on a keyframe.
- `Capture` - the capture request engine: requests, tasks, worker, timeouts, stop, drain.
- `Telemetry` - the compare-and-swap watermark with resetting snapshots.
- `EventPool` - the pool and queue of fragment-closed events.
- `SplitSchedule`, `Naming` - the split scheduler, file naming and the session marker.
- `RtpUnwrap` - unwrapping of 32-bit RTP timestamps (RFC 3550, section 5.1).
- `Generation` - reference count, flags and wait of a media generation.
- `Wrappers` - the option type and bytes.

Concurrent parts are state machines at the granularity of a locked section or one atomic
operation: a method is a step, its class invariant holds over every run, and what steps
promise is tied to ghost histories.  Unknown replies (drivers, clocks, thread scheduling) are
arbitrary values.

`dafny verify dfyconfig.toml` checks everything.

## Where the code does something else than one might expect

- The task queue's length is reported less the waiting threads, so the queue limit can be
  exceeded by two, not one: `Capture.SleepingWorkerOverfills` shows a run,
  `Capture.Engine.BeginSample` and `FinishSample` the exact condition.
- An SEI message of kind 128 is taken for trailing bits, and the whole SEI is malformed:
  `SeiCodec.Kind128NeverParses`; `OkMeansOneRecord` and `OkBytesCarryOneRecord` say exactly what is
  accepted.
- A password containing a dot is read back only up to it: `Passwd.WrittenPasswordReadBack`.
  Only the first 16 bytes of the file are encrypted.
- Forced splits of one minute keep their five seconds only while the wall clock does not leave
  that minute: `SplitSchedule.ForcedRoundsApart` and `ClockJumpsBringForcedRoundsTogether`.
- After a negative return of the prepare call (outside what its header promises) a later
  cancel_domain would cancel again a domain that carries no error of its own:
  `Prepare.HeldAfterItsCancel` is such a call, `Prepare.BooksAfterTheCall` the exact
  condition.
- An RTP step of more than half a turn that wraps is missed: `RtpUnwrap.ForwardStep`.

## Model

| member | source | states |
|---|---|---|
| PrepareStatus.ParseStatus | max9296Prepare.cpp:466-562 | The scan accepts a line exactly when its tokens are acceptable: every token key=value, each of the 14 fields set once with a valid value. It then returns the one status they denote; otherwise it returns -EINVAL and the caller's status. |
| PrepareStatus.AcceptsOneStatus | max9296Prepare.cpp:466-562 | A token list denotes at most one status. |
| PrepareStatus.OrderDoesNotMatter | max9296Prepare.cpp:466-562 | Permuting the tokens changes neither acceptance nor the status. |
| PrepareStatus.PrintedStatusReadsBack | max9296Prepare.cpp:466-562 | The canonical print of a status denotes that status and no other: for numbers in their C ranges, lease and match 0 or 1, and texts that are not empty and hold no blank. |
| PrepareStatus.NumbersExactOrRefused | max9296Prepare.cpp:82-122 | Decimal numbers of any size are read exactly up to 64 (32) bits and refused beyond. |
| PrepareStatus.LeadingZeros | max9296Prepare.cpp:82-122 | Leading zeros change no number, up to 31 characters in all; a longer text is refused. |
| PrepareStatus.OtherCharactersRefuse | max9296Prepare.cpp:82-122 | Any other character, and the empty text, is refused. |
| PrepareStatus.CodesExactOrRefused | max9296Prepare.cpp:82-122 | A code is read exactly in decimal and after 0x or 0X in hexadecimal of either case, up to its limit; other fields know no 0x. |
| PrepareStatus.FieldRanges | max9296Prepare.cpp:499-554 | Which values each kind of field takes: 64 bits, 32 bits, C int, 0 or 1, texts of 1 to 15 characters. |
| PrepareStatus.IntsExactOrRefused | max9296Prepare.cpp:124-150 | Signed numbers are read exactly within the C int range and refused outside it. |
| PrepareStatus.CodeParses | max9296Prepare.cpp:82-122 | The code field is read back from its 0x form. |
| PrepareStatus.StateParses | max9296Prepare.cpp:152-173 | A text is a state exactly when it is that state's name. |
| PrepareStatus.KeyIsFound | max9296Prepare.cpp:53-70 | A key is a field's exactly when it is that field's name in the line. |
| PrepareStatus.UnknownTokenIsSkipped | max9296Prepare.cpp:491-494 | A well-formed token with an unknown key changes nothing, wherever it stands. |
| PrepareStatus.BlanksSeparate | max9296Prepare.cpp:476-484 | Tokens are what stands between blanks, of any number and of all six kinds. |
| PrepareStatus.ReadFieldSetsOneField | max9296Prepare.cpp:499-554 | The switch fails exactly on values invalid for the field, and otherwise sets that field to the value and no other. |
| PrepareStatus.RepeatedRejects | max9296Prepare.cpp:495-496 | A field set twice makes every status unacceptable. |
| PrepareStatus.MissingRejects | max9296Prepare.cpp:557-559 | A field never set makes every status unacceptable. |
| PrepareStatus.InvalidRejects | max9296Prepare.cpp:553-554 | A value invalid for its field makes every status unacceptable. |
| PrepareStatus.MalformedRejects | max9296Prepare.cpp:485-489 | A token that is not key=value makes every status unacceptable. |
| PrepareStatus.SkipBlanks | max9296Prepare.cpp:476-479 | Skipping blanks leaves the token list as it is. |
| PrepareStatus.SkipWord | max9296Prepare.cpp:481-484 | The word skipped is the next token. |
| Prepare.BuildTargets | max9296Prepare.cpp:421-464 | Targets are built exactly for known resolutions, 0/1 switches, supported rates and one rate for two active domains; otherwise -EINVAL. |
| Prepare.BuildableIs | max9296Prepare.cpp:421-464 | The buildable requests on the input's numbers: generation, the three resolutions with their rate limits, switches, one rate when both domains are active. |
| Prepare.TargetDescribesChannels | max9296Prepare.cpp:441-457 | A target's activity, width, mode and table say which of its two channels are on. |
| Prepare.FingerprintIs | max9296Prepare.cpp:175-186 | On texts without NUL the fingerprint compares the whole configuration: mode, table, size, rate, switches, and code 0x2006. |
| Prepare.ClassifyRespectsLeases | max9296Prepare.cpp:583-623 | When each disposition and each error is given: refresh only for a current ready lease, reuse only for a current consumed domain, a new prepare only without a lease. |
| Prepare.ClassificationErrors | max9296Prepare.cpp:376-381 | The error a refused classification leaves, from state, lease and worker error. |
| Prepare.ValidatedMeansSettled | max9296Prepare.cpp:383-406 | Validation succeeds exactly on settled domains: state, lease, generation, non-zero epoch, match, errors and fingerprint; else it is negative. |
| Prepare.ValidationErrors | max9296Prepare.cpp:383-406 | The error of an unsettled domain: the driver's last error unless it was warm, or its worker's, or -ESTALE. |
| Prepare.CommandFits | max9296Prepare.cpp:341-352 | The prepare command always fits its 128-byte buffer, so the overflow branch is dead. |
| Prepare.CommandReadsBack | max9296Prepare.cpp:341-352 | The tokens of the command read back as 1, the generation, width, height, rate and switches, in this order. |
| Prepare.RetriedOnlyWithoutEffect | max9296Prepare.cpp:288-308 | A store is sent again exactly after a reply of -EAGAIN with the commit flag down, three times at most; on the replies alone. |
| Prepare.OnlyLastAttemptTakesEffect | max9296Prepare.cpp:288-308 | An attempt that raised the commit flag, whatever its result, or was written whole is the last of its run. |
| Prepare.WorkerAdvances | max9296Prepare.cpp:338-374 | One more attempt either ends a worker's run with its report filled in or leaves it running. |
| Prepare.Coordinator.WorkerStep | max9296Prepare.cpp:338-374 | One attempt of one worker keeps every worker's state and touches no other domain. |
| Prepare.Coordinator.RunWorkers | max9296Prepare.cpp:338-374 | Any interleaving of the running workers keeps every worker's state. |
| Prepare.Coordinator.ReadStatus | max9296Prepare.cpp:310-328 | The reads form one retried run; the result is its error, and the status shown is the one the text denotes. |
| Prepare.Coordinator.RetryCancel | max9296Prepare.cpp:288-308 | A cancel is one retried run of the text 0. |
| Prepare.Coordinator.StartWorkers | max9296Prepare.cpp:735-762 | Workers are created for wanted domains in order, up to the first refusal. |
| Prepare.Coordinator.JoinWorker | max9296Prepare.cpp:764-780 | A join ends only once the worker is done; any number of failing joins leaves the first error. |
| Prepare.Coordinator.JoinWorkers | max9296Prepare.cpp:764-792 | After the joins each report and each call made agree with the worker's progress, each error is exactly that of the store or the thread, and the global flag is set exactly on a thread fault. |
| Prepare.Coordinator.ReadAfter | max9296Prepare.cpp:794-814 | The second round sets errors, the first of them and the global flag exactly as the reads and validations ask. |
| Prepare.Coordinator.CheckEpochs | max9296Prepare.cpp:816-830 | Two domains not rejected with different non-zero epochs, and nothing else, fail the call. |
| Prepare.Coordinator.Rollback | max9296Prepare.cpp:838-852 | Exactly the owned leases due are cancelled, with the error recorded. |
| Prepare.Coordinator.ReadBefore | max9296Prepare.cpp:672-687 | Counts, first error and reports of the first round of reads. |
| Prepare.Coordinator.ClassifyAll | max9296Prepare.cpp:704-727 | Dispositions, reports and first error of the classification. |
| Prepare.FailureIsTrouble | max9296Prepare.cpp:794-830 | The global failure flag equals the trouble defined on log and report alone. |
| Prepare.FirstErrorMeans | max9296Prepare.cpp:790-832 | The remembered error is 0 exactly when there was no trouble and no refused store. |
| Prepare.ErrorsWithoutTrouble | max9296Prepare.cpp:786-814 | Without trouble a domain carries an error exactly when its store was refused. |
| Prepare.ErrorsOfTheReads | max9296Prepare.cpp:408-412 | The error of the call is the first in program order: of the threads, the stores, the second reads, the epochs; each domain's error is read off the log the same way, whatever else went wrong. |
| Prepare.DomainConclusion | max9296Prepare.cpp:832-858 | What a finished call leaves of a domain: ownership, its exact error and action, cancels sent exactly when due. |
| Prepare.Coordinator.PrepareAll | max9296Prepare.cpp:648-859 | For every driver behaviour, thread fault and interleaving the return value with its exact error, the report and the log satisfy the outcome specification, and the driver calls come in phase order. |
| Prepare.StoresNeedACleanStart | max9296Prepare.cpp:672-727 | If any prepare store was sent, every active domain had been read and classified without failure. |
| Prepare.OkMeansPrepared | max9296Prepare.cpp:794-858 | OK: every active domain prepared as asked, no error, no cancel, one shared epoch that is not 0. |
| Prepare.PartialIsolatesTheRefused | max9296Prepare.cpp:832-854 | PARTIAL: both domains active, one survivor prepared and keeping its lease, the other refused, alone with an error, its own lease cancelled. |
| Prepare.FailureReleasesLeases | max9296Prepare.cpp:832-854 | A negative return sent a cancel for every lease the call published and reports whether the driver took it. |
| Prepare.TakenStoreIsCancelled | max9296Prepare.cpp:838-852 | Read off the replies: a new prepare any attempt of which raised the commit flag or was written whole is sent a cancel run when the call fails, or its domain is the refused one. |
| Prepare.OwnershipIsReported | max9296Prepare.cpp:361-370 | The report says the call owns a lease exactly when its disposition is a new prepare and some attempt raised the flag or was written whole. |
| Prepare.RefusedStoreIsReported | max9296Prepare.cpp:361-370 | A last store not written whole leaves the driver's error, or -EIO, with its domain. |
| Prepare.StoresCarryTheRequest | max9296Prepare.cpp:338-374 | Every prepare store asks for its domain's target, in the call's generation or, for a refresh, in the one found. |
| Prepare.FirstThreadErrorIsReturned | max9296Prepare.cpp:735-858 | The first failing thread creation or join decides the return value. |
| Prepare.CancelsOnlyOwnLeases | max9296Prepare.cpp:838-852 | A cancel goes only to an active domain without a lease before, to whose new-prepare store the last reply raised the flag or took it whole. |
| Prepare.Coordinator.CancelDomain | max9296Prepare.cpp:861-886 | A later cancel is a no-op unless the lease is held; it keeps every lease's book. |
| Prepare.BooksAfterTheCall | max9296Prepare.cpp:861-886 | After OK and PARTIAL a delivered cancel is never followed by another; after a negative return this holds unless a domain without an error of its own was cancelled successfully. |
| Prepare.BookAfterCancel | max9296Prepare.cpp:861-886 | A later cancel extends the book: nothing follows a delivered cancel. |
| Prepare.HeldAfterItsCancel | max9296Prepare.cpp:861-886 | A concrete failed call, with its ordered log, after which a domain already cancelled still counts as held, so that cancel_domain would cancel it again. |
| PrepareStatus.PrintFits | max9296Prepare.cpp:313 | The print of any status fits the 1024-byte read buffer. |
| FrameAlign.PoppedIsTheIntersection | test/rtspFrameSyncClient.cpp:323-452 | Once a queue is empty, the groups popped since the last clear are exactly the ids every channel accepted and did not lose to the queue limit. |
| FrameAlign.WithoutLossesExactly | test/rtspFrameSyncClient.cpp:323-452 | Without losses they are the intersection of the accepted streams. |
| FrameAlign.BehindAHeadIsHopeless | test/rtspFrameSyncClient.cpp:293-316 | A frame behind another queue's head can never be matched. |
| FrameAlign.DropKeepsBooks | test/rtspFrameSyncClient.cpp:293-316 | An alignment drop keeps the invariant behind the intersection theorem. |
| FrameAlign.PopKeepsBooks | test/rtspFrameSyncClient.cpp:348-451 | A popped group keeps it and has the largest id so far. |
| FrameAlign.AcceptKeepsBooks | test/rtspFrameSyncClient.cpp:680-688 | So does an accepted frame. |
| FrameAlign.LoseKeepsBooks | test/rtspFrameSyncClient.cpp:690-694 | And a frame lost to the limit. |
| FrameAlign.HeadsAreLeastWaiting | test/rtspFrameSyncClient.cpp:278-321 | Equal heads are the least id waiting in all queues. |
| FrameAlign.Client.AlignFrontFrames | test/rtspFrameSyncClient.cpp:278-321 | Alignment succeeds exactly when some id waits in every queue, its heads are then the least such id, and no such id is dropped; otherwise a queue runs empty. It ends because each further pass removes a frame. |
| FrameAlign.OriginsAgree | test/rtspFrameSyncClient.cpp:358-372 | A group's frames match exactly when no two channels disagree about the origin timestamp. |
| FrameAlign.Client.PopFrames | test/rtspFrameSyncClient.cpp:348-451 | One group or one mismatch per set of heads, by equal origin timestamps. |
| FrameAlign.Client.ProcessGroups | test/rtspFrameSyncClient.cpp:323-452 | Outside a reconnect wait the popped ids are then the intersection of the streams; during it nothing changes. |
| FrameAlign.Client.AcceptFrame | test/rtspFrameSyncClient.cpp:609-696 | On the ids: after the first frame an id equal to the last adds one duplicate and a smaller one adds one backward id, and nothing else changes; every other frame is accepted and counted, only a queue at its limit loses its oldest frame, other channels only lose heads, and all groups are formed. |
| FrameAlign.Client.EnforceLimit | test/rtspFrameSyncClient.cpp:690-694 | The oldest frames over the limit are lost and counted as drops, the rest of the queue stays; below the limit nothing is lost. |
| FrameAlign.Client.Count | test/rtspFrameSyncClient.cpp:641-681 | The accepted frame's counters: skipped ids count as a gap or, on the first frame after a reconnect, apart. |
| FrameAlign.SoundAfterAccept | test/rtspFrameSyncClient.cpp:641-688 | Accepting keeps last - first + 1 equal to frames, gaps and reconnect-skipped ids. |
| FrameAlign.GoodAfterDrop | test/rtspFrameSyncClient.cpp:293-316 | A drop keeps all accounting and what waits in every queue. |
| FrameAlign.GoodAfterPop | test/rtspFrameSyncClient.cpp:348-451 | A group keeps all accounting and the increasing ids of the whole run. |
| FrameAlign.GoodAfterClear | test/rtspFrameSyncClient.cpp:194-201 | Clearing the queues keeps the accounting and starts a new epoch above all groups before. |
| FrameAlign.Client.ClearQueues | test/rtspFrameSyncClient.cpp:194-201 | Every queue is emptied and the epoch's groups join the run's. |
| FrameAlign.Client.BeginDisconnect | test/rtspFrameSyncClient.cpp:502-514 | A disconnect starts a new epoch with empty queues while attempts are left. |
| FrameAlign.Client.FinishDisconnect | test/rtspFrameSyncClient.cpp:518-521 | The second section clears again and marks the channel. |
| FrameAlign.Client.Reconnect | test/rtspFrameSyncClient.cpp:480-485 | Grouping may go on. |
| SeiCodec.UnescapeUndoesEscape | test/rtspValidation.cpp:36-58 | Removing emulation prevention undoes inserting it. |
| SeiCodec.EscapeUndoesUnescape | test/rtspValidation.cpp:36-58 | Escaping undoes unescaping exactly on byte strings free of start-code prefixes. |
| SeiCodec.EscapedIsClean | test/rtspValidation.cpp:36-58 | An escaped payload contains no start-code prefix. |
| SeiCodec.UnescapedBytes | test/rtspValidation.cpp:36-58 | By the bytes: only a 3 after two zeros is left out, and refused where nothing or a byte above 3 follows. |
| SeiCodec.UnescapeRbsp | test/rtspValidation.cpp:36-58 | The loop computes the unescaped payload or fails. |
| SeiCodec.FfRoundTrip | test/rtspValidation.cpp:60-80 | An FF-coded value is read back anywhere, up to the unsigned limit. |
| SeiCodec.ParseFfValue | test/rtspValidation.cpp:60-80 | The loop reads the value and the next offset, refusing overflow and a missing end. |
| SeiCodec.PayloadMeaning | rtspServerBin.cpp:262-279 | The server's payload means its record for its channel. |
| SeiCodec.BigEndianRoundTrip | rtspServerBin.cpp:268-271 | Eight big-endian bytes are read back. |
| SeiCodec.TrailingBitsValid | test/rtspValidation.cpp:82-93 | The trailing bits are one stop bit and zeros. |
| SeiCodec.ParseSeiRbsp | test/rtspValidation.cpp:95-170 | The loop's status and record; a record only with OK. |
| SeiCodec.SeiRoundTrip | test/rtspValidation.cpp:95-170 | The verdict on an encoded list of SEI messages is the list's verdict, wherever it stands. |
| SeiCodec.MeaningIs | test/rtspValidation.cpp:107-163 | On the payload bytes: which messages are skipped and which carry a record for the channel. |
| SeiCodec.OkMeansOneRecord | test/rtspValidation.cpp:95-170 | OK exactly for lists with one message whose bytes are a frame-id record for the channel, all others of another kind or another user-data owner, and none of kind 128. |
| SeiCodec.OkBytesCarryOneRecord | test/rtspValidation.cpp:95-170 | The bytes a record is taken from are exactly the encodings of such a list. |
| SeiCodec.Kind128NeverParses | test/rtspValidation.cpp:107-114 | A message of kind 128 is taken for trailing bits: such an SEI never parses. |
| SeiCodec.FindStartCode | test/rtspValidation.cpp:11-34 | The first start code of 3 or 4 bytes from a position on. |
| SeiCodec.SplitUndoesFrame | test/rtspValidation.cpp:220-300 | Splitting at start codes undoes framing with 3- or 4-byte codes. |
| SeiCodec.NoCodeInside | test/rtspValidation.cpp:11-34 | No start code is read inside a framable NAL unit. |
| SeiCodec.ParseNal | test/rtspValidation.cpp:249-285 | What one NAL unit tells the parser. |
| SeiCodec.ParseAu | test/rtspValidation.cpp:220-305 | The parser's status and record; the caller's record changes only with OK. |
| SeiCodec.AuRoundTrip | test/rtspValidation.cpp:220-305 | An access unit with one SEI among coded slices and SEI units without a record, however framed, gets the verdict on its messages. |
| SeiCodec.UserDataStatus | test/rtspValidation.cpp:124-163 | Every outcome of one message of registered user data from its bytes, anywhere in an access unit among messages and NAL units without interest. |
| SeiCodec.FrameIdRoundTrip | test/rtspValidation.cpp:220-305 | The server's record, between any messages of other kinds and any NAL units without a record, is what the parser returns, for every channel, frame id and timestamp. |
| SeiCodec.OtherChannelRefused | test/rtspValidation.cpp:154-157 | Read for any other channel, the same access unit is refused as the wrong channel. |
| SeiCodec.NothingOfInterest | test/rtspValidation.cpp:220-305 | Coded slices, other NAL units and SEI messages of other kinds alone: not found with coded video, not a frame without. |
| SeiCodec.RecordNeedsVideo | test/rtspValidation.cpp:296-297 | A record without coded video is malformed. |
| SeiCodec.SecondRecordRefused | test/rtspValidation.cpp:278-284 | A record in each of two SEI units is malformed. |
| Aes.InvCipherUndoesCipher | aes.cpp:197-225 | The inverse cipher undoes the cipher for every state, key schedule and number of rounds. |
| Aes.Cipher | aes.cpp:197-210 | The in-place rounds compute the cipher of the block. |
| Aes.InvCipher | aes.cpp:212-225 | The in-place inverse rounds compute the inverse cipher. |
| Aes.KeyExpansion | aes.cpp:74-101 | The expanded key is the key schedule for all three key sizes. |
| Aes.ExpandedKeyWord | aes.cpp:74-101 | Word by word the schedule is the recurrence of section 5.2 of FIPS 197. |
| Aes.ScheduleBytes | aes.cpp:74-101 | Byte by byte as well, with the rotation and the round constant written out. |
| Aes.RoundKeyColumn | aes.cpp:103-107 | Section 5.1.4: round r adds word 4r + i of the key to column i. |
| Aes.CipherByColumns | aes.cpp:197-210 | The cipher of each key size is 10, 12 or 14 rounds whose columns come from four substituted bytes at fixed places, the column matrix (but for the last round) and one key word each. |
| Aes.RconIsPower | aes.cpp:74-101 | The round constants are the powers of x. |
| Aes.MultiplyIsProduct | aes.cpp:151-157 | Multiply is the product in GF(2^8) for the factors it is used with. |
| Aes.FastColumn | aes.cpp:140-149 | The four-XOR column mix is the matrix product of FIPS 197. |
| Aes.MixColumns | aes.cpp:140-149 | All columns are mixed in place. |
| Aes.InvMixColumns | aes.cpp:159-171 | All columns are unmixed in place. |
| Aes.ShiftRows | aes.cpp:113-122 | The rows are rotated in place. |
| Aes.InvShiftRows | aes.cpp:125-134 | And rotated back. |
| Aes.SubBytes | aes.cpp:109-111 | Every byte goes through the S-box. |
| Aes.InvSubBytes | aes.cpp:173-195 | Every byte goes through the inverse S-box. |
| Aes.AddRoundKey | aes.cpp:103-107 | A round key is added. |
| AesSBox.SBoxIsAffineOfInverse | aes.cpp:46-66 | Every entry of the S-box is the affine image of the inverse in GF(2^8), as section 5.1.1 of FIPS 197 defines it. |
| AesTables.TablesInvert | aes.cpp:46-71 | The two S-box tables are inverse to each other. |
| AesColumns.InvMixUndoesMix | aes.cpp:159-171 | The inverse column matrix undoes the column matrix. |
| Passwd.WrittenPasswordReadBack | aes.cpp:260-303 | A password written is read back up to its first dot, hence unchanged exactly when it has none. |
| Passwd.EmptyPasswordUnreadable | aes.cpp:306-411 | An empty password makes an empty file, which cannot be read. |
| Passwd.PadPassword | aes.cpp:329-337 | The padding loop fills the password with dots to a multiple of sixteen. |
| Passwd.ChangePassword | aes.cpp:389-397 | What is written to the file. |
| Passwd.ShortFileIsReadable | aes.cpp:279-297 | The text search ends within the buffer for every file that does not fill it. |
| Passwd.GetPassword | aes.cpp:280-297 | What is read from a file of any length whose decrypted first 1024 bytes hold a 0 or a dot, as those of every shorter file do. |
| MediaGate.EveryOfferHasItsKeyframe | rtspServerBin.cpp:1846-1873 | Every sample offered to an appsrc comes with its keyframe and everything in between. |
| MediaGate.RunsExtend | rtspServerBin.cpp:1846-1873 | A keyframe or the next sample extends the runs of an appsrc. |
| MediaGate.GatedAfterGate | rtspServerBin.cpp:1846-1873 | What the gate admits next starts or continues a run, under every flag combination. |
| MediaGate.GatedAfterPublish | rtspServerBin.cpp:1696-1713 | A newly published appsrc waits for a keyframe. |
| MediaGate.GatedAfterPush | rtspServerBin.cpp:1897-2037 | The push keeps the runs, though other steps came between gate and push. |
| MediaGate.NewPublication | rtspServerBin.cpp:1696-1713 | A publication keeps the pairing of generations and appsrcs. |
| MediaGate.Channel.Publish | rtspServerBin.cpp:1696-1713 | Appsrc and generation appear together, the full flag is down, video waits for a keyframe. |
| MediaGate.Channel.DetachStale | rtspServerBin.cpp:1611-1620 | A media without an appsrc detaches the old one. |
| MediaGate.Channel.Unprepared | rtspServerBin.cpp:1509-1520 | An unprepared media, published or not, detaches the channel's appsrc exactly when its generation is the current one; the comparison by element never decides. |
| MediaGate.Channel.EnoughData | rtspServerBin.cpp:1179-1194 | Only the current active generation raises the full flag. |
| MediaGate.Channel.NeedData | rtspServerBin.cpp:1234-1259 | Only it lowers the flag, asking for a keyframe if one is awaited. |
| MediaGate.Channel.Gate | rtspServerBin.cpp:1846-1873 | Dropped exactly while full or waiting without a keyframe; dropping while full arms the wait. |
| MediaGate.Channel.Push | rtspServerBin.cpp:1897-2037 | The sample goes to the appsrc of its snapshot unless interrupted. |
| Capture.IndicesCountUp | captureBin.cpp:586-642 | Tasks of one request are indexed 0, 1, 2, ... in one block. |
| Capture.TasksWithinQuota | captureBin.cpp:586-658 | No request gets more tasks than it asked for. |
| Capture.WrittenWithinQuota | captureBin.cpp:284-287 | The written count never exceeds the request's queued tasks nor its quota. |
| Capture.OrderAfterPush | captureBin.cpp:632-658 | A new task goes on its request's block. |
| Capture.CountedAfterWrite | captureBin.cpp:284-287 | A written frame is counted once. |
| Capture.AnsweredOnce | captureBin.cpp:288-310 | Winning the answer and scheduling the callback keeps one callback per request, with a count it can have. |
| Capture.AnsweredNew | captureBin.cpp:1086-1095 | A request whose answer the timeout just won has no callback yet. |
| Capture.Engine.AddRequest | captureBin.cpp:974-1034 | A request joins the line and the valve opens. |
| Capture.Engine.BeginSample | captureBin.cpp:584-619 | Which sample is admitted, exactly: a request and a queue length, less the waiting worker, within the limit. |
| Capture.Engine.FinishSample | captureBin.cpp:619-668 | The task is queued; the queue exceeds limit + 1 exactly when it held limit + 1, and then the worker was counted as waiting. |
| Capture.SleepingWorkerOverfills | captureBin.cpp:613-614 | A run in which the queue reaches limit + 2. |
| Capture.Engine.WorkerPop | captureBin.cpp:166-170 | Tasks are taken in order. |
| Capture.Engine.WorkerSkips | captureBin.cpp:172-177 | A timed-out task only releases its sample. |
| Capture.Engine.WorkerWrites | captureBin.cpp:284-287 | The written count goes up by one. |
| Capture.Engine.WorkerFinishes | captureBin.cpp:288-343 | The last frame answers the request unless it was answered, and the sample is released. |
| Capture.ExpiredIs | captureBin.cpp:1072-1084 | When a request has expired, on the clock: exactly when 1000 * (timeout + 1) microseconds have passed since its start; the case of a clock before the start is stated too. |
| Capture.Engine.TimeoutCurrent | captureBin.cpp:1072-1084 | On the clock: the current request is marked exactly when 1000 * (timeout + 1) microseconds passed since its start. |
| Capture.Engine.TimeoutClaims | captureBin.cpp:1086-1090 | The timeout answers only if the worker did not. |
| Capture.Engine.TimeoutReports | captureBin.cpp:1088-1105 | The callback carries what is written by then. |
| Capture.Engine.TimeoutPending | captureBin.cpp:1111-1150 | The line keeps exactly its unexpired requests, on the clock's numbers, in order; every expired one is marked, and answered with 0, in order, where nobody had answered it; all other requests are unchanged. |
| Capture.UnexpiredAre | captureBin.cpp:1111-1150 | What stays in line are exactly the requests of the line that have not run out of time. |
| Capture.Engine.StopCloses | captureBin.cpp:1180-1184 | The valve closes before the lock is taken. |
| Capture.Engine.StopClears | captureBin.cpp:1186-1196 | No request is left. |
| Capture.Engine.Drain | captureBin.cpp:849-855 | After the drain every sample pulled has been released, each once. |
| Capture.PlacedAfterPop | captureBin.cpp:166-170 | Each sample is in one place only: in hand, queued, with the worker, or released. |
| Telemetry.ResetKeepsHigh | encoderStat.cpp:58-60 | A resetting snapshot loses nothing: the maximum over all taken values and the cell stays. |
| Telemetry.QuiescentIsExact | encoderStat.cpp:23-48 | With no recorder at work that maximum is exactly the largest recording (or 0). |
| Telemetry.SoundAfterStep | encoderStat.cpp:23-48 | A step of one recorder keeps what all recorders rely on. |
| Telemetry.Watermark.TryRaise | encoderStat.cpp:27-32 | A recorder that is done is covered, the maximum never falls, and only a recorded gap is stored. |
| Telemetry.Watermark.Snapshot | encoderStat.cpp:50-66 | The value taken, and the unchanged maximum. |
| Telemetry.Watermark.Begin | encoderStat.cpp:23-26 | Every recording is counted. |
| EventPool.Pool.Take | main.cpp:371-379 | A slot is found exactly when one is free. |
| EventPool.Pool.Push | main.cpp:381-386 | The event joins the handed-over events, its slot queued once. |
| EventPool.Pool.Pop | main.cpp:151-161 | Items are taken in order; the mark ends the worker. |
| EventPool.Pool.Release | main.cpp:163-173 | The event handled is the oldest handed over, and its slot is free again. |
| EventPool.Pool.Join | main.cpp:187-202 | When stop returns every event handed over was handled in order and every slot is free. |
| EventPool.WaitingsPush | main.cpp:381-386 | A queued item waits behind all others. |
| SplitSchedule.SignedIsCircular | main.cpp:497-499 | The signed drift lies in (-30000, 30000], leads from the target second to the position, and no shorter way does. |
| SplitSchedule.DiffIsFolded | main.cpp:532-539 | The folded difference lies within half an hour, is the plain one where that does, and leads back to the target minute and second. |
| SplitSchedule.JustBefore | main.cpp:661-672 | A position is graced exactly when the target second lies at most two seconds ahead. |
| SplitSchedule.AfterSplit | main.cpp:630-638 | A split takes position and running time from every live channel, and changes no other. |
| SplitSchedule.Measure | main.cpp:541-605 | Aligned exactly when every counted channel is near the target second and no two are too far apart, by running times if all are fresh. |
| SplitSchedule.HasGrace | main.cpp:661-672 | A forced split waits exactly while some channel is just before the target second. |
| SplitSchedule.Scheduler.Start | main.cpp:513-530 | The first tick with all channels started sets the first target. |
| SplitSchedule.Scheduler.SplitCheck | main.cpp:501-730 | Which round a tick decides, the next target, the announced epoch, and the order of rounds; within 5 s of the last round a due split is forced exactly in another minute. |
| SplitSchedule.InitialSplitOnce | main.cpp:627-652 | The start-up split happens at most once and never after a forced round. |
| SplitSchedule.ForcedRoundsApart | main.cpp:674-682 | Forced rounds with only rounds of the same minute in between are at least 5 s apart. |
| SplitSchedule.ClockJumpsBringForcedRoundsTogether | main.cpp:674-682 | Across jumps of the wall clock they are not. |
| Naming.NamedNearNow | muxSinkBin.cpp:586-598 | The naming epoch is within half a session of now exactly for targets from half a session back to one and a half ahead; without a target it is the next second. |
| Naming.StemCache.Enter | muxSinkBin.cpp:600-624 | A caller gets the stem of its epoch whenever that can be formatted, and the marker if it is the first. |
| Naming.OneClaimPerRun | muxSinkBin.cpp:617-621 | Exactly one caller claims the marker in every maximal run of equal epochs. |
| Naming.UnformattableEpochsDiffer | muxSinkBin.cpp:601-611 | Where an epoch cannot be formatted (glib refuses local dates past the year 9999), two callers with another epoch between them each get their own fallback. |
| RtpUnwrap.ForwardStep | rtspServerBin.cpp:838-841 | A forward step is counted right exactly when it does not wrap or is at most half a turn. |
| RtpUnwrap.ExactStep | rtspServerBin.cpp:838-899 | A steady step keeps the count exact and the delta sum telescoping. |
| RtpUnwrap.CountedConserves | rtspServerBin.cpp:842-899 | On any stream the deltas add up to the span exactly while no timestamp went backwards, and exceed it after. |
| RtpUnwrap.Trace.Process | rtspServerBin.cpp:813-901 | A steady stream is counted exactly across any number of wraps, and measured until the first packet a full duration behind the first; on any stream deltas and span stay balanced. |
| Generation.CancelledForGood | rtspSync.cpp:46-68 | After deactivate set the cancelled flag no is_active answers true, in any interleaving. |
| Generation.ActiveFlagCanRiseAgain | rtspSync.cpp:46-59 | The active flag alone can rise again after a deactivate. |
| Generation.DestroyedOnce | rtspSync.cpp:27-44 | The payload is destroyed exactly once, with the last reference. |
| Generation.Wait | rtspSync.cpp:80-106 | True only at the overflow-saturated deadline with every question answered yes; false only for bad arguments or after a no. |

## Left out

- Prepare.Coordinator.JoinWorker: does not model that a join may never succeed; the number of
  failing joins is finite but arbitrary.
- Null pointers, the choice of the I/O table, sleeping between attempts, elapsed times, the owner
  lock and generate_generation of the prepare code.
- Narrowing of the driver's ssize_t results to int in the prepare code.
- The report a prepare worker writes is filled in with its last attempt; no other thread uses it
  before the join.
- FrameAlign: per-epoch copies of the counters, receive and timestamp spreads, stall recovery,
  groups after a gap, and the counts of missing or invalid SEI.
- SeiCodec: rtsp_h265_au_contains_idr and the success predicates, which are one pass or one line;
  how the H.265 library places the SEI in the access unit (any place is proved).
- Passwd.GetPassword: a file of 1024 bytes or more whose decrypted first 1024 bytes hold neither a
  0 nor a dot is not modelled, because C leaves open what the string functions then read.
- Passwd: file operations, and the comparison with the current password.
- MediaGate: reference counts, caps, keyframe request throttling, tracing hooks, and failed buffer
  copies (buffer copies are taken to succeed).  A published appsrc is taken to be a new element.
- Capture: buffered feeding of PNG captures, cached instant frames, file paths and encoding, and a
  change of the queue limit while running.
- Telemetry.Watermark.Snapshot: the level watermark and the counters of the snapshot are not part of
  it: the level is the same protocol without resets, the counters are plain loads.
- Telemetry: the plain fetch-and-add counters other than the frame count; lock-freedom.
- SplitSchedule: carrying out a split, forcing keyframes, and narrowing of a running-time skew of
  more than 24 days to a C int.
- Naming: the file path and its fallback, per-channel timestamps, writing the marker files.
- RtpUnwrap: hashes and delta extremes of the trace; wrap of the 64-bit count.
- GStreamer wiring, sysfs, sockets, option parsing, logging, the health producer and the shutdown
  sequence: calls into code that cannot be seen, or single checks.
