# A verified model of opq's core

opq keeps secrets in a keyring, injects them into subprocesses, and keeps their bytes out of what
an AI client reads back. This project models the parts of it where a fast or fault-tolerant form
has to agree with a simple one, and proves that it does.

| File | Models |
|---|---|
| `ByteStrings.dfy` | bytes, byte strings, concatenation |
| `Redaction.dfy` | the redactor on values: one scan, the stream cut into writes, the trace of what was emitted |
| `RedactedText.dfy` | what the redacted stream reads like, byte for byte |
| `ScratchArrays.dfy` | byte arrays that are reused, grown and wiped |
| `Registration.dfy` | preparing the patterns: de-duplication, one array for each form, the first-byte index |
| `CappedOutput.dfy` | the output cap as a class, and the redactor-to-cap pipeline on values |
| `RedactingWriter.dfy` | the redactor as a class over real arrays, proved equal to the pipeline on values |
| `OutputPipeline.dfy` | the pair of redactors of one run, from preparing the secrets to wiping everything |
| `SecretPolicy.dfy` | keys, policy records, the keyring as a class, each operation as a sequence of backend calls |
| `PolicyMachine.dfy` | many processes running those calls, with crashes and backend failures between any two |
| `AuditLines.dfy` | splitting log bytes into records, and the block-wise backward tail reader |
| `AuditLog.dfy` | the shared log: inodes, two paths, cached descriptors, mutex, per-descriptor lock |
| `AuditProgress.dfy` | that the log's mutexes and locks are given back and no run ends in a deadlock |
| `AuditWriter.dfy` | one process's append as a class, and that it is what the shared log's steps amount to |
| `AuditMessage.dfy` | the run summary and the filter that decides what the AI may read of it |
| `JsonKeys.dfy` | the duplicate-key checker over a JSON token stream |

`dafny verify dfyconfig.toml` checks everything.

## How to read it

**Redaction.** The output is a trace of `Raw(pos, byte)` and `Token(pos, form)` items, with
positions in the whole input, so "emitted verbatim" speaks about input bytes and not about bytes
that occur in a token's text. `Scan` is the two-cursor scan, `Run` one write per chunk, `Redact`
those writes and a flush, `Whole` one finalizing scan, and `Declaration` an independent reading
position by position: a token for the longest form occurring there, nothing when an earlier
occurrence reaches past it, else the byte.

Cutting the input can change the output: the exact-match branch comes before the partial-prefix
check, so with the forms AB and ABCDE a write that ends after AB settles on AB. That is kept as
the code has it; `ChunkIndependenceExactly` says for which sets of forms it cannot happen, and
`FirstByteWithheld`, `Conservation` and `ChunkingWithholdsNoMore` what holds regardless.

The class refines this with arrays: `RedactingWriter.Write` takes the ghost `State()` exactly to
`PipeWrite` of the old one and keeps the three scratch arrays apart and clean. The patterns' bytes
live in arrays too (`values`), shared by the writers that use them and read by every scan; the last
user wipes them. Abandoned arrays are accounted for without exception: each method says of *every*
byte array allocated during the call (`fresh(x)`) that it is one of those in use or holds nothing
but zeros, and a writer's `retired` collects all scratch arrays it ever let go of, which stay zero.
Downstream failures are parameters (`Reply`).

**Policy.** Each backend call of an operation is one `Advance`; the class methods follow the
source statement by statement and are proved equal to running those steps. A call may fail before
its effect or report an error after it. In the machine, locks follow flock: reads and dry runs
share, everything else excludes, a crash drops the lock. A value carries the generation of the set
that wrote it, so "under its own policy" can be said.

**Audit log.** Each system call is a step of a thread; threads of one process share a mutex, a
cached log descriptor and a lock descriptor, each reader opens a lock descriptor of its own. Any
step may fail, and an opened file may turn out unusable after it was created (`HalfOpen`). The
append history is a ghost against which the files are measured.

## Where code and documentation differ

- `docs/src/security/ttl-revocation.md:70` says that `cmd_prune.go` enumerates the policy items;
  `cmd_prune.go:37-44` skips them and goes over value keys only. The model follows the code, so an
  expired policy item without a value is not visited by a sweep: `LapsedItemStays` gives such a store,
  `LapsedItemGoesExactly` says for all of them that a lapsed item goes if and only if a value is listed
  with it.
- `audit.go:409-412` says the log files are capped at the rotation threshold. The size is looked at
  before an append, so a file can exceed the threshold: `OvershootsExactly` says for which appends it
  does. `FilesStayBounded` proves the bound that does hold, the threshold less one plus the longest
  line, and when the read cap is therefore never met; `BoundIsReached` shows it attained for every
  threshold of 3 or more.
- `examples/policy-proxy/main.go:61` asks for an unambiguous file and lower-cases keys to compare them.
  The standard decoder folds case, by which a long s (U+017F) equals an s, while lower-casing keeps the
  two apart: `LongSIsAccepted`. `AcceptanceCoversExactly` says for which pairs of lower-casing and
  folding acceptance does exclude two keys that the reader takes for one.

## Model

| member | source | states |
|---|---|---|
| Redaction.Best | redact.go:262-272 | the match at a position is a registered form the tail starts with and no registered form it starts with is longer; no match means none starts there |
| Redaction.ScanKeepsWhole | redact.go:249-305 | one scan never cuts an occurrence inside its buffer: all its bytes are withheld or it is held over whole |
| Redaction.ScannedOccurrenceWithheld | redact.go:159-305 | for any forms and chunks, an occurrence that lies inside the buffer of some write, held-over bytes included, has every one of its bytes withheld from everything that the writes and the flush emit |
| Redaction.HoldoverIsPartial | redact.go:290-299 | after any writes the holdover is a suffix of the input, a proper prefix of some form and shorter than it, and no form matches at its start |
| Redaction.FirstByteWithheld | redact.go:159-305 | for all forms and all chunkings the first byte of every occurrence in the whole input is never emitted verbatim |
| RedactedText.OutputSpellsNoForm | redact.go:159-305 | for all forms and all chunkings, no stretch of consecutive emitted input bytes spells a form |
| RedactedText.TokenHidesOccurrence | redact.go:254-289 | for all chunkings, where a token is emitted nothing of the occurrence it stands for is |
| RedactedText.OneOccurrenceRenders | redact.go:273-276 | one occurrence between clean texts comes out as the literal bytes of [REDACTED:name] between them, however the input is cut |
| Redaction.WithheldIsOccurrence | redact.go:159-305 | a byte that is not emitted lies inside a real occurrence |
| Redaction.Conservation | redact.go:159-227 | after writes and a flush, items stand at increasing positions, raw items carry the input's own byte, tokens stand for real occurrences, and every other byte lies inside an occurrence |
| Redaction.CleanInputReproduced | redact.go:159-227 | input in which no form occurs comes out byte for byte, however it is cut |
| Redaction.LongestIsUnique | redact.go:75-85 | after de-duplication there is one longest form at a position, so the token's name is determined |
| Redaction.WholeIsDeclarative | redact.go:257-305 | the two-cursor finalizing scan equals the position-by-position declaration |
| Redaction.WholeRawIsClear | redact.go:257-305 | a byte that a whole scan emits lies in no occurrence |
| Redaction.ChunkingWithholdsNoMore | redact.go:159-227 | no cutting of the input withholds a byte that one scan of the whole input emits |
| Redaction.ApartImpliesIndependent | redact.go:159-305 | if no form is a proper prefix of another and none overlaps into another, every chunking gives the trace of the whole scan |
| Redaction.PrefixBreaks | redact.go:273-299 | a form that properly extends another breaks chunk independence |
| Redaction.CutInsideLongForm | redact.go:273-299 | with forms AB and ABCDE, writing AB and CDE gives the short token first, the whole scan the long one, and the rendered bytes differ |
| Redaction.OverlapBreaks | redact.go:284-299 | a form whose proper suffix begins another breaks chunk independence |
| Redaction.ChunkIndependenceExactly | redact.go:159-305 | every chunking agrees with the whole scan if and only if the forms are prefix-free and overlap-free |
| CappedOutput.CappedWriter.constructor | mcp_output.go:22-24 | nothing captured, the limit remaining, not truncated |
| CappedOutput.CappedWriter.Write | mcp_output.go:26-47 | new state and answer for every room left and every answer from below; with nothing failing all of p is reported, a failure exactly if there was room; captured and room keep their sum |
| CappedOutput.CapAnswer | mcp_output.go:26-47 | what is captured is the next bytes of p within the room, nothing once full; the flag goes up exactly when p does not fit; the count reported in each case |
| CappedOutput.CapStep | mcp_output.go:26-47 | over an in-memory buffer the state after any bytes is their first limit bytes, with truncated meaning there were more |
| CappedOutput.PipeMirrors | redact.go:171-184 | redacting or passing through, the cap is in the state the full redacted stream so far puts it in |
| CappedOutput.StopsRedactingExactly | redact.go:171-184 | redacting stops with the first write that finds the cap dropping, if the redactor asks, and not before; the holdover is given up with it |
| CappedOutput.TakenInFull | redact.go:159-206 | without a failure below every write is answered with all of p and no error, whether redacting, passing through or without forms |
| CappedOutput.FailureReported | redact.go:197-205 | while redacting, an error is answered exactly if bytes were handed down and the cap had room; all of p counts as taken and the stream goes on from there |
| CappedOutput.CapturedIsPrefixOfRedacted | mcp_run.go:276-286 | with or without the short-circuit the captured bytes are exactly the first limit bytes of the full redacted stream and truncated says exactly that there were more |
| Registration.DistinctRegisters | redact.go:71-93 | de-duplication keeps one form for each value and loses no value |
| Registration.IndexFindsBest | redact.go:262-299 | looking only at forms with the tail's first byte finds the same longest match and the same partial match |
| Registration.Register | redact.go:71-93 | the forms held are exactly the secrets' listed values, each once and under the name of the first secret that lists it; index and longest length agree with them; every other array allocated is zero |
| Registration.AllFormsStandFor | redact.go:71-91 | every value of every secret is registered, nothing else is, and a value listed twice keeps the first name |
| Registration.RegisterForm | redact.go:72-92 | a form with new bytes is added to list and index; a duplicate is wiped and nothing else changes |
| ScratchArrays.Resize | redact.go:308-314 | the array kept has room and its bytes; an array too small is zeroed before it is let go |
| ScratchArrays.AppendOutput | redact.go:316-324 | the bytes so far and the new ones; every array allocated on the way other than the result, and the old one if replaced, is zero |
| ScratchArrays.AppendToken | redact.go:273-276 | the token's three pieces appended; whatever the three growths allocated, only the result is left unwiped |
| RedactingWriterModel.LongestCandidate | redact.go:262-272 | the loop finds the longest match's length and name |
| RedactingWriterModel.AnyPartial | redact.go:292-299 | the loop finds whether the tail could become a form |
| RedactingWriterModel.RedactingWriter.constructor | redact.go:65-95 | a fresh stream, disjoint clean scratch, one reference to the patterns |
| RedactingWriterModel.RedactingWriter.Second | redact.go:100-109 | shares forms and pattern arrays and adds a reference; its scratch is its own; the first writer stays ready |
| RedactingWriterModel.RedactingWriter.ScanLoop | redact.go:257-305 | the loop over arrays appends exactly the text of the scan on values and stops where it does; every array allocated in any turn other than the result is zero |
| RedactingWriterModel.RedactingWriter.ScanBuffer | redact.go:257-305 | output, stop and holdover are those of the scan on values; every array replaced or allocated on the way, but for the two results, is zero |
| RedactingWriterModel.RedactingWriter.Write | redact.go:159-206 | new stream, pass-through flag, cap state and answer are the pipeline's, and with nothing failing below all of p is reported; the heap invariant holds again, whatever failed; every array allocated meanwhile, and every one held before, is in use or retired, and the retired ones are zero |
| RedactingWriterModel.RedactingWriter.Flush | redact.go:211-227 | the rest of the stream is emitted, the holdover is empty, the heap invariant holds again, and every array allocated or held before is in use or retired and zero |
| RedactingWriterModel.RedactingWriter.Destroy | redact.go:231-247 | forms and scratch are given up, the old arrays zeroed and retired; one user less of the patterns, whose arrays are untouched while users remain and zeroed with the last |
| RedactingWriterModel.Patterns.Leave | redact.go:234-240 | the reference count is the number of users left; the pattern arrays are unchanged if there are any, zero if not |
| OutputPipeline.NewPair | redact.go:100-109 | two ready writers over the same pattern arrays, with disjoint scratch, two references and no other user |
| OutputPipeline.DestroyFirst | redact.go:229-247 | after one Destroy the other writer is ready, alone with the patterns, and their bytes are unchanged |
| OutputPipeline.DestroyPair | redact.go:229-247 | in between the survivor redacts as before; after the second Destroy the patterns and everything either writer ever held are zero |
| OutputPipeline.RunPipeline | mcp_run.go:276-288 | for any secrets, limit and interleaving of writes to the two streams, what is captured of each is the first limit bytes of its redacted stream: said of the secrets alone, the first byte of no listed value passes, tokens carry the right name, and nothing but listed values is withheld; afterwards every byte array allocated during the run is zero |
| OutputPipeline.RedactsNamed | redact.go:61-95 | redacting with the forms that stand for the secrets has these properties for every stream and chunking |
| OutputPipeline.SentInOrder | mcp_run.go:306-307 | what one stream is sent is its chunks, all of them and in order |
| SecretPolicy.MetaKeysApart | policy.go:29-38 | no valid name is a policy key, policy keys are injective in the name and decode to it |
| SecretPolicy.FilterVisibleSecretNames | policy.go:353-362 | the names left are the keys that are not policy keys, in order |
| SecretPolicy.VisibleInOrder | policy.go:353-362 | they stand at increasing positions, which are all those without the prefix |
| SecretPolicy.PruneNames | cmd_prune.go:36-47 | each listed value key once, no policy key |
| SecretPolicy.Keyring.Set | backend.go:76-101 | takes effect and succeeds, fails without effect, or takes effect and reports an error |
| SecretPolicy.Keyring.Delete | backend.go:103-114 | the same for removal, with missing keys reported as such |
| SecretPolicy.Keyring.LoadMeta | policy.go:74-91 | absent, readable of version 1 or 2, or an error |
| SecretPolicy.FaultsExactly | backend.go:76-114 | a failing call does nothing, or everything and still reports an error; a missing key is reported as such |
| SecretPolicy.VersionsReadable | policy.go:74-91 | exactly the records of version 1 and 2 are read, no item is no policy, anything else is an error |
| SecretPolicy.StoreOutcome | policy.go:242-263 | a set succeeds exactly if no call went wrong, and then value and policy are in place; otherwise the store is as before, as after a success, or blocked by the marker |
| SecretPolicy.DeleteOutcome | policy.go:265-281 | the exact condition of each answer under every pattern of failures; success leaves neither item, and a value that stays keeps its policy item |
| SecretPolicy.RevokeOutcome | policy.go:292-322 | the exact condition of each answer under every pattern of failures; success leaves no value and the tombstone; with neither value nor readable policy nothing changes |
| SecretPolicy.ResolveOutcome | policy.go:124-163 | the answer for every store, clock and pattern of failures: unknown name, unreadable, pending, revoked, expired at either check, no value, or the value |
| SecretPolicy.PruneOne | policy.go:326-348 | the exact condition of each answer under every pattern of failures, and what may be gone after it |
| SecretPolicy.Keyring.StoreSecret | policy.go:242-263 | success exactly if none of the three calls failed, and then the value is stored under exactly its policy; outcome and store otherwise as the calls leave them |
| SecretPolicy.Keyring.DeleteSecretLocked | policy.go:265-281 | outcome and store under every pattern of failures are those of probe, value, policy item |
| SecretPolicy.Keyring.RevokeSecret | policy.go:292-322 | outcome and store under every pattern of failures; without any, success exactly with a value or a readable policy item, unknown exactly with neither item, and no change without success |
| SecretPolicy.Keyring.PruneSecret | policy.go:326-348 | outcome and store under every pattern of failures are those of the check and the locked delete |
| SecretPolicy.Keyring.ResolveSecret | policy.go:124-163 | without failures the answer from the store and the two clock readings alone, each refusal in the source's order; with failures that of the calls made; the store is unchanged |
| SecretPolicy.SetRecovers | policy.go:242-263 | from every store a fault-free set changes just the two keys and makes its value readable under its policy |
| SecretPolicy.DeleteRecovers | policy.go:265-281 | from every store a fault-free delete leaves both keys absent and fails only if both were |
| SecretPolicy.RevokeRecovers | policy.go:292-322 | from every store a fault-free revoke succeeds exactly with a value or a readable policy item, leaving no value under a readable tombstone with the old times that reads report; otherwise it says why and changes nothing |
| SecretPolicy.LapsedItemGoesExactly | cmd_prune.go:36-47 | over a listing of everything stored, a fault-free sweep removes a lapsed policy item if and only if a value is stored under its name |
| SecretPolicy.LapsedItemStays | cmd_prune.go:38-41 | with nothing stored but a lapsed policy item, the sweep finds no name and the item stays |
| SecretPolicy.Prune | cmd_prune.go:36-63 | over any listing, with any calls failing for any names: only listed names with a lapsed policy lose anything, those reported pruned lost both items, everything else stays; when nothing fails exactly the lapsed ones are pruned; a dry run changes nothing |
| PolicyMachine.CallFrame | policy.go:29-38 | no call of an operation on one name touches the items of another |
| PolicyMachine.Uninterrupted | policy.go:242-348 | an operation nobody interrupts has in the machine the outcome and store the class methods are proved to have |
| PolicyMachine.StepKeepsInv | policy.go:191-347 | every step of every process, a crash, a failed call or a corrupted policy item included, keeps the invariant |
| PolicyMachine.ValueNeverUnderForeignPolicy | policy.go:239-263 | in every run a stored value is blocked by a pending or unreadable policy item or governed by exactly the policy of the set that wrote it |
| PolicyMachine.ResolveIsCurrent | policy.go:124-163 | in every run a value handed out is the stored one, from the last set whose marker landed, never wiped, not expired at the final check; the policy item says exactly the policy of that set, or became unreadable after it was read |
| PolicyMachine.SuccessfulWipe | policy.go:265-348 | a delete, revoke or prune that reports success leaves no value, and no policy item or a tombstone |
| PolicyMachine.SuccessfulSet | policy.go:239-263 | in every run the call with which a set reports success leaves its own value governed by exactly the policy asked for |
| PolicyMachine.NoDeadlock | policy.go:187-237 | in every run, while any process is busy some process can make its next call, finish or take the lock |
| PolicyMachine.WipedNeverReturned | policy.go:265-322 | a value wiped or overwritten by any call is never handed out in any continuation |
| PolicyMachine.SuccessfulWipeIsFinal | policy.go:265-348 | once a delete, revoke or prune of a name has succeeded, no value stored under it at any earlier moment is handed out in any continuation |
| PolicyMachine.PruneOnlyLapsed | policy.go:324-348 | in every run a prune's call removes a value only if its own policy has lapsed, never a tombstone or a pending item, touches no other key, and changes nothing on a dry run |
| AuditLines.SplitAuditLines | audit.go:613-628 | the forward loop gives the maximal newline-free stretches in order |
| AuditLines.RecordsOfEncode | audit.go:285-289 | splitting what was appended gives back the records appended |
| AuditLines.RecordsSplit | audit.go:613-628 | data cut after a newline splits into the records of its parts |
| AuditLines.ScanBlock | audit.go:568-582 | one block read backward either finds the boundary in front of the wanted record or carries the count over exactly |
| AuditLines.ReadAuditTail | audit.go:554-592 | for every file, positive count and positive block size, the last n records of the forward split |
| AuditLines.ReadAuditFileLines | audit.go:518-548 | missing file, refused file, last n records, or all of them for n <= 0 |
| AuditLines.CombineIsTail | audit.go:459-477 | asking the older file only for what the newer lacks gives the tail of both |
| AuditLines.TailAudit | audit.go:424-478 | the last n records of both files in order; refused if and only if the active file is above the cap, or the older one is and is needed |
| AuditLog.CriticalSectionsExclude | audit.go:296-310 | in every run, while a writer is in its critical section no other writer and no reader is in one |
| AuditLog.EventKeepsInv | audit.go:146-334 | every step, error, abandoned wait and crash keeps the invariant |
| AuditLog.HistoryIsKept | audit.go:146-334 | at every moment of every run the append history is the dropped records, then audit.log.1, then audit.log |
| AuditLog.RetiredFilesUntouched | audit.go:195-232 | no step of any run changes a file that is not the one at audit.log |
| AuditLog.TailIsSnapshot | audit.go:424-478 | a read's answer is the last n records retained at one moment, the last n of the whole history when that many are retained |
| AuditLog.TailIsAnswered | audit.go:449-478 | a read is refused only for a file above the cap, in no run if the lines fit; otherwise its look at the first or the second file answers |
| AuditLog.FilesStayBounded | audit.go:146-171 | each file stays at most threshold less one plus the longest line, so lines that fit under the cap never make a tail fail |
| AuditLog.RecentBytesRetained | audit.go:76-81 | the two files hold a suffix of the history of at least the threshold's size, or all of it |
| AuditProgress.EventKeepsHeld | audit.go:296-310 | through every step, error and crash, each locked mutex, exclusive lock and shared lock belongs to a thread at a step where it holds it |
| AuditProgress.NoDeadlock | audit.go:272-334 | in every run, while any thread is busy some thread's next step can be taken |
| AuditProgress.StepsRunOut | audit.go:272-334 | every step brings its thread nearer to the end and leaves the others where they are |
| AuditProgress.IdleMeansUnlocked | audit.go:296-310 | in every run, when all threads are idle no mutex and no lock is held |
| AuditWriter.AppendedIsLast | audit.go:315-329 | an append puts its record last in audit.log and the history and leaves every other file alone |
| AuditWriter.OvershootsExactly | audit.go:146-171 | audit.log exceeds the threshold after an append if and only if the line does not fit into what the size check left |
| AuditWriter.BoundIsReached | audit.go:146-171 | from an empty directory two appends exceed the threshold and attain the bound on file sizes |
| AuditWriter.SectionIsAppend | audit.go:315-329 | the shared log's steps inside one critical section amount to that append |
| AuditWriter.FailedAppendKeepsLog | audit.go:272-334 | whichever system calls fail, files and bounds are kept; a failed append leaves the history as it was, or with the record added when it was the sync that failed; without failures it is the uninterrupted append |
| AuditWriter.FailsExactly | audit.go:146-232 | opening and rotating fail exactly if a call that is made fails |
| AuditWriter.FailedRotation | audit.go:146-171 | what each failing call of a rotation leaves at the two paths, and that no descriptor stays behind |
| AuditWriter.AuditProcess.EnsureAuditFileLocked | audit.go:195-232 | the whole new log state on success and on each error exit; on success the cached descriptor refers to audit.log, reopened or created if needed |
| AuditWriter.AuditProcess.RotateIfTooLargeLocked | audit.go:146-171 | the whole new log state on success and on each error exit; on success the descriptor refers to audit.log, renamed and reopened if it had reached the threshold |
| AuditWriter.AuditProcess.Append | audit.go:312-334 | the log is well formed after success and after every error exit; on success the record is last in the history, on failure other than of the sync the history is unchanged |
| AuditMessage.FilterAuditMessageForAI | mcp_audit_filter.go:100-123 | the loop over split and cut tokens keeps those that open with the allowlisted key |
| AuditMessage.KeepsExactlyTheAllowlisted | mcp_audit_filter.go:109-121 | the tokens kept stand at increasing positions, which are all the allowlisted positions |
| AuditMessage.FilteredTokens | mcp_audit_filter.go:100-123 | the filtered text splits back into the kept tokens; it is empty exactly when none is kept |
| AuditMessage.FilterIsIdempotent | mcp_audit_filter.go:100-123 | filtering twice is filtering once, for every string |
| AuditMessage.SplitOfJoin | mcp_audit_filter.go:104-122 | joining space-free tokens and splitting gives them back |
| AuditMessage.JoinOfSplit | mcp_audit_filter.go:104-122 | splitting and joining gives every string back |
| AuditMessage.AuditMCPRunMessage | mcp_run.go:395-413 | the summary is the fixed tokens joined, followed by the extra text if there is any |
| AuditMessage.MessageReadsBack | mcp_run.go:395-413 | exit code and milliseconds can be read back from the first two tokens, each flag's token is there exactly if it is set, and the extra text follows word for word |
| AuditMessage.DecimalRead | mcp_run.go:397-398 | every integer can be read back from its decimal form |
| AuditMessage.WholeMilliseconds | mcp_run.go:398 | a duration is counted in whole milliseconds toward zero |
| AuditMessage.SanitizeExecStartErr | audit.go:598-609 | which word stands for which start error, and that none holds a space or an equals sign |
| AuditMessage.OnlyTimeoutShows | mcp_run.go:395-413 | what the AI reads of a run is "timed_out=true" if it timed out and nothing otherwise, for all exit codes, flags, durations and start errors |
| AuditMessage.OnlyTimeoutShowsExactly | mcp_run.go:395-413 | with any extra text at all, that holds if and only if no token of the text opens with the allowlisted key |
| JsonKeys.CheckDecides | examples/policy-proxy/main.go:77-109 | on any value's tokens followed by anything, the checker stops right after the value and accepts if and only if no object at any depth has two keys equal after lowering |
| JsonKeys.AcceptsExactlyUnambiguousValues | examples/policy-proxy/main.go:77-109 | on an arbitrary stream, well formed or not, acceptance with a given rest means exactly that an unambiguous value comes first |
| JsonKeys.AcceptanceCoversExactly | examples/policy-proxy/main.go:61-69 | what the checker accepts is unambiguous for a reader that folds keys, for every value, if and only if keys that fold together agree after lowering |
| JsonKeys.LongSIsAccepted | examples/policy-proxy/main.go:90-94 | an object whose two keys differ in a long s is accepted although a reader that folds case takes both for one |
| JsonKeys.Decoder.Token | examples/policy-proxy/main.go:78-90 | before a key only a string or the end of the object is handed out, so the key's type assertion cannot fail |
| JsonKeys.CheckJSONValue | examples/policy-proxy/main.go:77-109 | the recursive method with its loops and seen map accepts exactly when that function does, consumes the same tokens, leaves the decoder after a value, and terminates |

## Left out

- Redaction.ChunkIndependenceExactly: compares traces, whose tokens say where and for which form; when two forms share a name (as the encodings of one secret do) the rendered bytes can agree although the traces differ, so for rendered bytes only the "if" half is claimed.
- CappedOutput.CapturedIsPrefixOfRedacted: assumes the inner writer takes everything, as the in-memory buffer of the run pipeline does; for one that fails, `RedactingWriter.Write` and `CappedWriter.Write` say what happens but the prefix claim is not made.
- Registration.Register: takes each secret's encoded forms as given non-empty byte strings; the base64 and hex encoders (`redact.go:123-150`) are not part of this model.
- RedactingWriterModel.RedactingWriter.Write: the mutex is not modelled; calls on one writer are taken one at a time, as the source requires.
- OutputPipeline.RunPipeline: the in-memory buffers and the names are values; its claim about arrays is about scratch and pattern arrays.
- SecretPolicy.PruneNames: the sort of the names is left out, since the order only affects printed messages.
- SecretPolicy.Prune: other processes do not step in between its calls; with them, `PolicyMachine.PruneOnlyLapsed` says what each of its calls may remove. Printing and the audit event of each pruned name are left out.
- AuditWriter.AuditProcess.Append: waiting for the mutex and the lock, and cancellation, are steps of the shared log.
- AuditLines.TailAudit: context cancellation between the reads is the `Fail` step of the shared log, not a branch of this method.
- AuditLog.TailIsSnapshot: a record write is one atomic step; torn writes and programs that do not take the lock are not modelled.
- AuditMessage.AuditMCPRunMessage: durations and exit codes are unbounded integers.
- JsonKeys.CheckJSONValue: lower-casing is an arbitrary function on strings, and the standard decoder appears by its contract (`Decoder`), with any syntax error as a bad token; how the standard decoder folds field names is a parameter too.
- Lock acquisition itself: a lock is granted when it may be, an abandoned wait is a step, and time-outs and fairness among waiting threads are not modelled.
- Clocks are parameters: the time at each check of a read is arbitrary, not even monotone.
- JSON encoding of policy records and events, file modes, symlink refusal, fsync and locked memory: library or operating-system behaviour.
- `filterAuditLineForAI`'s choice of lines by caller and action: a case analysis with no interplay.
- `parseTTL`: its interesting branch is floating point.
- Name validators, environment deny-list, exit and time-out clamps, sandbox arguments, terminal gate, process handling, protocol wiring: single-branch facts or external behaviour.
