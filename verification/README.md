# Evidra in Dafny

A model of the parts of Evidra whose correctness is not visible from one function at a time, with proofs over
every input and every run. `dafny verify dfyconfig.toml` checks the whole project.

The core is the evidence store: an append-only, hash-chained JSONL log cut into numbered segments, with a
manifest that caches what a full re-read would compute, a file lock around every operation, and a validator
that re-reads everything. Around it are the smaller algorithms the service depends on: the signing payload, the
API-key encoding, the rate limiter, the deny cache, token templates, output truncation, scenario aggregation and
intent extraction.

## How the project is laid out

| modules | what they hold |
|---|---|
| `Wrappers`, `Sorting`, `Strings`, `Decimal` | options and results, sorting and the sorted-dedupe form, decimal numerals |
| `SegmentNames` | segment file names, the directory listing and its order |
| `Records`, `Disk` | evidence records, the hashed projection, chains; lines, files, the manifest |
| `Validation` | `validateSegmentedChain` and the exact statement of what it accepts |
| `Appending` | `appendSegmented` as five visible effects, each a point where a process can stop |
| `AppendMeaning`, `Verdicts` | what an append does to any root, and what each rejection says about it, written out without the functions that compute them |
| `Coherence`, `Grounding`, `StageInvariants` | the invariant of clean runs, the weaker one that survives crashes, and what each effect keeps |
| `Acceptance` | when a store that appends have built is read back and accepted |
| `Cursors`, `Protocol`, `RunInvariants` | cursors; any number of writers and cursor clients as a state machine; its invariant |
| `Guarantees` | the theorems about all runs |
| `Binding` | what the hash chain pins down, up to a collision, and what it does not |
| `Legacy` | the flat log, and the refinement of it by the segmented store |
| `Limits` | runs in which every append succeeds and the store is then refused |
| `SegmentedStore` | the same operations as the code runs them, on fields updated in place, proved against the functions above |
| `SigningPayload`, `PayloadUniqueness` | the signing payload and a decoder; which payloads belong to one record only |
| `Base62`, `RateLimiter`, `DenyCache`, `Templates`, `Utf8`, `Scenario`, `Intent` | one self-contained algorithm each |
| `Plans` | what is read for terraform, helm and argocd |
| `Workloads` | Kubernetes workloads in flat and native form, and which of these have one intent |

Operations that loop or update state in the source are methods and classes here (`SegmentedStore`, `LegacyLog`,
`Limiter`, `Cache`, and the loops of the other modules). Each is proved equal to a function, and the theorems are
about that function. A run of `Protocol` is a sequence of steps in any order: a writer starts, tries the lock
(successfully, in vain, or past its deadline), performs its next effect, leaves (as `Store.Init` does once the
manifest is loaded), releases or crashes; a cursor client
performs one of the three locked operations of `evidra evidence cursor ack`.

Parameters of the model: the hash and the JSON encoder (`Codec`, of which only the binding theorems assume that a
digest is not the empty string), the clock, the policy engine, `strings.ToLower` and `%v` formatting.

## Where code, documentation and expectation differ

The model follows the code. These differences are theorems, not remarks.

- docs/ARCHITECTURE.md:194 says a record's hash covers all fields except itself. It covers ten:
  bundle revision, profile name, environment label, input hash and source can be edited unnoticed
  (`Binding.UnhashedEditsAreInvisible`).
- Append accepts records with different policy references and the validator then rejects the store
  (`Limits.MixedPoliciesAreAppended`).
- Append writes lines longer than the 64 KiB the line scanner reads, and opens segment 1000000, whose name the
  listing cannot parse; both stores are then unreadable (`Limits.LongLinesAreAppended`,
  `Limits.LastNameMakesUnreadable`, concrete runs in `Limits.RefusalsHappen`). When a store is accepted, over all
  runs, is `Guarantees.ValidateAgrees`. Past an over-long line the segmented store goes on accepting while the legacy
  log refuses every call (`Limits.StoresPartAtLongLine`).
- If the manifest is missing, append empties segment 1; exactly when that loses a line is
  `Guarantees.MissingManifestLosesFirstSegment`. Runs that start from an empty root never get there with a line in
  segment 1.
- Two rejections of the validator can never occur, because loading the manifest normalises it first
  (`Validation.UnreachableRejections`). Its acceptance of a root that does not exist is out of reach of the public
  functions, since taking the lock creates the root (`Validation.LockedValidateExactly`).
- The API-key prefix slice is out of range for values below 62^7 (`Base62.KeyPrefix`).
- A signing payload need not belong to one record, because scalars are written without escaping. As a statement about
  `BuildSigningPayload` on arbitrary records, the policy reference can swallow part of the bundle revision
  (`PayloadUniqueness.NewlinesBreakInjectivity`); the handler refuses newlines in six other fields only
  (internal/api/validate_handler.go:87-104), but takes these two from one trusted source. The pair that policy text can
  produce is reason and reasons: even a record without newlines in its scalars can share its payload with another
  one through a reason that prints lists (`PayloadUniqueness.ListElementsBreakInjectivity`).
  `PayloadUniqueness.PayloadDetermines` gives the exact condition.
- Intents are said to identify what policy decides about (pkg/mcpserver/intent.go:12-13) and to be read from native
  Kubernetes payloads (pkg/mcpserver/intent.go:45). The pod spec is looked up at spec.template.spec only, so that of a
  native Pod or CronJob, such as tests/corpus/k8s_native_pod_privileged_deny.json and
  tests/corpus/k8s_native_cronjob_privileged_deny.json, is not read: all of one name have one intent, whatever their
  containers (`Workloads.PodsLookAlike`). Exactly when flat and native form agree is `Workloads.FlatAndNativeAgree`.
- Checks and cleanups of the deny cache change no verdict, but the count that is reported starts again at one
  exactly after one of them has deleted an expired entry (`DenyCache.ReadersRestartCount`).

## Model

| member | source | states |
|---|---|---|
| `Guarantees.MutualExclusion` | pkg/evlock/lock_unix.go:23-68 | in every run, two writers inside the lock are the same writer, and it is the holder |
| `Guarantees.SerializedAppends` | pkg/evidence/segment.go:38-112 | whenever the lock is free and no call was lost after its line, the files are one linked chain of exactly the successful submissions in lock-acquisition order, each stored record is what its call was given with time and hashes filled in, the manifest equals what a full re-read computes, and a reader gets exactly that chain unless a line or the segment count is over its limit |
| `Guarantees.CallAlone` | pkg/evidence/lock.go:37-63 | from any lock-free state, a call that meets no competitor leaves the root `Append` computes, frees the lock and counts as successful exactly when `Append` succeeds |
| `Guarantees.InitAlone` | pkg/evidence/store.go:30-41 | a `Store.Init` that meets no competitor creates a store where there is none and changes nothing else |
| `Guarantees.RotationInvariant` | pkg/evidence/segment.go:82-106 | without lost calls, sealed segments are names 1..n-1 in order and the current one is n; every sealed file is over the size limit but was not before its last line; the current file is not over it |
| `Guarantees.SealedForever` | pkg/evidence/segment.go:82-111 | in every run with any crashes, files only gain lines and a sealed segment is never written, removed or unsealed |
| `Guarantees.ValidateAgrees` | pkg/evidence/segment.go:114-196 | in every lock-free state of every run the validator accepts if and only if the root is untouched, or a manifest exists, no call was lost, at most one policy was submitted, and lines and segments are within the reader's limits |
| `Guarantees.LostCallIsNeverForgotten` | pkg/evidence/segment.go:182-184 | once a call was lost between its line and its manifest, every later lock-free state is rejected, whatever is appended afterwards |
| `Guarantees.CrashBeforeLineIsHarmless` | pkg/evidence/segment.go:38-71 | from taking the lock, through creating and loading the manifest with any steps of others in between, to a crash before the line: stored records, successes, earlier lost calls, and an existing manifest with all files end as they were before the lock was taken |
| `Guarantees.EffectBeforeLine` | pkg/evidence/manifest.go:35-88 | creating and loading store and lose no record and leave an existing root unchanged |
| `Guarantees.MissingManifestLosesFirstSegment` | pkg/evidence/manifest.go:58-87 | on any root: without a manifest segment 1 ends as exactly the new line (empty if the record cannot be hashed) and other files stay; files only grow if and only if there was a manifest or segment 1 was a beginning of that |
| `Guarantees.CursorStable` | cmd/evidra/evidence_cmd.go:576-602 | a saved cursor resolves, in every later state, to the same record, whose hash is the acknowledged one, whatever happened between validating, resolving and saving |
| `Guarantees.CursorsFollowValidation` | cmd/evidra/evidence_cmd.go:576-602 | no cursor is pending or saved unless the validator accepted the store when it was asked for |
| `Guarantees.CursorsAreNamedPositions` | pkg/evidence/forwarder.go:98-141 | in an accepted store a (segment, line) cursor resolves exactly when it names a stored record, to the record at the corresponding global position, from which the cursor is recovered |
| `RunInvariants.NextKeeps` | pkg/evidence/lock.go:37-63 | every step of every writer or cursor client keeps the invariant and only extends files, sealed segments, acquisitions and successes |
| `RunInvariants.RunKeeps` | pkg/evidence/lock.go:37-63 | so does every finite run |
| `StageInvariants.AdvanceKeeps` | pkg/evidence/segment.go:38-112 | each visible effect of an append keeps the disk count ahead of `records_total` by exactly the lost lines, and writes no sealed file |
| `StageInvariants.AdvanceClean` | pkg/evidence/segment.go:57-111 | while nothing was lost, each effect keeps disk and manifest coherent with the submissions |
| `StageInvariants.BaseReleased` | pkg/evlock/lock_unix.go:54-68 | stopping at any point leaves the crash invariant, with one more lost line exactly if the line was unpublished |
| `Appending.AppendEnds` | pkg/evidence/segment.go:38-112 | five effects always finish a call, in success or failure |
| `AppendMeaning.AppendMeans` | pkg/evidence/segment.go:38-112 | on any root, a call that returns a record has stored it in UTC with the caller's time or, if that is zero, the clock's, and otherwise unchanged; it follows the manifest's last hash and carries its own; one line, one count, the new last hash and the policy rule are written out, the segment is sealed and the next one opened exactly when over size, and every other file stays; a call that fails does so for the stated reason and leaves the stated root |
| `AppendMeaning.LinkedIsStored` | pkg/evidence/segment.go:52-67 | the linked record differs from the given one only in timestamp, previous hash and hash, and how |
| `AppendMeaning.RotateMeans` | pkg/evidence/segment.go:82-106 | what rotation leaves for any manifest and files |
| `AppendMeaning.PublishedMeans` | pkg/evidence/manifest.go:97-101 | sealed segments are published strictly sorted, without blanks and without the current one |
| `Coherence.InitialCoherent` | pkg/evidence/manifest.go:62-87 | a freshly created store holds no submissions and is coherent |
| `Coherence.WriteCoherent` | pkg/evidence/segment.go:57-80 | linking, writing and bumping the cached fields extend the held submissions by exactly one |
| `Coherence.RotateLayout` | pkg/evidence/segment.go:82-106 | rotation of a numbered store opens exactly segment n + 1, or fails when 999999 is passed |
| `Coherence.RotateCoherent` | pkg/evidence/segment.go:82-106 | rotation keeps the submissions and restores the size invariant |
| `Coherence.LayoutSettles` | pkg/evidence/manifest.go:43-53 | loading and publishing leave the manifest of such a store unchanged |
| `Grounding.GroundedWrite` | pkg/evidence/segment.go:69-71 | after any crashes, a write adds one record to the disk and touches no sealed file |
| `Grounding.GroundedRotate` | pkg/evidence/segment.go:82-106 | after any crashes, rotation loses no record, keeps numbering gapless and unseals nothing |
| `Grounding.MiscountRejected` | pkg/evidence/segment.go:182-184 | a disk count different from `records_total` is always rejected |
| `Acceptance.CoherentReads` | pkg/evidence/segment.go:198-213 | a store built by appends streams exactly its records, and fails exactly beyond the line or segment limit |
| `Acceptance.CoherentValidates` | pkg/evidence/segment.go:114-196 | such a store is sound if and only if it names one policy and is within both limits |
| `Validation.ValidateExactly` | pkg/evidence/segment.go:114-196 | on any disk contents, the validator accepts exactly an untouched root or a sound store: gapless segments, sealed ones present, one linked chain, one policy, matching manifest |
| `Validation.CheckLinesSpec` | pkg/evidence/segment.go:140-180 | the streaming callback succeeds exactly on readable, linked, single-policy lines, and then holds last hash, count and policy |
| `Verdicts.RejectionsAreTrue` | pkg/evidence/segment.go:114-196 | every rejection is true of the root it is about, and every check before it would have passed |
| `Verdicts.RejectedLine` | pkg/evidence/segment.go:140-180 | a rejected stream has a sound beginning followed by a line with exactly the fault named |
| `Validation.UnreachableRejections` | pkg/evidence/segment.go:273-289 | the empty-current and not-canonical rejections never occur |
| `Validation.LockedValidateExactly` | pkg/evidence/segment.go:114-124 | once the lock has created the root, exactly the sound stores are accepted |
| `Validation.NormalizedIsCanonical` | pkg/evidence/manifest.go:43-53 | a loaded manifest has a current segment and canonical sealed segments |
| `Binding.ManifestBinds` | pkg/evidence/segment.go:140-187 | two accepted stores with one manifest `last_hash` have equally many records with the same hashed fields everywhere, or two hashed values with one digest are returned |
| `Binding.ChainBinds` | pkg/evidence/segment.go:140-180 | the same for any two linked chains with one last hash |
| `Binding.HashCoversTenFields` | pkg/evidence/hash.go:10-31 | two records hash alike under every hash function if and only if the ten listed fields agree |
| `Binding.UnhashedEditsAreInvisible` | pkg/evidence/hash.go:11-22 | editing the other fields anywhere in a store never changes the verdict |
| `Records.ChainUnique` | pkg/evidence/segment.go:57-67 | submissions determine the stored records |
| `Records.ChainsAreLinked` | pkg/evidence/segment.go:57-67 | records linked at append time satisfy what the validator demands |
| `Records.UniformSnoc` | pkg/evidence/segment.go:164-170 | comparing only with the first policy reference decides whether all references agree |
| `Records.UniformMerged` | pkg/evidence/segment.go:76-80 | under one policy the manifest's running reference is the first one |
| `Disk.ReadLinesSpec` | pkg/evidence/io.go:11-38 | a file streams exactly its records, or fails exactly when a line is malformed or over 65536 bytes |
| `Cursors.ResolveInStable` | pkg/evidence/forwarder.go:119-141 | lines added later never change a resolved cursor |
| `Cursors.ResolveInReads` | pkg/evidence/forwarder.go:119-141 | on a readable file a cursor is an index into its records, out of range exactly beyond them |
| `Cursors.CursorToPosition` | pkg/evidence/forwarder.go:98-141 | a cursor names the global position given by the records before its segment, and that position leads back to it |
| `Cursors.PositionToCursor` | pkg/evidence/forwarder.go:98-141 | every global position is named by a cursor |
| `Legacy.SegmentedRefinesLegacy` | pkg/evidence/legacy.go:11-106 | over every sequence of calls within the limits both stores return the same records or errors, stream exactly those, have the same last hash and the same verdict, and the constant-time metadata equals the full scan if and only if one policy is named |
| `Legacy.SegmentsPerCall` | pkg/evidence/segment.go:82-106 | a run of k calls has at most k + 1 segments, so any run of fewer than 999999 calls is within the segment limit |
| `Legacy.EmptyStores` | pkg/evidence/store.go:56-95 | before the first call both stores are empty, without last hash, and accepted; only the segmented one has no metadata |
| `Limits.AppendsSucceed` | pkg/evidence/segment.go:38-112 | with a hash that never fails, up to 999999 calls all succeed and the store holds all of them |
| `Limits.VerdictOfRun` | pkg/evidence/segment.go:114-196 | the store they leave is readable if and only if lines and segments are within the limits, and accepted if and only if it also names one policy |
| `Limits.MixedPoliciesAreAppended` | pkg/evidence/segment.go:76-80 | any such run with two different policies succeeds call by call and is then rejected |
| `Limits.LongLinesAreAppended` | pkg/evidence/io.go:11-55 | any such run with one record whose line is too long under every hash succeeds call by call and leaves a store that is neither readable nor valid |
| `Limits.StoresPartAtLongLine` | pkg/evidence/legacy.go:18-21 | after any such run the next call succeeds on the segmented store, and has the same outcome on the legacy log if and only if every line stored so far fits |
| `Limits.EveryCallOpensASegment` | pkg/evidence/segment.go:82-106 | when every line exceeds the segment size, k calls leave exactly k + 1 segments |
| `Limits.LastNameMakesUnreadable` | pkg/evidence/segment.go:257-271 | then call 999999 succeeds and leaves a store that is neither readable nor valid |
| `Limits.RefusalsHappen` | pkg/evidence/segment.go:38-112 | concrete runs of all three kinds |
| `Legacy.StepAgrees` | pkg/evidence/legacy.go:11-41 | one call keeps both stores in step, with the same outcome |
| `Legacy.SequentialAppend` | pkg/evidence/segment.go:38-112 | an undisturbed call on a coherent root links to the last stored hash and adds exactly its submission, or changes no record, or has run out of segment names |
| `Legacy.ScanMetadataSpec` | pkg/evidence/legacy.go:83-106 | the full scan succeeds exactly on readable single-policy logs and then summarises them |
| `Legacy.LegacyLog.Append` | pkg/evidence/legacy.go:11-41 | a returned record is the given one with its time (the clock's only if zero) and hashes filled in, follows the last stored record, and is the one line added; on an error the file is unchanged |
| `Legacy.LegacyLog.ReadLastHash` | pkg/evidence/legacy.go:114-141 | the hash of the last record, or the first read error |
| `Legacy.LegacyLog.ValidateChain` | pkg/evidence/legacy.go:43-81 | the verdict of the specification |
| `Legacy.LegacyLog.ReadMetadata` | pkg/evidence/legacy.go:83-106 | the scan of the specification |
| `SegmentedStore.SegmentedStore.AppendSegmented` | pkg/evidence/segment.go:38-112 | one call leaves exactly the root and outcome of the five effects, and these are what `Appended` and `Refused` write out |
| `SegmentedStore.SegmentedStore.RotateIfNeeded` | pkg/evidence/segment.go:82-106 | files and manifest after rotation, or the listing error with files unchanged |
| `SegmentedStore.SegmentedStore.LoadOrInitManifest` | pkg/evidence/manifest.go:35-88 | the loaded manifest; whole new root when it creates one; unchanged root otherwise |
| `SegmentedStore.SegmentedStore.Init` | pkg/evidence/store.go:30-41 | fails exactly on an unparseable manifest; otherwise a manifest is present, and an existing store is unchanged |
| `SegmentedStore.SegmentedStore.ReadManifest` | pkg/evidence/manifest.go:35-59 | missing and unparseable manifests; otherwise the stored fields with their defaults and the sealed segments strictly sorted without blanks |
| `SegmentedStore.SegmentedStore.WriteManifestAtomic` | pkg/evidence/manifest.go:90-124 | only the published manifest changes: fields as given, a current segment, and the sealed ones strictly sorted without blanks and without the current one |
| `SegmentedStore.SegmentedStore.ValidateSegmentedChain` | pkg/evidence/segment.go:114-196 | the verdict, with its reason, on any root |
| `SegmentedStore.SegmentedStore.CheckSegment` | pkg/evidence/segment.go:140-180 | the callback over one more segment continues the tally of everything before it |
| `SegmentedStore.SegmentedStore.CheckStream` | pkg/evidence/segment.go:128-193 | loop over segments and final comparisons, including the case of no segments |
| `SegmentedStore.SegmentedStore.CheckSealedSegments` | pkg/evidence/segment.go:273-301 | the four sealed-segment checks in order |
| `SegmentedStore.SegmentedStore.OrderedNames` | pkg/evidence/segment.go:215-255 | the numeric listing of the directory whatever order the file system returns |
| `SegmentedStore.SegmentedStore.ResolveCursorRecord` | pkg/evidence/forwarder.go:98-141 | on a readable segment the record at that index; out of range for a negative or too large line, not found for a missing segment |
| `SegmentedStore.RemoveSegment` | pkg/evidence/segment.go:323-335 | every occurrence of the name is gone, the rest keeps its order |
| `SegmentedStore.ContainsSegment` | pkg/evidence/segment.go:337-344 | membership |
| `SegmentNames.ParseInvertsName` | pkg/evidence/segment.go:257-271 | parsing yields i if and only if 1 <= i <= 999999 and the string is the name of i |
| `SegmentNames.NameSpelled` | pkg/evidence/segment.go:269-271 | "evidence-", the index in six digits, ".jsonl" |
| `SegmentNames.MatchesGlob` | pkg/evidence/segment.go:217 | the listing considers exactly the names with any text between prefix and suffix |
| `SegmentNames.NameOrder` | pkg/evidence/segment.go:269-271 | lexicographic order of names is numeric order of indices up to 999999 |
| `SegmentNames.SegmentNameInjective` | pkg/evidence/segment.go:269-271 | equal names mean equal indices, also beyond six digits |
| `SegmentNames.OrderedSegmentNames` | pkg/evidence/segment.go:215-255 | succeeds if and only if the matching entries are exactly segments 1..n, n <= 999999, and returns them in numeric order |
| `SegmentNames.SequenceDecides` | pkg/evidence/segment.go:237-254 | the two sorts and comparisons decide exactly that |
| `SegmentNames.SortsToNames` | pkg/evidence/segment.go:237-238 | both sorts put any order of segments 1..n into numeric order |
| `SegmentNames.ParseEntries` | pkg/evidence/segment.go:215-235 | matching entries with their own indices, or an entry that does not parse |
| `SegmentNames.CheckSequence` | pkg/evidence/segment.go:240-254 | true exactly for indices 1..n and their names |
| `SegmentNames.ListingOfNames` | pkg/evidence/segment.go:215-255 | a directory of exactly segments 1..n is listed if and only if n <= 999999 |
| `Strings.CanonicalSpec` | pkg/validate/validate.go:298-318 | sorted-dedupe is strictly sorted and has exactly the non-empty elements |
| `Strings.CanonicalBySet` | pkg/evidence/segment.go:303-321 | it depends only on the set of non-empty strings |
| `Strings.CanonicalIdempotent` | pkg/evidence/segment.go:303-321 | applying it twice changes nothing |
| `Strings.DedupeLoop` | pkg/validate/validate.go:298-312 | first occurrences of the non-empty strings |
| `Strings.SortedDedupe` | pkg/validate/validate.go:314-318 | the canonical form |
| `PayloadUniqueness.PayloadDetermines` | internal/evidence/payload.go:20-98 | no other record has the payload of a record if and only if none of its free scalars contains the text that separates it from the field before or behind, and from its last scalar on four printed lists can start at one place only |
| `PayloadUniqueness.NewlineFreeDetermines` | internal/evidence/payload.go:20-98 | a record without newlines in scalars and without "\nreasons=" in list elements shares its payload with no record at all |
| `PayloadUniqueness.ListElementsBreakInjectivity` | internal/evidence/payload.go:58-63 | for all strings and lists, two different records, the first newline-free in its scalars, with one payload |
| `PayloadUniqueness.OneReading` | internal/evidence/payload.go:20-49 | under that condition any two divisions of the payload into fields are equal |
| `PayloadUniqueness.AnotherReading` | internal/evidence/payload.go:20-49 | without it another division exists |
| `PayloadUniqueness.PayloadIsText` | internal/evidence/payload.go:20-49 | the payload is its free scalars, separators and lists in the order of the source |
| `PayloadUniqueness.TailIsWritten` | internal/evidence/payload.go:43-46 | the text behind the reason, key by key |
| `SigningPayload.RoundTripExactly` | internal/evidence/payload.go:20-98 | the line-wise decoder recovers exactly the records without newlines in scalars; list elements are arbitrary |
| `SigningPayload.PayloadInjective` | internal/evidence/payload.go:20-98 | equal payloads of newline-free records mean equal records |
| `PayloadUniqueness.NewlinesBreakInjectivity` | internal/evidence/payload.go:37-38 | for all strings, two different records that divide policy reference and bundle revision differently and have one payload |
| `SigningPayload.DecodePayload` | internal/evidence/payload.go:20-49 | decoding inverts building |
| `SigningPayload.DecodeListOf` | internal/evidence/payload.go:58-98 | a list field with arbitrary elements is recovered from any continuation |
| `SigningPayload.BuildSigningPayload` | internal/evidence/payload.go:20-49 | the payload is the text written out key by key, all twenty-one fields in order |
| `SigningPayload.PayloadIsWritten` | internal/evidence/payload.go:20-49 | printing by key lists and writing the text out agree for every record |
| `SigningPayload.WriteField` | internal/evidence/payload.go:51-56 | appends exactly one field to those written |
| `SigningPayload.WriteListField` | internal/evidence/payload.go:58-63 | the same for a list |
| `SigningPayload.LengthPrefixedJoin` | internal/evidence/payload.go:77-98 | the joined list of the specification |
| `Base62.Encode` | internal/store/keys.go:143-171 | terminates with the base-62 numeral of the input's value, which decodes to it and has no leading zero digit |
| `Base62.DivideInPlace` | internal/store/keys.go:155-160 | old value == 62 * new value + remainder, every quotient a byte |
| `Base62.CollectRemainders` | internal/store/keys.go:149-165 | the remainders of the value, least significant first |
| `Base62.ReverseInPlace` | internal/store/keys.go:167-169 | every position holds what its mirror position held |
| `Base62.AllZero` | internal/store/keys.go:173-180 | true exactly when the value is zero |
| `Base62.AlphabetSpelled` | internal/store/keys.go:144 | the digits are those of the source's alphabet |
| `Base62.DecodeNumeral` | internal/store/keys.go:143-171 | decoding a numeral gives back the value |
| `Base62.NoLeadingZero` | internal/store/keys.go:143-171 | a non-zero value has no leading '0' |
| `Base62.NumeralLength` | internal/store/keys.go:143-171 | at most k characters if and only if the value is below 62^k |
| `Base62.EncodingInjective` | internal/store/keys.go:143-171 | encodings are equal exactly for equal values, so for equal-length inputs exactly for equal inputs |
| `Base62.KeyLength` | internal/store/keys.go:143-146 | 32 bytes give at most 43 characters |
| `Base62.KeyPrefix` | internal/store/keys.go:59-60 | the 12-byte slice is in range if and only if the value is at least 62^7 |
| `RateLimiter.Limiter.Allow` | internal/api/keys_handler.go:28-49 | decision and new store; what remains for the address is younger than an hour, other addresses are untouched |
| `RateLimiter.Compact` | internal/api/keys_handler.go:37-42 | the array prefix holds exactly the timestamps inside the window, in order |
| `RateLimiter.DecidesLikeFullHistory` | internal/api/keys_handler.go:28-49 | in every run with a monotone clock a request is admitted if and only if fewer than three of the address were, or the third-last one at least an hour ago |
| `RateLimiter.CountDecides` | internal/api/keys_handler.go:37-46 | counting the window and looking at the third-last admission decide alike |
| `RateLimiter.SlicesAgree` | internal/api/keys_handler.go:35-48 | pruned slice and history have the same timestamps inside every later window |
| `RateLimiter.AdmissionsAreSpaced` | internal/api/keys_handler.go:43-48 | an admitted request is at least an hour after the third-previous admitted one |
| `RateLimiter.RefusalMeansThree` | internal/api/keys_handler.go:43-46 | a refused request found exactly three admissions within the last hour |
| `RateLimiter.StoredIsBounded` | internal/api/keys_handler.go:43-48 | never more than three timestamps per address |
| `DenyCache.CacheRefinesHistory` | pkg/mcpserver/deny_cache.go:36-94 | under any interleaving of operations and a monotone clock, a check stops if and only if the latest recorded outcome of the key is a denial at most ttl ago |
| `DenyCache.ReadersChangeNoVerdict` | pkg/mcpserver/deny_cache.go:36-94 | checks and cleanups change no verdict on any key at any later time |
| `DenyCache.ReadersRestartCount` | pkg/mcpserver/deny_cache.go:36-94 | after any history, a check or cleanup changes the count of the next denial if and only if it deletes an expired entry of that key, and then the count is one |
| `DenyCache.DenialsExpire` | pkg/mcpserver/deny_cache.go:84-94 | a cleanup, or a check of the key, deletes a denial exactly when it comes more than ttl later |
| `DenyCache.GateRefinesOutcomes` | pkg/mcpserver/server.go:271-314 | however requests overlap, the service stops, admits and finishes exactly the requests that a ledger of all outcomes would: a request is stopped if and only if its actor is "agent" or "ci" and the latest outcome of its intent is a denial at most ttl ago; a stopped request leaves the service unchanged |
| `DenyCache.ServiceFollowsLedger` | pkg/mcpserver/server.go:271-314 | service and ledger have the same requests in evaluation and the same latest denials after any events in clock order |
| `DenyCache.ServiceRunsTrace` | pkg/mcpserver/server.go:271-314 | the cache holds what the cache operations of all overlapping requests, in order, leave |
| `DenyCache.Validate` | pkg/mcpserver/server.go:271-314 | an undisturbed request is an arrival followed by a finish; only "agent" and "ci" are ever stopped, exactly while an entry is at most ttl old; what a denial and an allowance leave in the cache |
| `DenyCache.Cache.CheckDenyLoop` | pkg/mcpserver/deny_cache.go:36-54 | the entry exactly when present and unexpired; an expired one is removed |
| `DenyCache.Cache.RecordDenial` | pkg/mcpserver/deny_cache.go:57-74 | the key is stopped from now until ttl later and no longer; a known key keeps its reason and counts one more; every other entry is unchanged |
| `DenyCache.Cache.Clear` | pkg/mcpserver/deny_cache.go:77-81 | the key is gone and every other entry is unchanged |
| `DenyCache.Cache.Sweep` | pkg/mcpserver/deny_cache.go:84-94 | exactly the unexpired entries remain, unchanged |
| `Templates.ParseExactly` | pkg/tokens/tokens.go:119-167 | a template parses to a part list if and only if the list is well formed and the template spells it, tokens in double braces with optional white space inside |
| `Templates.ParsePrint` | pkg/tokens/tokens.go:119-167 | parsing a printed well-formed part list returns it |
| `Templates.NameAlphabet` | pkg/tokens/tokens.go:11 | the characters a token name may have |
| `Templates.ParseIsWellFormed` | pkg/tokens/tokens.go:119-149 | every successful parse is well formed: no empty or adjacent texts, no "{{" in a text, no "{" before a token |
| `Templates.ParsedExactlyWellFormed` | pkg/tokens/tokens.go:119-149 | well-formed lists are exactly the results of parsing |
| `Templates.ParseTemplate` | pkg/tokens/tokens.go:119-149 | the index loop terminates with the parse of the specification |
| `Templates.TokenBodyParses` | pkg/tokens/tokens.go:151-167 | a token body with any white space around it parses to its token and contains no brace |
| `Templates.ExpandTemplate` | pkg/tokens/tokens.go:89-110 | fails exactly on an invalid template or at the first required occurrence whose value is missing or empty; otherwise one simultaneous substitution, values never re-expanded |
| `Templates.ExpandToItself` | pkg/tokens/tokens.go:94-109 | substituting for every token its own spelling gives the template back |
| `Templates.OptionalVanishes` | pkg/tokens/tokens.go:100-104 | a token without a value leaves nothing behind |
| `Templates.ExtractTokens` | pkg/tokens/tokens.go:19-39 | exactly the required and exactly the optional names of the template, each strictly sorted, or the template error |
| `Templates.RequiredNamesSuffice` | pkg/tokens/tokens.go:19-39 | expansion succeeds exactly when every extracted required name has a non-empty value |
| `Utf8.Truncate` | pkg/outputlimit/outputlimit.go:27-40 | truncates exactly when the limit is positive and exceeded; keeps the longest valid prefix within the limit, then the suffix |
| `Utf8.SuffixSpelled` | pkg/outputlimit/outputlimit.go:12 | the suffix is the text of the source, byte for byte |
| `Utf8.TruncationLosesLittle` | pkg/outputlimit/outputlimit.go:32-39 | of valid text at most three bytes below the limit are dropped, and the result is valid |
| `Utf8.ValidPrefixNear` | pkg/outputlimit/outputlimit.go:32-35 | valid text has a valid prefix within three bytes of any limit |
| `Utf8.ValidExactlyEncodings` | pkg/outputlimit/outputlimit.go:33-35 | a byte string is valid exactly when it is the encoding, per section 3 of RFC 3629, of Unicode scalar values |
| `Utf8.CharIsEncoded` | pkg/outputlimit/outputlimit.go:33-35 | the front character is the encoding of the scalar value it decodes to, so overlong forms and surrogates are excluded |
| `Utf8.EncodedIsChar` | pkg/outputlimit/outputlimit.go:33-35 | the encoding of every scalar value is one character |
| `Scenario.EvaluateScenario` | pkg/validate/validate.go:345-454 | fails with the error of the first evaluable action on which the policy fails; else one result per action at its index, the complaint about its kind or the decision field by field, pass exactly if all pass, risk "high" exactly if not, the first policy reference, and rule ids, hints and reasons the strictly sorted unions, all written out in terms of the decisions |
| `Scenario.ValidKindExactly` | pkg/validate/validate.go:465-474 | exactly the kinds that split at their first dot into two non-blank halves are sent to the policy |
| `Scenario.SplitKindExactly` | pkg/validate/validate.go:465-474 | and these halves are tool and operation |
| `Scenario.EvaluateAction` | pkg/validate/validate.go:352-448 | one round fails exactly when an evaluable action's policy fails, and else extends every accumulated field |
| `Scenario.UnlabeledDeny` | pkg/validate/validate.go:417-421 | `sys.unlabeled_deny` is reported exactly when a denied action had no hits or a hit has that name |
| `Scenario.VerdictDependsOnSet` | pkg/validate/validate.go:351-453 | pass, risk, rule ids and hints depend only on the set of actions |
| `Workloads.FlatAndNativeAgree` | pkg/mcpserver/intent.go:73-129 | for kubectl and oc, with containers in either spelling, a workload has the same intent in flat and native form if and only if the native object keeps its pod spec under spec.template, or there are neither containers nor host flags |
| `Workloads.ShapesAgreeExactly` | pkg/mcpserver/intent.go:89-128 | the same for containers of arbitrary JSON: template shape, or no host flag and no container that is an object |
| `Workloads.PodsLookAlike` | pkg/mcpserver/intent.go:93-103 | native Pods and CronJobs of one name have one intent, whatever their containers and flags |
| `Workloads.SpellingIsInvisible` | pkg/mcpserver/intent.go:181-204 | containers in flat and in native key spelling give the same intent |
| `Workloads.ContainerReads` | pkg/mcpserver/intent.go:181-204 | either spelling of a container is read as its privileged flag, user, added capabilities and trimmed lower-case image |
| `Workloads.ImagesOfContainers` | pkg/mcpserver/intent.go:385-404 | the images of a workload are exactly the normalised images of its containers, strictly sorted |
| `Workloads.DifferentImagesDiffer` | pkg/mcpserver/intent.go:104-107 | workloads that run different images have different intents |
| `Workloads.BothFormsIntent` | pkg/mcpserver/intent.go:73-129 | in a payload of both forms, names and container lists are taken from the flat part first, host flags from either |
| `Workloads.HostFlagKeys` | pkg/mcpserver/intent.go:112-128 | the keys under which each host flag is honoured, and no others |
| `Workloads.InitContainerKeys` | pkg/mcpserver/intent.go:97-102 | the two native spellings of init containers and their order |
| `Workloads.SnakeGoesFirst` | pkg/mcpserver/intent.go:189-195 | a container in both spellings is read in snake case |
| `Workloads.NativeIntent` | pkg/mcpserver/intent.go:73-129 | a native payload has the intent of its workload, or of the bare name when its pod spec is not found |
| `Intent.OtherKeysNeverMatter` | pkg/mcpserver/intent.go:46-204 | for every tool, payloads that agree at every depth on the keys read have the same intent |
| `Intent.ReorderedContainers` | pkg/mcpserver/intent.go:73-129 | reordering containers, flat or native, changes an intent only by one common permutation of the privileged and run-as-user entries |
| `Intent.ContainerOrder` | pkg/mcpserver/intent.go:181-204 | images and capabilities do not depend on container order; posture entries are permuted |
| `Intent.ImagesDependOnSet` | pkg/mcpserver/intent.go:385-404 | images depend only on the set of containers |
| `Intent.TerraformOrder` | pkg/mcpserver/intent.go:131-179 | terraform lists depend only on the multisets of their items |
| `Intent.ReorderedExactly` | pkg/mcpserver/intent.go:73-129 | reordering containers keeps the intent if and only if it keeps the sequence of their privileged and run-as-user entries |
| `Workloads.SwapIsVisible` | pkg/mcpserver/intent.go:181-197 | swapping two containers of any workload changes its intent if and only if both are objects with different entries |
| `Intent.ExtractImages` | pkg/mcpserver/intent.go:385-404 | strictly sorted, and exactly the images the containers show: their text, or what stands in its place formatted, trimmed and lower-cased, except blank and "<nil>" |
| `Intent.ExtractContainerPosture` | pkg/mcpserver/intent.go:181-204 | entries in container order, capabilities sorted |
| `Intent.ExtractTerraformIntent` | pkg/mcpserver/intent.go:131-179 | the terraform intent of the specification |
| `Plans.PlanIntent` | pkg/mcpserver/intent.go:131-179 | the intent of a plan has its types, count, address ranges under both keys and actions under both keys, each list sorted |
| `Plans.ToolsRead` | pkg/mcpserver/intent.go:46-71 | which extraction each tool gets; an unknown tool or a missing payload leaves tool and operation |
| `Plans.HelmReads` | pkg/mcpserver/intent.go:61-65 | helm: the namespace of the payload, or else of its metadata |
| `Plans.ArgoReads` | pkg/mcpserver/intent.go:66-67 | argocd: the application name |
| `Plans.OnlyTextsCount` | pkg/mcpserver/intent.go:335-356 | a list contributes exactly its texts |

## Left out

- Policy evaluation (OPA/Rego bundles, runtime): a foreign engine, here a parameter that may fail.
- SHA-256, Ed25519 and JSON: the hash is any function of the hashed fields and the line length any function of the record; a record is one line and is read back as written.
- Torn lines and file-system errors: a process stops only between visible effects, and a rename is atomic.
- Manifest fields `format`, `created_at`, `updated_at`, `segments_dir` and `notes`: nothing depends on them.
- Integer width: counters, sizes and times are unbounded integers.
- Lock timing: the deadline of `Acquire` is a flag of the step that tries the lock, and the sleep between tries is not modelled; the Windows lock is not part of this model.
- Mode detection, `FindByEventID`, `SegmentFiles`, and parse errors of the forwarder state: short branches that would only add easy members.
- Cursor clients: their locked operations are single steps while the lock is free, because they only read or replace the state file.
- Legacy.SegmentedRefinesLegacy: speaks of at least one call, because a segmented root without a manifest has no metadata while a missing legacy file has empty metadata; and of calls within the limits; beyond the line limit see `Limits.StoresPartAtLongLine`, beyond the segment limit `Limits.LastNameMakesUnreadable`.
- RateLimiter.Limiter.Allow: the per-address slice is a sequence in the map, copied to an array and compacted there in place, so sharing of the backing array is not captured.
- Mutexes of the rate limiter and the deny cache: each call is atomic.
- DenyCache.Validate: the service without a cache, and the hashing of the intent into its key, are not modelled.
- Signed timestamps: their text to the millisecond is a field, so records that differ below a millisecond are one; years outside 0000 to 9999 are not modelled.
- Lists that are nil and lists that are empty are one in every module.
- Intent: payload values of Go type `[]string`, fractional numbers and the `json.Number` form are not modelled.
- Segment scanning: the spaces and signs Go's scanner would also accept in a segment name are not modelled, since the comparison with the canonical name refuses them.
- Templates: `Placeholders` and `ValidateTemplate` would only add easy members.
- HTTP, SQL, CLI, MCP wiring and the web interface: plumbing.
