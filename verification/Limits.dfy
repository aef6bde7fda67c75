/**
 Runs in which every append succeeds and the validator or the reader then refuses the store: more than one policy,
 a line over the scanner's limit, and one segment more than six digits can name
 (pkg/evidence/segment.go:38-112, pkg/evidence/segment.go:164-170, pkg/evidence/io.go:18, pkg/evidence/segment.go:259).
 */
module Limits {
  import opened Wrappers
  import opened Records
  import opened Disk
  import opened Validation
  import opened Appending
  import opened Coherence
  import opened Grounding
  import opened StageInvariants
  import opened Acceptance
  import opened Legacy
  import SegmentNames
  import Strings

  /** Every record can be hashed. */
  ghost predicate Hashes(c: Codec) {
    forall p :: c.hash(p).Some?
  }

  ghost predicate Positive(jobs: seq<Job>) {
    forall i :: 0 <= i < |jobs| ==> jobs[i].maxBytes > 0
  }

  function Submitted(jobs: seq<Job>): (subs: seq<Record>)
    ensures |subs| == |jobs|
  {
    seq(|jobs|, i requires 0 <= i < |jobs| => Submission(jobs[i]))
  }

  ghost predicate AllSucceed(outcomes: seq<Result<Record, AppendError>>, calls: nat) {
    |outcomes| == calls && forall i :: 0 <= i < calls ==> outcomes[i].Ok?
  }

  lemma HashesLink(c: Codec, prev: string, r: Record)
    requires Hashes(c)
    ensures Link(c, prev, r).Some?
  {
  }

  /** One call succeeds whenever the store it finds is within the segment limit. */
  lemma CallSucceeds(c: Codec, root: Root, job: Job, subs: seq<Record>)
    requires Hashes(c) && SegmentedHolds(c, root, subs) && job.maxBytes > 0 && |root.files| <= SegmentNames.LIMIT
    ensures var p := Append(c, root, job);
            p.stage.Done? && SegmentedHolds(c, p.root, subs + [Submission(job)]) && p.root.manifest.Present?
  {
    hide Append, SegmentedHolds, Stored, Link, Numbered, Base;
    SequentialAppend(c, root, job, subs);
    HashesLink(c, LastHash(Stored(root)), Submission(job));
    HoldsBase(c, root, subs);
    AppendWithinBudget(c, root, job, 0);
  }

  lemma HoldsBase(c: Codec, root: Root, subs: seq<Record>)
    requires SegmentedHolds(c, root, subs)
    ensures Base(root, Entered, 0)
  {
  }

  /** With a hash that never fails, up to 999999 calls all succeed, and the store holds all of them. */
  lemma {:induction false} AppendsSucceed(c: Codec, jobs: seq<Job>)
    requires Hashes(c) && Positive(jobs) && |jobs| <= SegmentNames.LIMIT
    ensures var s := RunSegmented(c, jobs);
            && AllSucceed(s.outcomes, |jobs|)
            && SegmentedHolds(c, s.root, Submitted(jobs))
            && (jobs != [] ==> s.root.manifest.Present?)
  {
    hide Append, SegmentedHolds, Hashes;
    if jobs == [] {
      EmptyRuns(c);
      assert Submitted(jobs) == [];
    } else {
      var n := |jobs| - 1;
      AppendsSucceed(c, jobs[..n]);
      SegmentsPerCall(c, jobs[..n]);
      CallSucceeds(c, RunSegmented(c, jobs[..n]).root, jobs[n], Submitted(jobs[..n]));
      assert Submitted(jobs) == Submitted(jobs[..n]) + [Submission(jobs[n])];
    }
  }

  /** Whether the store these calls leave is read and accepted. */
  lemma VerdictOfRun(c: Codec, jobs: seq<Job>, maxBytes: int)
    requires Hashes(c) && Positive(jobs) && 0 < |jobs| <= SegmentNames.LIMIT
    ensures var root := RunSegmented(c, jobs).root;
            var readable := |root.files| <= SegmentNames.LIMIT && Fits(c, Stored(root));
            && (ReadAll(root).Ok? <==> readable)
            && (Validate(c, root, maxBytes) == Accepted <==> readable && Uniform(Submitted(jobs)))
  {
    hide RunSegmented, SegmentedHolds, Hashes, Positive, ReadAll, Validate, Uniform, Fits, Log, Numbered, RecordsOf,
         IsChainOf, Normalized, SoundStore, Stream, Caches, Coherent, Submitted, SegmentNames.SegmentName;
    var root, subs := RunSegmented(c, jobs).root, Submitted(jobs);
    AppendsSucceed(c, jobs);
    HoldsStored(c, root, subs);
    var m := root.manifest.manifest;
    CoherentLog(c, root.files, m, subs, true);
    CoherentReads(c, root, m, subs, true);
    ValidateExactly(c, root, maxBytes);
    CoherentValidates(c, root.files, m, subs, true);
    CoherentNormalized(c, root.files, m, subs, maxBytes);
  }

  /** Two policies: every call succeeds, and no later validation accepts the store. */
  lemma MixedPoliciesAreAppended(c: Codec, jobs: seq<Job>, i: nat, j: nat, maxBytes: int)
    requires Hashes(c) && Positive(jobs) && |jobs| <= SegmentNames.LIMIT && i < |jobs| && j < |jobs|
    requires jobs[i].rec.policyRef != "" && jobs[j].rec.policyRef != ""
    requires jobs[i].rec.policyRef != jobs[j].rec.policyRef
    ensures AllSucceed(RunSegmented(c, jobs).outcomes, |jobs|)
    ensures Validate(c, RunSegmented(c, jobs).root, maxBytes) != Accepted
  {
    hide RunSegmented, Hashes, Validate, Fits, Stored, ReadAll, AllSucceed;
    AppendsSucceed(c, jobs);
    VerdictOfRun(c, jobs, maxBytes);
    assert Submitted(jobs)[i].policyRef == jobs[i].rec.policyRef;
    assert Submitted(jobs)[j].policyRef == jobs[j].rec.policyRef;
  }

  /** The line of a submitted record is too long wherever in the chain it ends up. */
  ghost predicate TooLong(c: Codec, sub: Record) {
    forall prev, h :: c.lineSize(sub.(previousHash := prev, hash := h)) > MAX_LINE
  }

  /** One record whose line is too long: every call succeeds, and the store can be neither read nor validated. */
  lemma LongLinesAreAppended(c: Codec, jobs: seq<Job>, i: nat, maxBytes: int)
    requires Hashes(c) && Positive(jobs) && |jobs| <= SegmentNames.LIMIT && i < |jobs|
    requires TooLong(c, Submission(jobs[i]))
    ensures AllSucceed(RunSegmented(c, jobs).outcomes, |jobs|)
    ensures ReadAll(RunSegmented(c, jobs).root).Err?
    ensures Validate(c, RunSegmented(c, jobs).root, maxBytes) != Accepted
  {
    hide RunSegmented, Hashes, Validate, Stored, ReadAll, SegmentedHolds, Uniform, AllSucceed, Submission;
    AppendsSucceed(c, jobs);
    VerdictOfRun(c, jobs, maxBytes);
    var recs := Stored(RunSegmented(c, jobs).root);
    HoldsStored(c, RunSegmented(c, jobs).root, Submitted(jobs));
    assert Link(c, LastHash(recs[..i]), Submitted(jobs)[i]) == Some(recs[i]);
    assert recs[i] == Submission(jobs[i]).(previousHash := LastHash(recs[..i]), hash := recs[i].hash);
  }

  // ----- The last segment name

  /** The configured size is in force on disk and in memory. */
  ghost predicate SizeIs(p: Progress, maxBytes: int) {
    && (p.root.manifest.Present? ==> p.root.manifest.manifest.segmentMaxBytes == maxBytes)
    && (p.stage.Loaded? || p.stage.Written? || p.stage.Rotated? ==> p.stage.m.segmentMaxBytes == maxBytes)
  }

  lemma SizeStays(c: Codec, job: Job, p: Progress)
    requires SizeIs(p, job.maxBytes) && job.maxBytes > 0
    ensures SizeIs(Advance(c, job, p), job.maxBytes)
  {
    hide SegmentNames.SegmentName, SegmentNames.Listing, Link, AddLine, NextIndex, Size, Strings.Canonical, WithoutName;
  }

  lemma SizeStaysInCall(c: Codec, root: Root, job: Job)
    requires SizeIs(Progress(root, Entered), job.maxBytes) && job.maxBytes > 0
    ensures SizeIs(Append(c, root, job), job.maxBytes)
  {
    hide SizeIs, Advance;
    var p0 := Progress(root, Entered);
    var p1 := Advance(c, job, p0);
    var p2 := Advance(c, job, p1);
    var p3 := Advance(c, job, p2);
    SizeStays(c, job, p0);
    SizeStays(c, job, p1);
    SizeStays(c, job, p2);
    SizeStays(c, job, p3);
    SizeStays(c, job, Advance(c, job, p3));
  }

  lemma {:induction false} SizeOfRun(c: Codec, jobs: seq<Job>, maxBytes: int)
    requires maxBytes > 0 && forall i :: 0 <= i < |jobs| ==> jobs[i].maxBytes == maxBytes
    ensures SizeIs(Progress(RunSegmented(c, jobs).root, Entered), maxBytes)
  {
    hide Append;
    if jobs != [] {
      var n := |jobs| - 1;
      SizeOfRun(c, jobs[..n], maxBytes);
      SizeStaysInCall(c, RunSegmented(c, jobs[..n]).root, jobs[n]);
    }
  }

  /** Lines that each exceed the segment size. */
  ghost predicate Oversized(lines: seq<Line>, maxBytes: int) {
    forall i :: 0 <= i < |lines| ==> lines[i].size > maxBytes
  }

  lemma {:induction false} OversizedFills(lines: seq<Line>, maxBytes: int)
    requires Oversized(lines, maxBytes) && maxBytes > 0
    ensures Size(lines) <= maxBytes <==> lines == []
    ensures JustOver(lines, maxBytes) ==> |lines| == 1
  {
    if |lines| > 1 { OversizedFills(lines[..|lines| - 1], maxBytes); }
  }

  /** Files of one line each. */
  lemma {:induction false} OneLineEach(files: Files, names: seq<string>, maxBytes: int)
    requires maxBytes > 0 && forall x :: x in names ==> x in files && JustOver(files[x], maxBytes)
    requires Oversized(AllLines(files, names), maxBytes)
    ensures |AllLines(files, names)| == |names|
  {
    hide JustOver;
    if names != [] {
      var n := |names| - 1;
      var before, last := AllLines(files, names[..n]), files[names[n]];
      assert forall i :: 0 <= i < |before| ==> before[i] == (before + last)[i];
      assert forall i :: 0 <= i < |last| ==> last[i] == (before + last)[|before| + i];
      OneLineEach(files, names[..n], maxBytes);
      OversizedFills(last, maxBytes);
    }
  }

  /** When every line exceeds the segment size, every record has its own sealed segment. */
  lemma OneRecordPerSegment(c: Codec, files: Files, m: Manifest, subs: seq<Record>)
    requires Coherent(c, files, m, subs, true) && forall r :: c.lineSize(r) > m.segmentMaxBytes
    ensures SegmentCount(m) == |subs| + 1
  {
    hide SegmentNames.SegmentName, SegmentNames.Names, IsChainOf, JustOver, Size, Caches;
    LayoutNames(files, m);
    MemberOfSnoc(m.sealedSegments, m.currentSegment);
    var lines, current := AllLines(files, m.sealedSegments), files[m.currentSegment];
    EncodedReadable(c, Stream(files, m));
    ChainLength(c, RecordsOf(Stream(files, m)), subs);
    assert Oversized(Stream(files, m), m.segmentMaxBytes);
    assert forall i :: 0 <= i < |lines| ==> lines[i] == Stream(files, m)[i];
    assert forall i :: 0 <= i < |current| ==> current[i] == Stream(files, m)[|lines| + i];
    OversizedFills(current, m.segmentMaxBytes);
    OneLineEach(files, m.sealedSegments, m.segmentMaxBytes);
  }

  /** Then k calls leave exactly k + 1 segments: the bound of `SegmentsPerCall` is reached. */
  lemma EveryCallOpensASegment(c: Codec, jobs: seq<Job>, maxBytes: int)
    requires Hashes(c) && maxBytes > 0 && 0 < |jobs| <= SegmentNames.LIMIT
    requires forall i :: 0 <= i < |jobs| ==> jobs[i].maxBytes == maxBytes
    requires forall r :: c.lineSize(r) > maxBytes
    ensures AllSucceed(RunSegmented(c, jobs).outcomes, |jobs|)
    ensures |RunSegmented(c, jobs).root.files| == |jobs| + 1
  {
    hide RunSegmented, SegmentedHolds, Coherent, Log, Numbered, IsChainOf, Caches, Hashes, AllSucceed, Stored,
         Submitted;
    var root := RunSegmented(c, jobs).root;
    AppendsSucceed(c, jobs);
    HoldsStored(c, root, Submitted(jobs));
    SizeOfRun(c, jobs, maxBytes);
    var m := root.manifest.manifest;
    OneRecordPerSegment(c, root.files, m, Submitted(jobs));
    CoherentLog(c, root.files, m, Submitted(jobs), true);
  }

  /** The 999999th such call succeeds, and the store it leaves can be neither read nor validated. */
  lemma LastNameMakesUnreadable(c: Codec, jobs: seq<Job>, maxBytes: int)
    requires Hashes(c) && maxBytes > 0 && |jobs| == SegmentNames.LIMIT
    requires forall i :: 0 <= i < |jobs| ==> jobs[i].maxBytes == maxBytes
    requires forall r :: c.lineSize(r) > maxBytes
    ensures AllSucceed(RunSegmented(c, jobs).outcomes, |jobs|)
    ensures ReadAll(RunSegmented(c, jobs).root).Err?
    ensures Validate(c, RunSegmented(c, jobs).root, maxBytes) != Accepted
  {
    hide RunSegmented, Hashes, Validate, Stored, ReadAll, Uniform, AllSucceed, Fits, Submitted;
    EveryCallOpensASegment(c, jobs, maxBytes);
    VerdictOfRun(c, jobs, maxBytes);
  }

  // ----- The two stores beyond the line limit

  /** The legacy log follows the segmented store until a line is too long, and is unreadable from then on. */
  ghost predicate LegacyFollows(c: Codec, root: Root, f: LegacyFile, subs: seq<Record>) {
    if Fits(c, Stored(root)) then LegacyHolds(c, f, subs) else !Readable(LinesOf(f))
  }

  lemma UnreadableStays(c: Codec, f: LegacyFile, job: Job)
    requires !Readable(LinesOf(f))
    ensures AppendLegacy(c, f, job).0 == f && AppendLegacy(c, f, job).1.Err?
  {
    hide Link, ReadLines, Readable;
    ReadLinesSpec(LinesOf(f));
  }

  lemma StoredGains(c: Codec, root: Root, job: Job, subs: seq<Record>)
    requires Hashes(c) && SegmentedHolds(c, root, subs) && job.maxBytes > 0 && |root.files| <= SegmentNames.LIMIT
    ensures var p := Append(c, root, job);
            && p.stage.Done? && SegmentedHolds(c, p.root, subs + [Submission(job)])
            && Link(c, LastHash(Stored(root)), Submission(job)) == Some(p.stage.rec)
            && Stored(p.root) == Stored(root) + [p.stage.rec]
  {
    hide Append, SegmentedHolds, Stored, Link, IsChainOf, Submission, LastHash, Hashes;
    var p, sub := Append(c, root, job), Submission(job);
    CallSucceeds(c, root, job, subs);
    SequentialAppend(c, root, job, subs);
    HoldsStored(c, root, subs);
    HoldsStored(c, p.root, subs + [sub]);
    ChainLength(c, Stored(root), subs);
    IsChainOfSnoc(c, Stored(root), subs, p.stage.rec, sub);
    ChainUnique(c, Stored(p.root), Stored(root) + [p.stage.rec], subs + [sub]);
  }

  /** One call on both stores: the same outcome exactly while everything stored fits. */
  lemma CallOnBoth(c: Codec, root: Root, f: LegacyFile, job: Job, subs: seq<Record>)
    requires Hashes(c) && SegmentedHolds(c, root, subs) && job.maxBytes > 0 && |root.files| <= SegmentNames.LIMIT
    requires LegacyFollows(c, root, f, subs)
    ensures var p, l := Append(c, root, job), AppendLegacy(c, f, job);
            && p.stage.Done?
            && (SameOutcome(OutcomeOf(p.stage), l.1) <==> Fits(c, Stored(root)))
            && (l.1.Ok? <==> Fits(c, Stored(root)))
            && LegacyFollows(c, p.root, l.0, subs + [Submission(job)])
  {
    hide Append, AppendLegacy, SegmentedHolds, Stored, Link, Submission, LastHash, Hashes, Readable, RecordsOf,
         IsChainOf, ReadLines;
    var p, sub := Append(c, root, job), Submission(job);
    StoredGains(c, root, job, subs);
    if Fits(c, Stored(root)) {
      LegacyReads(c, root, f, subs);
      LegacyStep(c, f, job, subs, Stored(root));
      var lines := LinesOf(AppendLegacy(c, f, job).0);
      EncodedReadable(c, lines);
      HoldsStored(c, p.root, subs + [sub]);
      ChainUnique(c, RecordsOf(lines), Stored(p.root), subs + [sub]);
    } else {
      UnreadableStays(c, f, job);
      MisfitStays(c, Stored(root), p.stage.rec);
    }
  }

  lemma MisfitStays(c: Codec, recs: seq<Record>, r: Record)
    requires !Fits(c, recs)
    ensures !Fits(c, recs + [r])
  {
    var i :| 0 <= i < |recs| && c.lineSize(recs[i]) > MAX_LINE;
    assert (recs + [r])[i] == recs[i];
  }

  lemma {:induction false} RunOnBoth(c: Codec, jobs: seq<Job>)
    requires Hashes(c) && Positive(jobs) && |jobs| <= SegmentNames.LIMIT
    ensures LegacyFollows(c, RunSegmented(c, jobs).root, RunLegacy(c, jobs).file, Submitted(jobs))
  {
    hide Append, AppendLegacy, SegmentedHolds, Hashes, LegacyFollows, Stored, SameOutcome, Fits;
    if jobs == [] {
      assert Submitted(jobs) == [];
      EmptyFollows(c);
    } else {
      var n := |jobs| - 1;
      RunOnBoth(c, jobs[..n]);
      AppendsSucceed(c, jobs[..n]);
      SegmentsPerCall(c, jobs[..n]);
      CallOnBoth(c, RunSegmented(c, jobs[..n]).root, RunLegacy(c, jobs[..n]).file, jobs[n], Submitted(jobs[..n]));
      assert Submitted(jobs) == Submitted(jobs[..n]) + [Submission(jobs[n])];
    }
  }

  lemma EmptyFollows(c: Codec)
    ensures LegacyFollows(c, EMPTY_ROOT, None, [])
  {
    hide LegacyHolds;
    EmptyRuns(c);
  }

  /**
   After any run of hashable records the next call has the same outcome on both stores if and only if every line
   stored so far fits the scanner: past an over-long line the segmented store goes on accepting, and the legacy log
   refuses every call.
   */
  lemma StoresPartAtLongLine(c: Codec, jobs: seq<Job>, job: Job)
    requires Hashes(c) && Positive(jobs) && |jobs| < SegmentNames.LIMIT && job.maxBytes > 0
    ensures var s, l := RunSegmented(c, jobs), RunLegacy(c, jobs);
            var p, outcome := Append(c, s.root, job), AppendLegacy(c, l.file, job).1;
            && p.stage.Done?
            && (outcome.Ok? <==> Fits(c, Stored(s.root)))
            && (SameOutcome(OutcomeOf(p.stage), outcome) <==> Fits(c, Stored(s.root)))
  {
    hide RunSegmented, RunLegacy, Append, AppendLegacy, SegmentedHolds, Hashes, LegacyFollows, Stored, Fits;
    AppendsSucceed(c, jobs);
    SegmentsPerCall(c, jobs);
    RunOnBoth(c, jobs);
    CallOnBoth(c, RunSegmented(c, jobs).root, RunLegacy(c, jobs).file, job, Submitted(jobs));
  }

  // ----- Concrete runs

  const TERSE := Codec(p => Some("digest"), r => 2)

  /** Lines as long as what the record has to say. */
  const PLAIN := Codec(p => Some("digest"), (r: Record) => |r.result.stdout| + 100)

  /** A record that prints 64 KiB. */
  const LOUD := ZERO.(result := ZERO.result.(stdout := seq(MAX_LINE, i => 'x')))

  /** Concrete stores that appends built without complaint and that are refused. */
  lemma RefusalsHappen(maxBytes: int) returns (mixed: SegmentedRun, long: SegmentedRun, full: SegmentedRun)
    ensures AllSucceed(mixed.outcomes, 2) && Validate(TERSE, mixed.root, maxBytes) != Accepted
    ensures AllSucceed(long.outcomes, 2) && ReadAll(long.root).Err? && Validate(PLAIN, long.root, maxBytes) != Accepted
    ensures AllSucceed(full.outcomes, SegmentNames.LIMIT) && ReadAll(full.root).Err?
    ensures Validate(TERSE, full.root, 1) != Accepted
  {
    hide RunSegmented, Validate, ReadAll, AllSucceed;
    var job, loud := Job(ZERO, Time(1, 0), 1), Job(LOUD, Time(1, 0), 1);
    var first, second := Job(ZERO.(policyRef := "a"), Time(1, 0), 1), Job(ZERO.(policyRef := "b"), Time(1, 0), 1);
    var many := seq(SegmentNames.LIMIT, i => job);
    mixed := RunSegmented(TERSE, [first, second]);
    long := RunSegmented(PLAIN, [job, loud]);
    full := RunSegmented(TERSE, many);
    MixedPoliciesAreAppended(TERSE, [first, second], 0, 1, maxBytes);
    LongLinesAreAppended(PLAIN, [job, loud], 1, maxBytes);
    LastNameMakesUnreadable(TERSE, many, 1);
  }
}
