/**
 The flat legacy log (pkg/evidence/legacy.go) and the proof that the segmented store refines it.
 */
module Legacy {
  import opened Wrappers
  import opened Records
  import opened Disk
  import opened Validation
  import opened Appending
  import opened Coherence
  import opened Grounding
  import opened StageInvariants
  import opened Acceptance
  import opened AppendMeaning
  import SegmentNames
  import Strings

  /** `None` while the file does not exist. */
  type LegacyFile = Option<seq<Line>>

  function LinesOf(f: LegacyFile): seq<Line> {
    if f.Some? then f.value else []
  }

  datatype LegacyError = LogUnreadable(cause: ReadError) | RecordUnhashable

  /** `appendLegacy`: read the whole log for its last hash, then write one line. */
  function AppendLegacy(c: Codec, f: LegacyFile, job: Job): (LegacyFile, Result<Record, LegacyError>) {
    match ReadLines(LinesOf(f))
    case Err(e) => (f, Err(LogUnreadable(e)))
    case Ok(recs) =>
      match Link(c, LastHash(recs), Submission(job))
      case None => (f, Err(RecordUnhashable))
      case Some(r) => (Some(LinesOf(f) + [LineFor(c, r)]), Ok(r))
  }

  /** `validateLegacyChain`: the same callback as the segmented validator, without a manifest. */
  function ValidateLegacy(c: Codec, f: LegacyFile): Verdict {
    match CheckLines(c, LinesOf(f))
    case Err(why) => Rejected(why)
    case Ok(_) => Accepted
  }

  datatype Metadata = Metadata(records: int, lastHash: string, policyRef: string)

  /** One record of the metadata scan; `None` once two policies have been seen. */
  function ScanRecord(meta: Metadata, r: Record): Option<Metadata> {
    if r.policyRef != "" && meta.policyRef != "" && meta.policyRef != r.policyRef then None
    else Some(Metadata(meta.records + 1, r.hash, if meta.policyRef == "" then r.policyRef else meta.policyRef))
  }

  /** `metadataFromLegacyFile`; `None` stands for its error. */
  function ScanMetadata(lines: seq<Line>): Option<Metadata> {
    if lines == [] then Some(Metadata(0, "", ""))
    else
      var n := |lines| - 1;
      match ScanMetadata(lines[..n])
      case None => None
      case Some(meta) =>
        match ReadLine(lines[n])
        case Err(_) => None
        case Ok(recs) => if recs == [] then Some(meta) else ScanRecord(meta, recs[0])
  }

  /** `metadataAtPathUnlocked` on a segmented root: three manifest fields. */
  function ManifestMetadata(root: Root, maxBytes: int): Option<Metadata> {
    match root.manifest
    case Absent => None
    case Corrupt => None
    case Present(m0) =>
      var m := Normalized(m0, maxBytes);
      Some(Metadata(m.recordsTotal, m.lastHash, m.policyRef))
  }

  /** `Store.LastHash` in segmented and in legacy mode; `None` stands for an error. */
  function LastHashSegmented(root: Root, maxBytes: int): Option<string> {
    match root.manifest
    case Absent => Some("")
    case Corrupt => None
    case Present(m) => Some(Normalized(m, maxBytes).lastHash)
  }

  function LastHashLegacy(f: LegacyFile): Option<string> {
    match ReadLines(LinesOf(f))
    case Err(_) => None
    case Ok(recs) => Some(LastHash(recs))
  }

  /** The legacy scan succeeds exactly on readable logs under one policy, and then summarises them. */
  lemma {:induction false} ScanMetadataSpec(lines: seq<Line>)
    ensures ScanMetadata(lines).Some? <==> Readable(lines) && Uniform(RecordsOf(lines))
    ensures ScanMetadata(lines).Some? ==>
      var recs := RecordsOf(lines);
      ScanMetadata(lines) == Some(Metadata(|recs|, LastHash(recs), FirstRef(recs)))
  {
    hide Uniform, FirstRef, Readable;
    if lines == [] {
      EmptyScan();
    } else {
      var n := |lines| - 1;
      assert lines == lines[..n] + [lines[n]];
      ScanMetadataSpec(lines[..n]);
      LinesSnoc(lines[..n], lines[n]);
      if lines[n].Json? {
        UniformSnoc(RecordsOf(lines[..n]), lines[n].rec);
      } else {
        assert RecordsOf(lines[..n]) + [] == RecordsOf(lines[..n]);
      }
    }
  }

  lemma EmptyScan()
    ensures Readable([]) && Uniform([]) && FirstRef([]) == ""
  {
  }

  /** The legacy log as the code runs it. */
  class LegacyLog {
    const c: Codec
    var file: LegacyFile

    constructor (codec: Codec)
      ensures c == codec && file == None
    {
      c := codec;
      file := None;
    }

    /** `readLastRecord`, by reading everything. */
    method ReadLastHash() returns (r: Result<string, ReadError>)
      ensures r == match ReadLines(LinesOf(file)) case Ok(recs) => Ok(LastHash(recs)) case Err(e) => Err(e)
    {
      hide ReadLine;
      var lines := LinesOf(file);
      var records: seq<Record> := [];
      for i := 0 to |lines|
        invariant ReadLines(lines[..i]) == Ok(records)
      {
        assert lines[..i + 1][..i] == lines[..i];
        var read := ReadLine(lines[i]);
        if read.Err? {
          ReadErrorSticks(lines, i + 1);
          return Err(read.error);
        }
        records := records + read.value;
      }
      assert lines[..|lines|] == lines;
      r := Ok(if |records| == 0 then "" else records[|records| - 1].hash);
    }

    method Append(job: Job) returns (r: Result<Record, LegacyError>)
      modifies this`file
      ensures (file, r) == AppendLegacy(c, old(file), job)
      ensures r.Ok? ==>
        && StoredFrom(job, r.value) && ComputeHash(c, r.value) == Some(r.value.hash)
        && (var recs := RecordsOf(LinesOf(old(file)));
            r.value.previousHash == if recs == [] then "" else recs[|recs| - 1].hash)
        && file == Some(LinesOf(old(file)) + [Json(r.value, c.lineSize(r.value))])
      ensures r.Err? ==> file == old(file)
      ensures r.Err? ==>
        match r.error
        case LogUnreadable(_) => !Readable(LinesOf(old(file)))
        case RecordUnhashable =>
          && Readable(LinesOf(old(file)))
          && exists rec :: StoredFrom(job, rec) && ComputeHash(c, rec) == None
    {
      ReadLinesSpec(LinesOf(file));
      var last := ReadLastHash();
      if last.Err? { return Err(LogUnreadable(last.error)); }
      var linked := Link(c, last.value, Submission(job));
      LinkedIsStored(c, last.value, job);
      if linked.None? {
        Unlinked(c, job, last.value);
        return Err(RecordUnhashable);
      }
      file := Some(LinesOf(file) + [LineFor(c, linked.value)]);
      r := Ok(linked.value);
    }

    method ValidateChain() returns (v: Verdict)
      ensures v == ValidateLegacy(c, file)
    {
      hide CheckRecord, ReadLine;
      var lines := LinesOf(file);
      var prev, idx, policyRef := "", 0, "";
      for i := 0 to |lines|
        invariant CheckLines(c, lines[..i]) == Ok(Tally(prev, idx, policyRef))
      {
        assert lines[..i + 1][..i] == lines[..i];
        var checked := CheckLine(c, Tally(prev, idx, policyRef), lines[i]);
        if checked.Err? {
          RejectionSticks(c, lines, i + 1);
          return Rejected(checked.error);
        }
        prev, idx, policyRef := checked.value.prev, checked.value.total, checked.value.policyRef;
      }
      assert lines[..|lines|] == lines;
      return Accepted;
    }

    method ReadMetadata() returns (r: Option<Metadata>)
      ensures r == ScanMetadata(LinesOf(file))
    {
      hide ScanRecord, ReadLine;
      var lines := LinesOf(file);
      var meta := Metadata(0, "", "");
      for i := 0 to |lines|
        invariant ScanMetadata(lines[..i]) == Some(meta)
      {
        assert lines[..i + 1][..i] == lines[..i];
        var read := ReadLine(lines[i]);
        var next := if read.Err? then None
                    else if read.value == [] then Some(meta)
                    else ScanRecord(meta, read.value[0]);
        if next.None? {
          ScanErrorSticks(lines, i + 1);
          return None;
        }
        meta := next.value;
      }
      assert lines[..|lines|] == lines;
      r := Some(meta);
    }
  }

  lemma {:induction false} ScanErrorSticks(lines: seq<Line>, k: nat)
    requires k <= |lines| && ScanMetadata(lines[..k]) == None
    ensures ScanMetadata(lines) == None
    decreases |lines| - k
  {
    if k < |lines| {
      assert lines[..k + 1][..k] == lines[..k];
      ScanErrorSticks(lines, k + 1);
    } else {
      assert lines[..k] == lines;
    }
  }

  // ----- Refinement

  /** One store with the outcomes of the calls made on it. */
  datatype SegmentedRun = SegmentedRun(root: Root, outcomes: seq<Result<Record, AppendError>>)
  datatype LegacyRun = LegacyRun(file: LegacyFile, outcomes: seq<Result<Record, LegacyError>>)

  function OutcomeOf(stage: Stage): Result<Record, AppendError>
    requires stage.Done? || stage.Failed?
  {
    if stage.Done? then Ok(stage.rec) else Err(stage.error)
  }

  ghost function RunSegmented(c: Codec, jobs: seq<Job>): SegmentedRun {
    if jobs == [] then SegmentedRun(EMPTY_ROOT, [])
    else
      var n := |jobs| - 1;
      var before := RunSegmented(c, jobs[..n]);
      var p := Append(c, before.root, jobs[n]);
      AppendEnds(c, before.root, jobs[n]);
      SegmentedRun(p.root, before.outcomes + [OutcomeOf(p.stage)])
  }

  function RunLegacy(c: Codec, jobs: seq<Job>): LegacyRun {
    if jobs == [] then LegacyRun(None, [])
    else
      var n := |jobs| - 1;
      var before := RunLegacy(c, jobs[..n]);
      var (file, outcome) := AppendLegacy(c, before.file, jobs[n]);
      LegacyRun(file, before.outcomes + [outcome])
  }

  /** Same record, or an error on both sides. */
  predicate SameOutcome(a: Result<Record, AppendError>, b: Result<Record, LegacyError>) {
    (a.Ok? && b.Ok? && a.value == b.value) || (a.Err? && b.Err?)
  }

  ghost predicate SegmentedHolds(c: Codec, root: Root, subs: seq<Record>) {
    Base(root, Entered, 0) && forall sub :: Clean(c, root, Entered, subs, sub)
  }

  ghost predicate LegacyHolds(c: Codec, f: LegacyFile, subs: seq<Record>) {
    && Encoded(c, LinesOf(f))
    && IsChainOf(c, RecordsOf(LinesOf(f)), subs)
  }

  lemma HoldsStored(c: Codec, root: Root, subs: seq<Record>)
    requires SegmentedHolds(c, root, subs)
    ensures IsChainOf(c, Stored(root), subs)
    ensures root.manifest.Present? ==> root.manifest.manifest.lastHash == LastHash(Stored(root))
    ensures root.manifest.Present? ==> Coherent(c, root.files, root.manifest.manifest, subs, true)
  {
    hide Coherent, Grounded, Log, IsChainOf, LastHash, Total, Fresh, StageBase;
    assert Clean(c, root, Entered, subs, ZERO);
    if root.manifest.Present? {
      CoherentLog(c, root.files, root.manifest.manifest, subs, true);
    } else {
      EmptyChain(c);
    }
  }

  lemma EmptyChain(c: Codec)
    ensures IsChainOf(c, [], [])
  {
  }

  /** What a whole undisturbed call does to a root that holds `subs`. */
  lemma SequentialAppend(c: Codec, root: Root, job: Job, subs: seq<Record>)
    requires SegmentedHolds(c, root, subs) && job.maxBytes > 0
    ensures var p, sub := Append(c, root, job), Submission(job);
            match p.stage
            case Done(r) =>
              && Link(c, LastHash(Stored(root)), sub) == Some(r)
              && SegmentedHolds(c, p.root, subs + [sub]) && p.root.manifest.Present?
            case Failed(Unhashable) =>
              && Link(c, LastHash(Stored(root)), sub) == None
              && SegmentedHolds(c, p.root, subs) && p.root.manifest.Present?
            case Failed(BadListing) => Numbered(p.root.files) && |p.root.files| > SegmentNames.LIMIT
            case _ => false
  {
    hide Base, Clean, Advance, Stored, Link, Numbered;
    var p0 := Progress(root, Entered);
    var p1 := Advance(c, job, p0);
    StepTo(c, job, p0, subs);
    HoldsStored(c, root, subs);
    LoadSteps(c, job, root, subs);
    var loaded := if root.manifest.Present? then p1 else Advance(c, job, p1);
    LoadedSteps(c, job, loaded, subs);
  }

  /** Invariants across one effect of a call that loses nothing. */
  lemma StepTo(c: Codec, job: Job, p: Progress, subs: seq<Record>)
    requires Base(p.root, p.stage, 0) && Clean(c, p.root, p.stage, subs, Submission(job)) && job.maxBytes > 0
    requires !p.stage.Done? && !p.stage.Failed?
    ensures var q := Advance(c, job, p);
            OrphansAfter(p.stage, q.stage, 0) == 0 ==>
              && Base(q.root, q.stage, 0)
              && Clean(c, q.root, q.stage, if q.stage.Done? then subs + [Submission(job)] else subs, Submission(job))
  {
    hide Base, Clean, Advance;
    AdvanceKeeps(c, job, p, 0);
    AdvanceClean(c, job, p, subs);
  }

  /** The effects up to the loaded manifest: nothing is added to the log. */
  lemma LoadSteps(c: Codec, job: Job, root: Root, subs: seq<Record>)
    requires SegmentedHolds(c, root, subs) && job.maxBytes > 0
    ensures var p1 := Advance(c, job, Progress(root, Entered));
            var p := if root.manifest.Present? then p1 else Advance(c, job, p1);
            && p.stage.Loaded?
            && Base(p.root, p.stage, 0)
            && Clean(c, p.root, p.stage, subs, Submission(job))
            && p.stage.m.lastHash == LastHash(Stored(root))
  {
    hide Base, Clean, Stored, Link, Rotate, AddLine, Bumped, SegmentNames.SegmentName, Published;
    var p0 := Progress(root, Entered);
    HoldsStored(c, root, subs);
    NotCorrupt(c, root, subs);
    StepTo(c, job, p0, subs);
    if root.manifest.Absent? {
      StepTo(c, job, Advance(c, job, p0), subs);
    }
  }

  lemma NotCorrupt(c: Codec, root: Root, subs: seq<Record>)
    requires SegmentedHolds(c, root, subs)
    ensures !root.manifest.Corrupt?
    ensures root.manifest.Absent? ==> Stored(root) == []
  {
    hide Grounded, Coherent, Total, Log;
  }

  /** The effects after loading. */
  lemma LoadedSteps(c: Codec, job: Job, p: Progress, subs: seq<Record>)
    requires p.stage.Loaded? && job.maxBytes > 0
    requires Base(p.root, p.stage, 0) && Clean(c, p.root, p.stage, subs, Submission(job))
    ensures var sub, linked := Submission(job), Link(c, p.stage.m.lastHash, Submission(job));
            var q := Advance(c, job, Advance(c, job, Advance(c, job, p)));
            && Advance(c, job, q) == q
            && match q.stage
               case Done(r) =>
                 linked == Some(r) && SegmentedHolds(c, q.root, subs + [sub]) && q.root.manifest.Present?
               case Failed(Unhashable) =>
                 linked == None && SegmentedHolds(c, q.root, subs) && q.root.manifest.Present?
               case Failed(BadListing) => Numbered(q.root.files) && |q.root.files| > SegmentNames.LIMIT
               case _ => false
  {
    hide Base, Clean, Link, Rotate, AddLine, Bumped, SegmentNames.SegmentName, Published, Normalized, Numbered;
    var sub := Submission(job);
    var p1 := Advance(c, job, p);
    StepTo(c, job, p, subs);
    if p1.stage.Failed? {
      Finished(c, p1, subs, sub);
    } else {
      var p2 := Advance(c, job, p1);
      StepTo(c, job, p1, subs);
      if p2.stage.Failed? {
        RotationFailed(c, p1, subs, sub);
      } else {
        StepTo(c, job, p2, subs);
        Finished(c, Advance(c, job, p2), subs + [sub], sub);
      }
    }
  }

  lemma Finished(c: Codec, p: Progress, subs: seq<Record>, sub: Record)
    requires Base(p.root, p.stage, 0) && Clean(c, p.root, p.stage, subs, sub) && (p.stage.Done? || p.stage.Failed?)
    ensures SegmentedHolds(c, p.root, subs) && p.root.manifest.Present?
  {
    hide Coherent, Grounded, Total, Fresh;
    BaseReleased(p.root, p.stage, 0);
  }

  lemma RotationFailed(c: Codec, p: Progress, subs: seq<Record>, sub: Record)
    requires p.stage.Written? && Base(p.root, p.stage, 0) && Clean(c, p.root, p.stage, subs, sub)
    requires Rotate(p.root.files, p.stage.m).Err?
    ensures Numbered(p.root.files) && |p.root.files| > SegmentNames.LIMIT
  {
    hide Coherent, Rotate, Numbered, Total, SegmentNames.SegmentName, SegmentNames.Names;
    RotateCoherent(c, p.root.files, p.stage.m, subs + [sub]);
    CoherentLog(c, p.root.files, p.stage.m, subs + [sub], false);
  }

  /** One effect, or none once the call has ended. */
  lemma StepGrows(c: Codec, job: Job, p: Progress, orphans: nat) returns (after: nat)
    requires Base(p.root, p.stage, orphans) && job.maxBytes > 0
    ensures var q := Advance(c, job, p);
            Base(q.root, q.stage, after) && Grows(p.root.files, q.root.files)
  {
    hide Base, Rotate, Link, AddLine, Published, Normalized, SegmentNames.SegmentName;
    if p.stage.Done? || p.stage.Failed? {
      after := orphans;
      GrowsSame(p.root.files, p.root.files);
    } else {
      AdvanceKeeps(c, job, p, orphans);
      after := OrphansAfter(p.stage, Advance(c, job, p).stage, orphans);
    }
  }

  /** A whole call only adds to the files, whatever state the root is in. */
  lemma AppendGrows(c: Codec, root: Root, job: Job, orphans: nat) returns (after: nat)
    requires Base(root, Entered, orphans) && job.maxBytes > 0
    ensures var p := Append(c, root, job);
            Base(p.root, Entered, after) && Grows(root.files, p.root.files)
  {
    hide Base, Advance;
    var p0 := Progress(root, Entered);
    var k1 := StepGrows(c, job, p0, orphans);
    var p1 := Advance(c, job, p0);
    var k2 := StepGrows(c, job, p1, k1);
    var p2 := Advance(c, job, p1);
    var k3 := StepGrows(c, job, p2, k2);
    var p3 := Advance(c, job, p2);
    var k4 := StepGrows(c, job, p3, k3);
    var p4 := Advance(c, job, p3);
    var k5 := StepGrows(c, job, p4, k4);
    var p5 := Advance(c, job, p4);
    BaseReleased(p5.root, p5.stage, k5);
    after := if Unpublished(p5.stage) then k5 + 1 else k5;
  }

  lemma GrowsCount(a: Files, b: Files)
    requires Grows(a, b)
    ensures |a| <= |b|
  {
    assert a.Keys <= b.Keys;
    assert b.Keys == a.Keys + (b.Keys - a.Keys);
    assert |b.Keys| == |a.Keys| + |b.Keys - a.Keys|;
  }

  /** The legacy file holds the same records as the segmented root, and can be read. */
  lemma LegacyReads(c: Codec, root: Root, f: LegacyFile, subs: seq<Record>)
    requires SegmentedHolds(c, root, subs) && LegacyHolds(c, f, subs) && Fits(c, Stored(root))
    ensures RecordsOf(LinesOf(f)) == Stored(root)
    ensures Readable(LinesOf(f)) && ReadLines(LinesOf(f)) == Ok(Stored(root))
  {
    hide SegmentedHolds, Stored, Readable, RecordsOf, Encoded, IsChainOf;
    HoldsStored(c, root, subs);
    ChainUnique(c, RecordsOf(LinesOf(f)), Stored(root), subs);
    EncodedReadable(c, LinesOf(f));
    ReadLinesSpec(LinesOf(f));
  }

  /** What a call does to a readable legacy log. */
  lemma LegacyStep(c: Codec, f: LegacyFile, job: Job, subs: seq<Record>, recs: seq<Record>)
    requires LegacyHolds(c, f, subs) && RecordsOf(LinesOf(f)) == recs && ReadLines(LinesOf(f)) == Ok(recs)
    ensures var (f', outcome) := AppendLegacy(c, f, job);
            match Link(c, LastHash(recs), Submission(job))
            case None => outcome.Err? && f' == f
            case Some(r) => outcome == Ok(r) && LegacyHolds(c, f', subs + [Submission(job)])
  {
    hide Link, RecordsOf, IsChainOf, LastHash, ReadLines;
    var sub := Submission(job);
    var linked := Link(c, LastHash(recs), sub);
    if linked.Some? {
      LinesSnoc(LinesOf(f), LineFor(c, linked.value));
      ChainLength(c, recs, subs);
      IsChainOfSnoc(c, recs, subs, linked.value, sub);
    }
  }

  /** The same call on both stores has the same outcome and keeps them in step. */
  lemma StepAgrees(c: Codec, root: Root, f: LegacyFile, job: Job, subs: seq<Record>) returns (subs': seq<Record>)
    requires SegmentedHolds(c, root, subs) && LegacyHolds(c, f, subs) && Fits(c, Stored(root)) && job.maxBytes > 0
    requires |Append(c, root, job).root.files| <= SegmentNames.LIMIT
    ensures var p, l := Append(c, root, job), AppendLegacy(c, f, job);
            && (p.stage.Done? || p.stage.Failed?)
            && SameOutcome(OutcomeOf(p.stage), l.1)
            && SegmentedHolds(c, p.root, subs') && p.root.manifest.Present?
            && LegacyHolds(c, l.0, subs')
            && (p.stage.Done? ==> Stored(p.root) == Stored(root) + [p.stage.rec])
            && (p.stage.Failed? ==> Stored(p.root) == Stored(root))
  {
    hide Append, SegmentedHolds, LegacyHolds, AppendLegacy, Stored, Link, RecordsOf, IsChainOf, Fits, LastHash,
         ReadLines, Numbered, Submission;
    var p, sub := Append(c, root, job), Submission(job);
    AppendEnds(c, root, job);
    SequentialAppend(c, root, job, subs);
    HoldsStored(c, root, subs);
    LegacyReads(c, root, f, subs);
    LegacyStep(c, f, job, subs, Stored(root));
    subs' := if p.stage.Done? then subs + [sub] else subs;
    HoldsStored(c, p.root, subs');
    if p.stage.Done? {
      ChainLength(c, Stored(root), subs);
      IsChainOfSnoc(c, Stored(root), subs, p.stage.rec, sub);
      ChainUnique(c, Stored(p.root), Stored(root) + [p.stage.rec], subs');
    } else {
      ChainUnique(c, Stored(p.root), Stored(root), subs);
    }
  }

  /** Every record a run stored fits the scanner. */
  ghost predicate OutcomesFit(c: Codec, outcomes: seq<Result<Record, AppendError>>) {
    forall i :: 0 <= i < |outcomes| && outcomes[i].Ok? ==> c.lineSize(outcomes[i].value) <= MAX_LINE
  }

  /** The records that calls returned, in order. */
  function Returned(outcomes: seq<Result<Record, AppendError>>): seq<Record> {
    if outcomes == [] then []
    else
      var n := |outcomes| - 1;
      Returned(outcomes[..n]) + if outcomes[n].Ok? then [outcomes[n].value] else []
  }

  lemma {:induction false} RunsAgree(c: Codec, jobs: seq<Job>) returns (subs: seq<Record>)
    requires forall i :: 0 <= i < |jobs| ==> jobs[i].maxBytes > 0
    requires |RunSegmented(c, jobs).root.files| <= SegmentNames.LIMIT
    requires OutcomesFit(c, RunSegmented(c, jobs).outcomes)
    ensures var s, l := RunSegmented(c, jobs), RunLegacy(c, jobs);
            && SegmentedHolds(c, s.root, subs) && LegacyHolds(c, l.file, subs)
            && Stored(s.root) == Returned(s.outcomes) && Fits(c, Stored(s.root))
            && (jobs != [] ==> s.root.manifest.Present?)
            && |s.outcomes| == |l.outcomes| == |jobs|
            && forall i :: 0 <= i < |jobs| ==> SameOutcome(s.outcomes[i], l.outcomes[i])
  {
    hide SegmentedHolds, LegacyHolds, Stored, Append, AppendLegacy, Fits, OutcomesFit, SameOutcome;
    if jobs == [] {
      subs := [];
      EmptyRuns(c);
    } else {
      var n := |jobs| - 1;
      var before, after := RunSegmented(c, jobs[..n]), RunSegmented(c, jobs);
      OutcomesPrefix(c, jobs);
      GrowsFromBase(c, jobs);
      var subs0 := RunsAgree(c, jobs[..n]);
      subs := StepAgrees(c, before.root, RunLegacy(c, jobs[..n]).file, jobs[n], subs0);
      assert after.outcomes[..n] == before.outcomes;
      if after.outcomes[n].Ok? {
        FitsSnoc(c, Stored(before.root), after.outcomes[n].value);
      } else {
        assert Stored(before.root) + [] == Stored(before.root);
      }
    }
  }

  lemma FitsSnoc(c: Codec, recs: seq<Record>, r: Record)
    requires Fits(c, recs) && c.lineSize(r) <= MAX_LINE
    ensures Fits(c, recs + [r])
  {
  }

  lemma OutcomesPrefix(c: Codec, jobs: seq<Job>)
    requires jobs != [] && OutcomesFit(c, RunSegmented(c, jobs).outcomes)
    ensures OutcomesFit(c, RunSegmented(c, jobs[..|jobs| - 1]).outcomes)
    ensures var o := RunSegmented(c, jobs).outcomes;
            o != [] && (o[|o| - 1].Ok? ==> c.lineSize(o[|o| - 1].value) <= MAX_LINE)
  {
    hide Append;
    var before, after := RunSegmented(c, jobs[..|jobs| - 1]).outcomes, RunSegmented(c, jobs).outcomes;
    assert forall i :: 0 <= i < |before| ==> before[i] == after[i];
  }

  /** How many more segments a call at this stage could still have opened. */
  function StillOpens(stage: Stage): nat {
    if stage.Rotated? || stage.Done? then 0 else 1
  }

  /** Files counted as at least one, plus those still to come. */
  function SegmentBudget(p: Progress): nat {
    (if p.root.files == map[] then 1 else |p.root.files|) + StillOpens(p.stage)
  }

  lemma StepWithinBudget(c: Codec, job: Job, p: Progress, orphans: nat)
    requires Base(p.root, p.stage, orphans)
    ensures SegmentBudget(Advance(c, job, p)) <= SegmentBudget(p)
  {
    hide SegmentNames.SegmentName, SegmentNames.Listing, Link, Published, Normalized, NextIndex, Size,
         Strings.Canonical, Numbered, Total, WithoutName;
  }

  lemma AppendWithinBudget(c: Codec, root: Root, job: Job, orphans: nat)
    requires Base(root, Entered, orphans) && job.maxBytes > 0
    ensures SegmentBudget(Append(c, root, job)) <= SegmentBudget(Progress(root, Entered))
  {
    hide Base, Advance;
    var p0 := Progress(root, Entered);
    var p1 := Advance(c, job, p0);
    var p2 := Advance(c, job, p1);
    var p3 := Advance(c, job, p2);
    var p4 := Advance(c, job, p3);
    var k1 := StepGrows(c, job, p0, orphans);
    var k2 := StepGrows(c, job, p1, k1);
    var k3 := StepGrows(c, job, p2, k2);
    var k4 := StepGrows(c, job, p3, k3);
    StepWithinBudget(c, job, p0, orphans);
    StepWithinBudget(c, job, p1, k1);
    StepWithinBudget(c, job, p2, k2);
    StepWithinBudget(c, job, p3, k3);
    StepWithinBudget(c, job, p4, k4);
  }

  /** A run opens at most one segment per call after the first, so fewer than 999999 calls stay within the limit. */
  lemma {:induction false} SegmentsPerCall(c: Codec, jobs: seq<Job>)
    requires forall i :: 0 <= i < |jobs| ==> jobs[i].maxBytes > 0
    ensures |RunSegmented(c, jobs).root.files| <= |jobs| + 1
  {
    hide Append, Base;
    if jobs != [] {
      var n := |jobs| - 1;
      SegmentsPerCall(c, jobs[..n]);
      var orphans := RunBase(c, jobs[..n]);
      AppendWithinBudget(c, RunSegmented(c, jobs[..n]).root, jobs[n], orphans);
    }
  }

  /** Segment counts never shrink along a run. */
  lemma GrowsFromBase(c: Codec, jobs: seq<Job>)
    requires jobs != [] && forall i :: 0 <= i < |jobs| ==> jobs[i].maxBytes > 0
    ensures |RunSegmented(c, jobs[..|jobs| - 1]).root.files| <= |RunSegmented(c, jobs).root.files|
  {
    hide Append, Base, Grows;
    var n := |jobs| - 1;
    var before := RunSegmented(c, jobs[..n]).root;
    var k := RunBase(c, jobs[..n]);
    var _ := AppendGrows(c, before, jobs[n], k);
    GrowsCount(before.files, RunSegmented(c, jobs).root.files);
  }

  lemma {:induction false} RunBase(c: Codec, jobs: seq<Job>) returns (orphans: nat)
    requires forall i :: 0 <= i < |jobs| ==> jobs[i].maxBytes > 0
    ensures Base(RunSegmented(c, jobs).root, Entered, orphans)
  {
    hide Append, Base;
    if jobs == [] {
      orphans := 0;
      EmptyBase();
    } else {
      var n := |jobs| - 1;
      var before := RunBase(c, jobs[..n]);
      orphans := AppendGrows(c, RunSegmented(c, jobs[..n]).root, jobs[n], before);
    }
  }

  lemma EmptyBase()
    ensures Base(EMPTY_ROOT, Entered, 0)
  {
  }

  lemma EmptyRuns(c: Codec)
    ensures SegmentedHolds(c, EMPTY_ROOT, []) && LegacyHolds(c, None, [])
    ensures Stored(EMPTY_ROOT) == [] && Fits(c, [])
  {
  }

  /**
   The segmented store refines the legacy log. For every sequence of calls within the line and segment
   limits, the calls return the same records or errors on both stores, both streams deliver exactly the
   returned records, the last hashes are equal, both validators agree, and the manifest's constant-time
   metadata equals the legacy full scan if and only if the records name at most one policy.
   */
  lemma SegmentedRefinesLegacy(c: Codec, jobs: seq<Job>, maxBytes: int)
    requires jobs != [] && forall i :: 0 <= i < |jobs| ==> jobs[i].maxBytes > 0
    requires |RunSegmented(c, jobs).root.files| <= SegmentNames.LIMIT
    requires OutcomesFit(c, RunSegmented(c, jobs).outcomes)
    ensures var s, l := RunSegmented(c, jobs), RunLegacy(c, jobs);
            var recs := Returned(s.outcomes);
            && |s.outcomes| == |l.outcomes| == |jobs|
            && (forall i :: 0 <= i < |jobs| ==> SameOutcome(s.outcomes[i], l.outcomes[i]))
            && ReadAll(s.root) == Ok(recs)
            && ReadLines(LinesOf(l.file)) == Ok(recs)
            && LastHashSegmented(s.root, maxBytes) == LastHashLegacy(l.file) == Some(LastHash(recs))
            && (Validate(c, s.root, maxBytes) == Accepted <==> Uniform(recs))
            && (ValidateLegacy(c, l.file) == Accepted <==> Uniform(recs))
            && (ManifestMetadata(s.root, maxBytes) == ScanMetadata(LinesOf(l.file)) <==> Uniform(recs))
            && (Uniform(recs) ==>
                  ManifestMetadata(s.root, maxBytes) == Some(Metadata(|recs|, LastHash(recs), FirstRef(recs))))
  {
    hide RunSegmented, RunLegacy, SegmentedHolds, Stored, Readable, RecordsOf, Encoded, IsChainOf, Fits, Returned,
         ReadAll, ReadLines, Validate, ValidateLegacy, ScanMetadata, Uniform, FirstRef, MergedRef, OutcomesFit,
         LastHash;
    var s, l := RunSegmented(c, jobs), RunLegacy(c, jobs);
    var subs := RunsAgree(c, jobs);
    LegacyReads(c, s.root, l.file, subs);
    ScanMetadataSpec(LinesOf(l.file));
    SegmentedReads(c, s.root, subs, maxBytes);
    LegacyValidates(c, l.file, subs);
    var recs := Stored(s.root);
    if Uniform(recs) { UniformMerged(recs); }
  }

  /** Before the first call both stores are empty and accepted; only their metadata differ. */
  lemma EmptyStores(c: Codec, maxBytes: int)
    ensures ReadAll(EMPTY_ROOT) == Ok([]) && ReadLines(LinesOf(None)) == Ok([])
    ensures LastHashSegmented(EMPTY_ROOT, maxBytes) == Some("") && LastHashLegacy(None) == Some("")
    ensures Validate(c, EMPTY_ROOT, maxBytes) == Accepted && ValidateLegacy(c, None) == Accepted
    ensures ManifestMetadata(EMPTY_ROOT, maxBytes) == None && ScanMetadata(LinesOf(None)) == Some(Metadata(0, "", ""))
  {
    hide SegmentNames.SegmentName;
    assert SegmentNames.Matching({}) == {} && SegmentNames.Names(0) == [];
  }

  lemma LegacyValidates(c: Codec, f: LegacyFile, subs: seq<Record>)
    requires LegacyHolds(c, f, subs) && Readable(LinesOf(f))
    ensures ValidateLegacy(c, f) == Accepted <==> Uniform(RecordsOf(LinesOf(f)))
  {
    hide CheckLines, Readable, Uniform, Linked, Encoded;
    CheckLinesSpec(c, LinesOf(f));
    ChainsAreLinked(c, RecordsOf(LinesOf(f)), subs);
  }

  lemma SegmentedReads(c: Codec, root: Root, subs: seq<Record>, maxBytes: int)
    requires SegmentedHolds(c, root, subs) && root.manifest.Present? && Fits(c, Stored(root))
    requires |root.files| <= SegmentNames.LIMIT
    ensures ReadAll(root) == Ok(Stored(root))
    ensures Validate(c, root, maxBytes) == Accepted <==> Uniform(Stored(root))
    ensures Normalized(root.manifest.manifest, maxBytes) == root.manifest.manifest
    ensures Caches(root.manifest.manifest, Stored(root))
  {
    hide SegmentNames.SegmentName, ReadAll, Validate, Uniform, Fits, Log, Numbered, RecordsOf, IsChainOf,
         Normalized, SoundStore, Stream, Caches, Coherent;
    var m := root.manifest.manifest;
    HoldsStored(c, root, subs);
    CoherentLog(c, root.files, m, subs, true);
    CoherentReads(c, root, m, subs, true);
    ValidateExactly(c, root, maxBytes);
    CoherentValidates(c, root.files, m, subs, true);
    ChainKeepsPolicyRefs(c, Stored(root), subs);
    CoherentNormalized(c, root.files, m, subs, maxBytes);
  }

  lemma CoherentNormalized(c: Codec, files: Files, m: Manifest, subs: seq<Record>, maxBytes: int)
    requires Coherent(c, files, m, subs, true)
    ensures Normalized(m, maxBytes) == m
  {
    hide Layout, Rotation, Stream, IsChainOf, Encoded, Caches, Published, Normalized;
    LayoutSettles(files, m, maxBytes);
  }
}
