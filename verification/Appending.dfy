/**
 `appendSegmented` (pkg/evidence/segment.go:38-112) cut at the points where a process can stop:
 every `Advance` is one visible effect on the evidence root.
 */
module Appending {
  import opened Wrappers
  import opened Records
  import opened Disk
  import Strings
  import SegmentNames

  /** One call: the record, the clock reading, and the segment size taken from the environment. */
  datatype Job = Job(rec: Record, now: Time, maxBytes: int)

  function Submission(job: Job): Record {
    Stamp(job.rec, job.now)
  }

  datatype AppendError = ManifestUnreadable | Unhashable | BadListing

  /** Where a call stands; `m` is the manifest held in memory. */
  datatype Stage =
    | Entered
    | Creating
    | Loaded(m: Manifest)
    | Written(m: Manifest, rec: Record)
    | Rotated(m: Manifest, rec: Record)
    | Done(rec: Record)
    | Failed(error: AppendError)

  datatype Progress = Progress(root: Root, stage: Stage)

  /** `appendRecordLine`, creating the file when it is missing. */
  function AddLine(files: Files, name: string, l: Line): Files {
    files[name := (if name in files then files[name] else []) + [l]]
  }

  function LineFor(c: Codec, r: Record): Line {
    Json(r, c.lineSize(r))
  }

  /** The manifest bookkeeping after the line has been written. */
  function Bumped(m: Manifest, r: Record): Manifest {
    m.(recordsTotal := m.recordsTotal + 1, lastHash := r.hash, policyRef := MergeRef(m.policyRef, r.policyRef))
  }

  /** The index after the last listed segment. */
  function NextIndex(names: seq<string>): Result<nat, string> {
    if names == [] then Ok(1)
    else match SegmentNames.ParseSegmentIndex(names[|names| - 1])
      case Ok(last) => Ok(last + 1)
      case Err(e) => Err(e)
  }

  /** Seal the current segment and open the next one once the file exceeds the segment size. */
  ghost function Rotate(files: Files, m: Manifest): Result<(Files, Manifest), string> {
    if m.currentSegment !in files || Size(files[m.currentSegment]) <= m.segmentMaxBytes then Ok((files, m))
    else
      var names :- SegmentNames.Listing(files.Keys);
      var next :- NextIndex(names);
      var current := SegmentNames.SegmentName(next);
      var sealed_ := Strings.Canonical(m.sealedSegments + [m.currentSegment]);
      Ok((if current in files then files else files[current := []],
          m.(currentSegment := current, sealedSegments := WithoutName(sealed_, current))))
  }

  /** The next effect of a call. */
  ghost function Advance(c: Codec, job: Job, p: Progress): Progress {
    var root := p.root;
    match p.stage
    case Entered => (
      match root.manifest
      case Absent =>
        Progress(root.(created := true, files := root.files[SegmentNames.SegmentName(1) := []]), Creating)
      case Corrupt => Progress(root, Failed(ManifestUnreadable))
      case Present(m) => Progress(root, Loaded(Normalized(m, job.maxBytes))))
    case Creating =>
      var m := InitialManifest(job.maxBytes);
      Progress(root.(manifest := Present(Published(m))), Loaded(m))
    case Loaded(m) => (
      match Link(c, m.lastHash, Submission(job))
      case None => Progress(root, Failed(Unhashable))
      case Some(r) =>
        Progress(root.(files := AddLine(root.files, m.currentSegment, LineFor(c, r))), Written(Bumped(m, r), r)))
    case Written(m, r) => (
      match Rotate(root.files, m)
      case Err(_) => Progress(root, Failed(BadListing))
      case Ok(next) => Progress(root.(files := next.0), Rotated(next.1, r)))
    case Rotated(m, r) => Progress(root.(manifest := Present(Published(m))), Done(r))
    case Done(_) => p
    case Failed(_) => p
  }

  /** A whole undisturbed call: five effects are always enough. */
  ghost function Append(c: Codec, root: Root, job: Job): Progress {
    var p := Advance(c, job, Advance(c, job, Progress(root, Entered)));
    Advance(c, job, Advance(c, job, Advance(c, job, p)))
  }

  /** An undisturbed call always ends, successfully or not. */
  lemma AppendEnds(c: Codec, root: Root, job: Job)
    ensures Append(c, root, job).stage.Done? || Append(c, root, job).stage.Failed?
  {
    hide Rotate, Link, Normalized, Published, SegmentNames.SegmentName;
    var p1 := Advance(c, job, Progress(root, Entered));
    var p2 := Advance(c, job, p1);
    assert p2.stage.Loaded? || p2.stage.Written? || p2.stage.Failed?;
    var p3 := Advance(c, job, p2);
    assert p3.stage.Written? || p3.stage.Rotated? || p3.stage.Failed?;
  }
}
