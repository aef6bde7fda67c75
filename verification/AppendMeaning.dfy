/**
 What one undisturbed append means for any root whatsoever, written out without the functions that compute it
 (pkg/evidence/segment.go:38-112).
 */
module AppendMeaning {
  import opened Wrappers
  import opened Records
  import opened Disk
  import opened Sorting
  import opened Appending
  import Strings
  import SegmentNames

  const FIRST := "evidence-000001.jsonl"

  lemma FirstName()
    ensures SegmentNames.SegmentName(1) == FIRST
  {
  }

  /** The stored record is the given one, in UTC, with the clock's time only where it had none, and its two hashes. */
  ghost predicate StoredFrom(job: Job, rec: Record) {
    var instant := if job.rec.timestamp.instant == 0 then job.now.instant else job.rec.timestamp.instant;
    rec == job.rec.(timestamp := Time(instant, 0), previousHash := rec.previousHash, hash := rec.hash)
  }

  lemma LinkedIsStored(c: Codec, prev: string, job: Job)
    ensures match Link(c, prev, Submission(job))
            case None => ComputeHash(c, Submission(job).(previousHash := prev)) == None
            case Some(rec) => StoredFrom(job, rec) && rec.previousHash == prev && ComputeHash(c, rec) == Some(rec.hash)
  {
  }

  /** The manifest a call finds, with the defaults of loading; its sealed segments as they are on disk. */
  function Found(root: Root, maxBytes: int): Manifest {
    match root.manifest
    case Present(m) =>
      Manifest(if m.currentSegment == "" then FIRST else m.currentSegment, m.sealedSegments,
        if m.segmentMaxBytes <= 0 then maxBytes else m.segmentMaxBytes, m.recordsTotal, m.lastHash, m.policyRef)
    case _ => Manifest(FIRST, [], maxBytes, 0, "", "")
  }

  /** The current segment with the new line; a call that finds no manifest starts it afresh. */
  function CurrentLines(c: Codec, root: Root, maxBytes: int, rec: Record): seq<Line> {
    var name := Found(root, maxBytes).currentSegment;
    (if root.manifest.Present? && name in root.files then root.files[name] else []) + [Json(rec, c.lineSize(rec))]
  }

  /** The files: one line more in the current segment, at most one new and empty segment, everything else as it was. */
  ghost predicate FilesAfter(c: Codec, root: Root, maxBytes: int, rec: Record, files: Files, next: string) {
    var name, lines := Found(root, maxBytes).currentSegment, CurrentLines(c, root, maxBytes, rec);
    && name in files && files[name] == lines
    && (forall x :: x in root.files && x != name ==> x in files && files[x] == root.files[x])
    && (forall x :: x in files ==> x in root.files || x == name || (x == next && files[x] == []))
  }

  /** The cached fields of the manifest. */
  ghost predicate CountsAfter(m: Manifest, rec: Record, m': Manifest) {
    && m'.recordsTotal == m.recordsTotal + 1
    && m'.lastHash == rec.hash
    && m'.segmentMaxBytes == m.segmentMaxBytes
    && m'.policyRef == if rec.policyRef == "" then m.policyRef
                       else if m.policyRef == "" || m.policyRef == rec.policyRef then rec.policyRef else ""
  }

  /** The segments of the manifest: the current one is sealed, and the next one opened, exactly when it is over size. */
  ghost predicate SegmentsAfter(m: Manifest, keys: set<string>, over: bool, m': Manifest) {
    && StrictlySorted(Strings.Less, m'.sealedSegments)
    && (forall x :: x in m'.sealedSegments <==>
          x != "" && x != m'.currentSegment && (x in m.sealedSegments || (over && x == m.currentSegment)))
    && if over then
         exists n: nat ::
           && n <= 999999 && SegmentNames.Matching(keys) == Elements(SegmentNames.Names(n))
           && m'.currentSegment == SegmentNames.SegmentName(n + 1)
       else m'.currentSegment == m.currentSegment
  }

  /** A successful call that stored `rec`. */
  ghost predicate Appended(c: Codec, root: Root, job: Job, after: Root, rec: Record) {
    var m := Found(root, job.maxBytes);
    && StoredFrom(job, rec) && rec.previousHash == m.lastHash && ComputeHash(c, rec) == Some(rec.hash)
    && after.manifest.Present?
    && var m' := after.manifest.manifest;
       && FilesAfter(c, root, job.maxBytes, rec, after.files, m'.currentSegment)
       && CountsAfter(m, rec, m')
       && SegmentsAfter(m, root.files.Keys + {m.currentSegment},
            Size(CurrentLines(c, root, job.maxBytes, rec)) > m.segmentMaxBytes, m')
       && m'.currentSegment in after.files
  }

  /** A call that failed: why, and what it left behind. */
  ghost predicate Refused(c: Codec, root: Root, job: Job, after: Root, error: AppendError) {
    var m := Found(root, job.maxBytes);
    match error
    case ManifestUnreadable => root.manifest.Corrupt? && after == root
    case Unhashable =>
      && !root.manifest.Corrupt? && (root.manifest.Present? ==> after == root)
      && exists rec :: StoredFrom(job, rec) && rec.previousHash == m.lastHash && ComputeHash(c, rec) == None
    case BadListing =>
      && !root.manifest.Corrupt? && (root.manifest.Present? ==> after.manifest == root.manifest)
      && exists rec :: StoredAndUnlisted(c, root, job, after, rec)
  }

  /** The line is written and the segment over size, but the segment files are not numbered 1..n within the limit. */
  ghost predicate StoredAndUnlisted(c: Codec, root: Root, job: Job, after: Root, rec: Record) {
    var m := Found(root, job.maxBytes);
    && StoredFrom(job, rec) && rec.previousHash == m.lastHash && ComputeHash(c, rec) == Some(rec.hash)
    && FilesAfter(c, root, job.maxBytes, rec, after.files, m.currentSegment)
    && Size(CurrentLines(c, root, job.maxBytes, rec)) > m.segmentMaxBytes
    && forall n: nat :: n <= 999999 ==>
         SegmentNames.Matching(root.files.Keys + {m.currentSegment}) != Elements(SegmentNames.Names(n))
  }

  // ----- Proof

  /** Root and manifest once loaded. */
  function LoadedRoot(root: Root, maxBytes: int): Root {
    if root.manifest.Absent? then
      Root(true, root.files[SegmentNames.SegmentName(1) := []], Present(Published(InitialManifest(maxBytes))))
    else root
  }

  function LoadedManifest(root: Root, maxBytes: int): Manifest {
    if root.manifest.Present? then Normalized(root.manifest.manifest, maxBytes) else InitialManifest(maxBytes)
  }

  /** A whole call in one expression. */
  ghost function Whole(c: Codec, root: Root, job: Job): Progress {
    if root.manifest.Corrupt? then Progress(root, Failed(ManifestUnreadable))
    else
      var root1, m1 := LoadedRoot(root, job.maxBytes), LoadedManifest(root, job.maxBytes);
      match Link(c, m1.lastHash, Submission(job))
      case None => Progress(root1, Failed(Unhashable))
      case Some(rec) =>
        var files2 := AddLine(root1.files, m1.currentSegment, LineFor(c, rec));
        match Rotate(files2, Bumped(m1, rec))
        case Err(_) => Progress(root1.(files := files2), Failed(BadListing))
        case Ok(next) => Progress(root1.(files := next.0, manifest := Present(Published(next.1))), Done(rec))
  }

  lemma AppendIsWhole(c: Codec, root: Root, job: Job)
    ensures Append(c, root, job) == Whole(c, root, job)
  {
    hide SegmentNames.SegmentName, Rotate, Link, AddLine, Bumped, Published, Normalized;
    var p1 := Advance(c, job, Progress(root, Entered));
    var p2 := Advance(c, job, p1);
    var p3 := Advance(c, job, p2);
    var p4 := Advance(c, job, p3);
    var root1, m1 := LoadedRoot(root, job.maxBytes), LoadedManifest(root, job.maxBytes);
    if root.manifest.Absent? {
      assert p2 == Progress(root1, Loaded(m1));
    } else if root.manifest.Present? {
      assert p1 == Progress(root1, Loaded(m1));
    }
  }

  /** Loading changes only what `Found` says, and the form of the sealed segments. */
  lemma LoadedIsFound(root: Root, maxBytes: int)
    requires !root.manifest.Corrupt?
    ensures var m, m1 := Found(root, maxBytes), LoadedManifest(root, maxBytes);
            m1 == m.(sealedSegments := m1.sealedSegments) && m1.sealedSegments == Strings.Canonical(m.sealedSegments)
  {
    hide SegmentNames.SegmentName;
    FirstName();
    Strings.CanonicalFixed([]);
  }

  /** What `Published` leaves of a manifest with a current segment. */
  lemma PublishedMeans(m: Manifest)
    requires m.currentSegment != ""
    ensures var m' := Published(m);
            && m' == m.(sealedSegments := m'.sealedSegments)
            && StrictlySorted(Strings.Less, m'.sealedSegments)
            && forall x :: x in m'.sealedSegments <==> x != "" && x != m.currentSegment && x in m.sealedSegments
  {
    hide Strings.Canonical, Strings.Less, SegmentNames.SegmentName;
    Strings.CanonicalSpec(m.sealedSegments);
    WithoutSorted(Strings.Canonical(m.sealedSegments), m.currentSegment);
  }

  /** Removing a name keeps the order. */
  lemma {:induction false} WithoutSorted(s: seq<string>, name: string)
    requires StrictlySorted(Strings.Less, s)
    ensures StrictlySorted(Strings.Less, WithoutName(s, name))
  {
    hide Strings.Less;
    if s != [] {
      var n := |s| - 1;
      WithoutSorted(s[..n], name);
      var before := WithoutName(s[..n], name);
      forall x | x in before ensures Strings.Less(x, s[n]) {
        var i :| 0 <= i < n && s[..n][i] == x;
        assert s[i] == x;
      }
    }
  }

  /** What a rotation leaves, for any manifest. */
  lemma RotateMeans(files: Files, m: Manifest)
    requires m.currentSegment in files && m.currentSegment != "" && Rotate(files, m).Ok?
    ensures var (files', m') := Rotate(files, m).value;
            var over := Size(files[m.currentSegment]) > m.segmentMaxBytes;
            && m' == m.(currentSegment := m'.currentSegment, sealedSegments := m'.sealedSegments)
            && m'.currentSegment != "" && m'.currentSegment in files'
            && (forall x :: x in files ==> x in files' && files'[x] == files[x])
            && (forall x :: x in files' ==> x in files || (x == m'.currentSegment && files'[x] == []))
            && (forall x :: x != "" && x != m'.currentSegment ==>
                  (x in m'.sealedSegments <==> x in m.sealedSegments || (over && x == m.currentSegment)))
            && if over then
                 exists n: nat ::
                   && n <= 999999 && SegmentNames.Matching(files.Keys) == Elements(SegmentNames.Names(n))
                   && m'.currentSegment == SegmentNames.SegmentName(n + 1)
               else m' == m && files' == files
  {
    hide SegmentNames.SegmentName, SegmentNames.Names, Size, NextIndex, Strings.Canonical, SegmentNames.Matching;
    if Size(files[m.currentSegment]) > m.segmentMaxBytes {
      var n := |SegmentNames.Matching(files.Keys)|;
      var names := SegmentNames.Listing(files.Keys).value;
      NextAfter(n);
      SegmentNames.SegmentNameShape(n + 1);
      Strings.CanonicalSpec(m.sealedSegments + [m.currentSegment]);
    }
  }

  lemma NextAfter(n: nat)
    requires n <= SegmentNames.LIMIT
    ensures NextIndex(SegmentNames.Names(n)) == Ok(n + 1)
  {
    hide SegmentNames.SegmentName, SegmentNames.ParseSegmentIndex;
    if n > 0 { SegmentNames.ParseInvertsName(SegmentNames.SegmentName(n), n); }
  }

  lemma RotateFails(files: Files, m: Manifest)
    requires m.currentSegment in files && Rotate(files, m).Err?
    ensures Size(files[m.currentSegment]) > m.segmentMaxBytes
    ensures forall n: nat :: n <= 999999 ==> SegmentNames.Matching(files.Keys) != Elements(SegmentNames.Names(n))
  {
    hide SegmentNames.SegmentName, SegmentNames.Names, Size, NextIndex, Strings.Canonical, SegmentNames.Matching;
    if SegmentNames.Listing(files.Keys).Ok? { NextAfter(|SegmentNames.Matching(files.Keys)|); }
    forall n: nat | n <= 999999 && SegmentNames.Matching(files.Keys) == Elements(SegmentNames.Names(n)) ensures false {
      SegmentNames.NamesDistinct(n);
      DistinctCount(SegmentNames.Names(n));
    }
  }

  /** The line is where it should be. */
  lemma LineIsAdded(c: Codec, root: Root, maxBytes: int, rec: Record)
    requires !root.manifest.Corrupt?
    ensures var name := Found(root, maxBytes).currentSegment;
            var files := AddLine(LoadedRoot(root, maxBytes).files, name, LineFor(c, rec));
            && FilesAfter(c, root, maxBytes, rec, files, name)
            && files.Keys == root.files.Keys + {name}
  {
    hide SegmentNames.SegmentName, Published;
    FirstName();
    var name := Found(root, maxBytes).currentSegment;
    var files := AddLine(LoadedRoot(root, maxBytes).files, name, LineFor(c, rec));
    forall x ensures x in files.Keys <==> x in root.files.Keys + {name} {
    }
  }

  /** Opening another segment keeps the files in order. */
  lemma FilesOpen(c: Codec, root: Root, maxBytes: int, rec: Record, files: Files, files': Files, next: string)
    requires FilesAfter(c, root, maxBytes, rec, files, Found(root, maxBytes).currentSegment)
    requires forall x :: x in files ==> x in files' && files'[x] == files[x]
    requires forall x :: x in files' ==> x in files || (x == next && files'[x] == [])
    ensures FilesAfter(c, root, maxBytes, rec, files', next)
  {
    hide Found, CurrentLines;
  }

  lemma BumpedMeans(m: Manifest, rec: Record)
    ensures CountsAfter(m, rec, Bumped(m, rec))
    ensures Bumped(m, rec).currentSegment == m.currentSegment && Bumped(m, rec).sealedSegments == m.sealedSegments
  {
  }

  lemma FoundHasName(root: Root, maxBytes: int)
    ensures Found(root, maxBytes).currentSegment != ""
  {
  }

  /** The last two effects of a successful call. */
  lemma RotatedIsAppended(c: Codec, root: Root, job: Job, rec: Record, files: Files, m1: Manifest)
    requires var m := Found(root, job.maxBytes);
             && m1 == m.(sealedSegments := Strings.Canonical(m.sealedSegments))
             && StoredFrom(job, rec) && rec.previousHash == m.lastHash && ComputeHash(c, rec) == Some(rec.hash)
             && FilesAfter(c, root, job.maxBytes, rec, files, m.currentSegment)
             && files.Keys == root.files.Keys + {m.currentSegment}
    requires Rotate(files, Bumped(m1, rec)).Ok?
    ensures var next := Rotate(files, Bumped(m1, rec)).value;
            forall created :: Appended(c, root, job, Root(created, next.0, Present(Published(next.1))), rec)
  {
    hide SegmentNames.SegmentName, SegmentNames.Names, SegmentNames.Matching, Found, CurrentLines, Size, Rotate,
         Published, Strings.Canonical, Strings.Less, StoredFrom, ComputeHash, Bumped, FilesAfter;
    var m := Found(root, job.maxBytes);
    var m2 := Bumped(m1, rec);
    var (files', m3) := Rotate(files, m2).value;
    BumpedMeans(m1, rec);
    FoundHasName(root, job.maxBytes);
    CurrentIsWritten(c, root, job.maxBytes, rec, files);
    RotateMeans(files, m2);
    PublishedMeans(m3);
    Strings.CanonicalSpec(m.sealedSegments);
    FilesOpen(c, root, job.maxBytes, rec, files, files', m3.currentSegment);
  }

  lemma CurrentIsWritten(c: Codec, root: Root, maxBytes: int, rec: Record, files: Files)
    requires FilesAfter(c, root, maxBytes, rec, files, Found(root, maxBytes).currentSegment)
    ensures var name := Found(root, maxBytes).currentSegment;
            name in files && files[name] == CurrentLines(c, root, maxBytes, rec)
  {
    hide Found, CurrentLines;
  }

  /**
   Whatever is on disk, an undisturbed call either stores its record, and the root is then exactly as `Appended`
   describes it, or fails for the reason `Refused` describes.
   */
  lemma AppendMeans(c: Codec, root: Root, job: Job)
    ensures var p := Append(c, root, job);
            match p.stage
            case Done(rec) => Appended(c, root, job, p.root, rec)
            case Failed(error) => Refused(c, root, job, p.root, error)
            case _ => false
  {
    hide Append, SegmentNames.SegmentName, Rotate, Link, AddLine, Bumped, Published, Normalized, Found, Appended,
         StoredFrom, FilesAfter, CurrentLines, Size, ComputeHash, Submission, SegmentNames.Matching, SegmentNames.Names;
    AppendIsWhole(c, root, job);
    if !root.manifest.Corrupt? {
      var m, m1 := Found(root, job.maxBytes), LoadedManifest(root, job.maxBytes);
      LoadedIsFound(root, job.maxBytes);
      LinkedIsStored(c, m.lastHash, job);
      match Link(c, m.lastHash, Submission(job))
      case None => Unlinked(c, job, m.lastHash);
      case Some(rec) =>
        LineIsAdded(c, root, job.maxBytes, rec);
        var files := AddLine(LoadedRoot(root, job.maxBytes).files, m.currentSegment, LineFor(c, rec));
        if Rotate(files, Bumped(m1, rec)).Ok? {
          RotatedIsAppended(c, root, job, rec, files, m1);
        } else {
          BumpedMeans(m1, rec);
          CurrentIsWritten(c, root, job.maxBytes, rec, files);
          RotateFails(files, Bumped(m1, rec));
          assert StoredAndUnlisted(c, root, job, Append(c, root, job).root, rec);
        }
    }
  }

  lemma Unlinked(c: Codec, job: Job, prev: string)
    requires ComputeHash(c, Submission(job).(previousHash := prev)) == None
    ensures exists rec :: StoredFrom(job, rec) && rec.previousHash == prev && ComputeHash(c, rec) == None
  {
    var rec := Submission(job).(previousHash := prev);
    assert StoredFrom(job, rec);
  }
}
