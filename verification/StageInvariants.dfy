/**
 What one effect of an append keeps, for the root and the stage of the call that holds the lock.
 */
module StageInvariants {
  import opened Records
  import opened Disk
  import opened Appending
  import opened Coherence
  import opened Grounding
  import SegmentNames
  import Strings

  /** The only files a root without a manifest can have. */
  ghost predicate Fresh(files: Files) {
    files == map[] || files == map[SegmentNames.SegmentName(1) := []]
  }

  /** The line of the call in progress is on disk but not yet in the published manifest. */
  predicate Unpublished(stage: Stage) {
    stage.Written? || stage.Rotated?
  }

  /** Always true: the published manifest is grounded and is behind the disk by exactly the orphaned lines. */
  ghost predicate Base(root: Root, stage: Stage, orphans: nat) {
    match root.manifest
    case Corrupt => false
    case Absent =>
      && orphans == 0
      && Fresh(root.files)
      && (stage.Entered? || (stage.Creating? && root.files != map[]))
    case Present(m) =>
      && Grounded(root.files, m)
      && Total(root.files) == m.recordsTotal + orphans + (if Unpublished(stage) then 1 else 0)
      && StageBase(root.files, m, stage)
  }

  ghost predicate StageBase(files: Files, m: Manifest, stage: Stage) {
    match stage
    case Creating => false
    case Loaded(m') => m' == m
    case Written(m', _) =>
      && Grounded(files, m')
      && m'.recordsTotal == m.recordsTotal + 1
      && m'.sealedSegments == m.sealedSegments
    case Rotated(m', _) =>
      && Grounded(files, m')
      && m'.recordsTotal == m.recordsTotal + 1
      && forall x :: x in m.sealedSegments ==> x in m'.sealedSegments
    case _ => true
  }

  /** Nothing sealed is written or unsealed. */
  ghost predicate SealedKept(a: Root, b: Root) {
    a.manifest.Present? ==>
      && b.manifest.Present?
      && forall x :: x in a.manifest.manifest.sealedSegments ==>
           && x in b.manifest.manifest.sealedSegments
           && x in a.files && x in b.files && b.files[x] == a.files[x]
  }

  /** True until a call is lost between its line and its manifest: the root holds exactly `subs`. */
  ghost predicate Clean(c: Codec, root: Root, stage: Stage, subs: seq<Record>, sub: Record) {
    match root.manifest
    case Corrupt => false
    case Absent => subs == []
    case Present(m) =>
      if stage.Written? then Coherent(c, root.files, stage.m, subs + [sub], false)
      else if stage.Rotated? then Coherent(c, root.files, stage.m, subs + [sub], true)
      else Coherent(c, root.files, m, subs, true)
  }

  function OrphansAfter(before: Stage, after: Stage, orphans: nat): nat {
    if before.Written? && after.Failed? then orphans + 1 else orphans
  }

  /** What one effect guarantees in every run. */
  ghost predicate StepKeeps(p: Progress, q: Progress, orphans: nat) {
    && Base(q.root, q.stage, OrphansAfter(p.stage, q.stage, orphans))
    && Grows(p.root.files, q.root.files)
    && SealedKept(p.root, q.root)
  }

  lemma EnteredKeeps(c: Codec, job: Job, p: Progress, orphans: nat)
    requires p.stage.Entered? && Base(p.root, p.stage, orphans) && job.maxBytes > 0
    ensures StepKeeps(p, Advance(c, job, p), orphans)
  {
    hide SegmentNames.SegmentName, Numbered, Total, Normalized, Published, Rotate, Link, AddLine, Bumped;
    match p.root.manifest
    case Absent =>
      var name := SegmentNames.SegmentName(1);
      var files' := p.root.files[name := []];
      assert files' == map[name := []];
      assert name in files';
    case Present(m) =>
      GroundedSettles(p.root.files, m, job.maxBytes);
  }

  lemma CreatingKeeps(c: Codec, job: Job, p: Progress, orphans: nat)
    requires p.stage.Creating? && Base(p.root, p.stage, orphans) && job.maxBytes > 0
    ensures StepKeeps(p, Advance(c, job, p), orphans)
  {
    hide SegmentNames.SegmentName, Grounded, Total, Published;
    InitialGrounded(job.maxBytes);
  }

  lemma LoadedKeeps(c: Codec, job: Job, p: Progress, orphans: nat)
    requires p.stage.Loaded? && Base(p.root, p.stage, orphans)
    ensures StepKeeps(p, Advance(c, job, p), orphans)
  {
    hide SegmentNames.SegmentName, Numbered, Total, Link, AddLine, Rotate, Normalized, Published,
         Strings.Canonical, Grows;
    var m := p.stage.m;
    GrowsSame(p.root.files, p.root.files);
    var linked := Link(c, m.lastHash, Submission(job));
    if linked.Some? {
      GroundedWrite(p.root.files, m, LineFor(c, linked.value));
    }
  }

  lemma WrittenKeeps(c: Codec, job: Job, p: Progress, orphans: nat)
    requires p.stage.Written? && Base(p.root, p.stage, orphans)
    ensures StepKeeps(p, Advance(c, job, p), orphans)
  {
    hide SegmentNames.SegmentName, Numbered, Total, Rotate, Link, AddLine, Bumped, Normalized, Published,
         Strings.Canonical, Grows;
    var m := p.stage.m;
    GroundedRotate(p.root.files, m);
    GrowsSame(p.root.files, p.root.files);
    if Rotate(p.root.files, m).Ok? {
      GrowsSame(p.root.files, Rotate(p.root.files, m).value.0);
      PublishedStaysGrounded(p.root.files, Rotate(p.root.files, m).value.0, p.root.manifest.manifest);
    }
  }

  /** The published manifest stays grounded while the files gain a segment. */
  lemma PublishedStaysGrounded(files: Files, files': Files, m: Manifest)
    requires Grounded(files, m) && Numbered(files')
    requires forall x :: x in files ==> x in files' && files'[x] == files[x]
    ensures Grounded(files', m)
  {
  }

  lemma RotatedKeeps(c: Codec, job: Job, p: Progress, orphans: nat)
    requires p.stage.Rotated? && Base(p.root, p.stage, orphans)
    ensures StepKeeps(p, Advance(c, job, p), orphans)
  {
    hide SegmentNames.SegmentName, Numbered, Total, Published, Rotate, Link, AddLine, Bumped, Normalized,
         Strings.Canonical, Grows;
    GrowsSame(p.root.files, p.root.files);
    GroundedSettles(p.root.files, p.stage.m, 0);
  }

  lemma AdvanceKeeps(c: Codec, job: Job, p: Progress, orphans: nat)
    requires Base(p.root, p.stage, orphans) && job.maxBytes > 0
    requires !p.stage.Done? && !p.stage.Failed?
    ensures StepKeeps(p, Advance(c, job, p), orphans)
  {
    hide Base, StepKeeps, Advance;
    match p.stage
    case Entered => EnteredKeeps(c, job, p, orphans);
    case Creating => CreatingKeeps(c, job, p, orphans);
    case Loaded(_) => LoadedKeeps(c, job, p, orphans);
    case Written(_, _) => WrittenKeeps(c, job, p, orphans);
    case Rotated(_, _) => RotatedKeeps(c, job, p, orphans);
  }

  /** A crash, or the end of a call, leaves an invariant that needs no holder. */
  lemma BaseReleased(root: Root, stage: Stage, orphans: nat)
    requires Base(root, stage, orphans)
    ensures Base(root, Entered, if Unpublished(stage) then orphans + 1 else orphans)
  {
    hide Grounded, Total, SegmentNames.SegmentName;
  }

  /** What one effect guarantees as long as nothing has been lost. */
  lemma AdvanceClean(c: Codec, job: Job, p: Progress, subs: seq<Record>)
    requires Base(p.root, p.stage, 0) && job.maxBytes > 0
    requires !p.stage.Done? && !p.stage.Failed?
    requires Clean(c, p.root, p.stage, subs, Submission(job))
    ensures var q := Advance(c, job, p);
            OrphansAfter(p.stage, q.stage, 0) == 0 ==>
              Clean(c, q.root, q.stage, if q.stage.Done? then subs + [Submission(job)] else subs, Submission(job))
  {
    hide SegmentNames.SegmentName, Coherent, Grounded, Total, Link, Rotate, AddLine, Bumped, Published, Normalized;
    var sub := Submission(job);
    match p.stage
    case Entered =>
    case Creating => InitialCoherent(c, job.maxBytes);
    case Loaded(m) =>
      var linked := Link(c, m.lastHash, sub);
      if linked.Some? {
        WriteCoherent(c, p.root.files, m, subs, sub, linked.value);
      }
    case Written(m, _) => RotateCoherent(c, p.root.files, m, subs + [sub]);
    case Rotated(m, _) => CoherentSettles(c, p.root.files, m, subs + [sub]);
  }

  lemma CoherentSettles(c: Codec, files: Files, m: Manifest, subs: seq<Record>)
    requires Coherent(c, files, m, subs, true)
    ensures Published(m) == m
  {
    hide Layout, Rotation, Stream, IsChainOf, Encoded, Caches, Published, Normalized;
    LayoutSettles(files, m, 0);
  }
}
