/**
 What the evidence store guarantees over every run of any number of writers and cursor clients.
 */
module Guarantees {
  import opened Wrappers
  import opened Records
  import opened Disk
  import opened Appending
  import opened Coherence
  import opened Grounding
  import opened Cursors
  import opened Acceptance
  import opened Protocol
  import opened StageInvariants
  import opened RunInvariants
  import opened Validation
  import AppendMeaning
  import Strings
  import SegmentNames

  /** The state after a run from an empty root. */
  ghost function After(c: Codec, steps: seq<Step>): State {
    Run(c, INITIAL, steps)
  }

  lemma Reachable(c: Codec, steps: seq<Step>)
    ensures Inv(c, After(c, steps))
  {
    hide Inv, Extends, Run;
    InitialInv(c);
    RunKeeps(c, INITIAL, steps);
  }

  /** The manifest a full re-read of the segments would write. */
  ghost function Reread(files: Files, maxBytes: int): Manifest
    requires Numbered(files)
  {
    var n, recs := |files|, Log(files);
    Manifest(SegmentNames.SegmentName(n), SegmentNames.Names(n - 1), maxBytes, |recs|, LastHash(recs), MergedRef(recs))
  }

  lemma CoherentByFiles(c: Codec, files: Files, m: Manifest, subs: seq<Record>)
    requires Coherent(c, files, m, subs, true)
    ensures Numbered(files) && |files| == SegmentCount(m)
    ensures Log(files) == RecordsOf(Stream(files, m))
    ensures IsChainOf(c, Log(files), subs)
    ensures m == Reread(files, m.segmentMaxBytes)
  {
    hide SegmentNames.SegmentName, SegmentNames.Names, IsChainOf, Stream, Rotation, Encoded, RecordsOf, MergedRef,
         LastHash, Log, Numbered;
    CoherentLog(c, files, m, subs, true);
  }

  // ----- Serialisation

  /** Two writers are never inside the lock at once. */
  lemma MutualExclusion(c: Codec, steps: seq<Step>, v: nat, w: nat)
    requires var s := After(c, steps);
             v in s.writers && s.writers[v].Inside? && w in s.writers && s.writers[w].Inside?
    ensures v == w && After(c, steps).holder == Some(v)
  {
    hide Base, Intact, CursorsHold, Run;
    Reachable(c, steps);
  }

  /**
   Whenever the lock is free and no call was lost between its line and its manifest, the store is one
   linked chain of exactly the successful submissions in lock-acquisition order, and the manifest is what
   a full re-read computes.
   */
  lemma SerializedAppends(c: Codec, steps: seq<Step>)
    requires After(c, steps).holder.None? && After(c, steps).orphans == 0
    ensures var s := After(c, steps);
            && Ordered(s)
            && match s.root.manifest
               case Corrupt => false
               case Absent => s.done == [] && Fresh(s.root.files)
               case Present(m) =>
                 && Numbered(s.root.files)
                 && IsChainOf(c, Log(s.root.files), Submissions(s))
                 && Linked(c, Log(s.root.files))
                 && HoldsCalls(s, Log(s.root.files))
                 && m == Reread(s.root.files, m.segmentMaxBytes)
                 && ReadsBack(c, s.root)
  {
    hide CursorsHold, Run, Grounded, StageBase, IsChainOf, Linked, Reread, Numbered, Log, Coherent, Fresh, ReadsBack,
         HoldsCalls;
    Reachable(c, steps);
    var s := After(c, steps);
    if s.root.manifest.Present? {
      var m := s.root.manifest.manifest;
      QuiescentCoherent(c, s, m);
      CoherentByFiles(c, s.root.files, m, Submissions(s));
      ChainsAreLinked(c, Log(s.root.files), Submissions(s));
      CoherentReadsBack(c, s.root, m, Submissions(s));
      ChainHoldsCalls(c, s, Log(s.root.files));
    } else {
      assert Clean(c, s.root, Entered, Submissions(s), ZERO);
    }
  }

  /** The i-th stored record is what the i-th successful call was given, with its time and hashes filled in. */
  ghost predicate HoldsCalls(s: State, recs: seq<Record>)
    requires Ordered(s)
  {
    && |recs| == |s.done|
    && forall i :: 0 <= i < |recs| ==> AppendMeaning.StoredFrom(s.acquired[s.done[i]], recs[i])
  }

  lemma ChainHoldsCalls(c: Codec, s: State, recs: seq<Record>)
    requires Ordered(s) && IsChainOf(c, recs, Submissions(s))
    ensures HoldsCalls(s, recs)
  {
    hide Link, AppendMeaning.StoredFrom;
    forall i | 0 <= i < |recs| ensures AppendMeaning.StoredFrom(s.acquired[s.done[i]], recs[i]) {
      AppendMeaning.LinkedIsStored(c, LastHash(recs[..i]), s.acquired[s.done[i]]);
      assert Link(c, LastHash(recs[..i]), Submissions(s)[i]) == Some(recs[i]);
    }
  }

  /** A reader streams exactly the log, unless a line or the number of segments is over its limit. */
  ghost predicate ReadsBack(c: Codec, root: Root)
    requires Numbered(root.files)
  {
    if |root.files| <= SegmentNames.LIMIT && Fits(c, Log(root.files)) then ReadAll(root) == Ok(Log(root.files))
    else ReadAll(root).Err?
  }

  lemma CoherentReadsBack(c: Codec, root: Root, m: Manifest, subs: seq<Record>)
    requires Coherent(c, root.files, m, subs, true)
    ensures Numbered(root.files) && ReadsBack(c, root)
  {
    hide Coherent, Numbered, Log, Fits, IsChainOf, Reread, RecordsOf, Stream, ReadAll;
    CoherentByFiles(c, root.files, m, subs);
    CoherentReads(c, root, m, subs, true);
  }

  lemma QuiescentCoherent(c: Codec, s: State, m: Manifest)
    requires Inv(c, s) && s.holder.None? && s.orphans == 0 && s.root.manifest == Present(m)
    ensures Coherent(c, s.root.files, m, Submissions(s), true)
  {
    hide CursorsHold, Base, Coherent;
    assert Clean(c, s.root, Entered, Submissions(s), ZERO);
  }

  // ----- One call alone

  predicate Ended(stage: Stage) {
    stage.Done? || stage.Failed?
  }

  /** Writer `w` has carried its call as far as `p`, or has finished it and left. */
  ghost predicate Follows(s: State, w: nat, ticket: nat, job: Job, p: Progress, done: seq<nat>) {
    && s.root == p.root
    && s.done == (if p.stage.Done? then done + [ticket] else done)
    && (|| (s.holder == Some(w) && w in s.writers && s.writers[w] == Inside(ticket, job, p.stage))
        || (s.holder.None? && w !in s.writers && Ended(p.stage)))
  }

  lemma ProceedFollows(c: Codec, s: State, w: nat, ticket: nat, job: Job, p: Progress, done: seq<nat>)
    requires Follows(s, w, ticket, job, p, done)
    ensures Follows(ProceedNext(c, s, w), w, ticket, job, Advance(c, job, p), done)
    ensures Ended(p.stage) ==> Advance(c, job, p) == p && ProceedNext(c, s, w).holder.None?
  {
    hide Rotate, Link, AddLine, Bumped, Published, Normalized, SegmentNames.SegmentName;
  }

  ghost function ProceedTimes(c: Codec, s: State, w: nat, k: nat): State {
    if k == 0 then s else ProceedNext(c, ProceedTimes(c, s, w, k - 1), w)
  }

  ghost function AdvanceTimes(c: Codec, job: Job, p: Progress, k: nat): Progress {
    if k == 0 then p else Advance(c, job, AdvanceTimes(c, job, p, k - 1))
  }

  lemma {:induction false} FollowsTimes(c: Codec, s: State, w: nat, ticket: nat, job: Job, p: Progress, k: nat)
    requires Follows(s, w, ticket, job, p, s.done) && !p.stage.Done?
    ensures Follows(ProceedTimes(c, s, w, k), w, ticket, job, AdvanceTimes(c, job, p, k), s.done)
  {
    hide Advance, ProceedNext, Follows;
    if k > 0 {
      FollowsTimes(c, s, w, ticket, job, p, k - 1);
      ProceedFollows(c, ProceedTimes(c, s, w, k - 1), w, ticket, job, AdvanceTimes(c, job, p, k - 1), s.done);
    }
  }

  lemma AppendIsFiveEffects(c: Codec, root: Root, job: Job)
    ensures AdvanceTimes(c, job, Progress(root, Entered), 5) == Append(c, root, job)
  {
    hide Advance;
    var p := Progress(root, Entered);
    assert AdvanceTimes(c, job, p, 1) == Advance(c, job, p);
    assert AdvanceTimes(c, job, p, 3) == Advance(c, job, Advance(c, job, AdvanceTimes(c, job, p, 1)));
  }

  /**
   A call that meets no competitor does exactly what `Append` says: from any lock-free state, entering,
   locking and proceeding six times leaves the root that `Append` computes, frees the lock, and records the
   call as successful exactly when `Append` ends in success.
   */
  lemma CallAlone(c: Codec, s: State, w: nat, job: Job)
    requires s.holder.None? && w !in s.writers && job.maxBytes > 0
    ensures var t := ProceedTimes(c, TryNext(StartNext(s, w, job), w, false), w, 6);
            var p := Append(c, s.root.(created := true), job);
            && t.root == p.root
            && t.holder.None?
            && t.done == if p.stage.Done? then s.done + [|s.acquired|] else s.done
  {
    hide Advance, ProceedNext;
    var s0 := TryNext(StartNext(s, w, job), w, false);
    var root := s.root.(created := true);
    var p0 := Progress(root, Entered);
    FollowsTimes(c, s0, w, |s.acquired|, job, p0, 5);
    AppendIsFiveEffects(c, root, job);
    AppendEnds(c, root, job);
    ProceedFollows(c, ProceedTimes(c, s0, w, 5), w, |s.acquired|, job, Append(c, root, job), s.done);
  }

  /** What `Store.Init` makes of a root: a store if there is none. */
  function Initialised(root: Root, maxBytes: int): Root {
    if !root.manifest.Absent? then root
    else Root(true, root.files[SegmentNames.SegmentName(1) := []], Present(Published(InitialManifest(maxBytes))))
  }

  /** A `Store.Init` that meets no competitor creates a store where there is none, and changes nothing else. */
  lemma InitAlone(c: Codec, s: State, w: nat, job: Job)
    requires s.holder.None? && w !in s.writers && job.maxBytes > 0 && !s.root.manifest.Corrupt?
    ensures var effects := if s.root.manifest.Absent? then 2 else 1;
            var t := LeaveNext(ProceedTimes(c, TryNext(StartNext(s, w, job), w, false), w, effects), w);
            && t.root == Initialised(s.root.(created := true), job.maxBytes)
            && t.holder.None? && t.writers == s.writers && t.done == s.done && t.orphans == s.orphans
  {
    hide SegmentNames.SegmentName, Rotate, Link, AddLine, Bumped, Published, Normalized;
    var entered := TryNext(StartNext(s, w, job), w, false);
    var first := ProceedNext(c, entered, w);
    assert ProceedTimes(c, entered, w, 1) == first;
    assert ProceedTimes(c, entered, w, 2) == ProceedNext(c, first, w);
    assert s.writers[w := Waiting(job)] - {w} == s.writers;
  }

  // ----- Rotation

  /**
   Without lost calls, `sealed_segments` names segments 1..n-1 and `current_segment` segment n; every
   sealed file is over the segment size but was not before its last line; the current file is not over it.
   */
  lemma RotationInvariant(c: Codec, steps: seq<Step>)
    requires After(c, steps).holder.None? && After(c, steps).orphans == 0 && After(c, steps).root.manifest.Present?
    ensures var files, m := After(c, steps).root.files, After(c, steps).root.manifest.manifest;
            var n := |files|;
            && 1 <= n <= SegmentNames.LIMIT + 1
            && m.sealedSegments == SegmentNames.Names(n - 1)
            && m.currentSegment == SegmentNames.SegmentName(n)
            && files.Keys == Sorting.Elements(SegmentNames.Names(n))
            && m.currentSegment in files && Size(files[m.currentSegment]) <= m.segmentMaxBytes
            && forall x :: x in m.sealedSegments ==> x in files && JustOver(files[x], m.segmentMaxBytes)
  {
    hide CursorsHold, Run, Base, IsChainOf, Stream, Encoded, RecordsOf, SegmentNames.SegmentName, SegmentNames.Names,
         JustOver, Size, Intact;
    Reachable(c, steps);
    var s := After(c, steps);
    var m := s.root.manifest.manifest;
    QuiescentCoherent(c, s, m);
    CoherentByFiles(c, s.root.files, m, Submissions(s));
    LayoutNames(s.root.files, m);
    assert (m.sealedSegments + [m.currentSegment])[|m.sealedSegments|] == m.currentSegment;
  }

  /**
   In every run, crashes included, files only gain lines, and a segment listed as sealed is never
   written, removed or unsealed again.
   */
  lemma SealedForever(c: Codec, steps: seq<Step>, more: seq<Step>)
    ensures var s, t := After(c, steps), After(c, steps + more);
            && Grows(s.root.files, t.root.files)
            && SealedKept(s.root, t.root)
  {
    hide Inv, Run, Grows, SealedKept;
    Reachable(c, steps);
    RunKeeps(c, After(c, steps), more);
    RunConcat(c, INITIAL, steps, more);
  }

  // ----- A lost manifest

  lemma AdvanceGrows(c: Codec, job: Job, p: Progress)
    requires !(p.stage.Entered? && p.root.manifest.Absent?)
    ensures Grows(p.root.files, Advance(c, job, p).root.files)
  {
    hide SegmentNames.SegmentName, SegmentNames.Listing, Link, Published, Normalized, NextIndex, Size,
         Strings.Canonical;
  }

  /** Files other than segment 1, unchanged. */
  ghost predicate OthersKept(a: Files, b: Files) {
    forall x :: x in a && x != SegmentNames.SegmentName(1) ==> x in b && b[x] == a[x]
  }

  /** What segment 1 holds after a call that found no manifest: its own line, unless the record cannot be hashed. */
  function FreshSegment(c: Codec, job: Job): seq<Line> {
    match Link(c, "", Submission(job))
    case None => []
    case Some(r) => [LineFor(c, r)]
  }

  lemma RotateKeepsFiles(files: Files, m: Manifest)
    requires Rotate(files, m).Ok?
    ensures forall x :: x in files ==> x in Rotate(files, m).value.0 && Rotate(files, m).value.0[x] == files[x]
  {
    hide SegmentNames.SegmentName, SegmentNames.Listing, NextIndex, Size, Strings.Canonical, WithoutName;
  }

  /** The effects of a call up to its line, when the manifest is missing. */
  lemma StartWithoutManifest(c: Codec, root: Root, job: Job)
    requires root.manifest.Absent?
    ensures var p3 := Advance(c, job, Advance(c, job, Advance(c, job, Progress(root, Entered))));
            var name := SegmentNames.SegmentName(1);
            && (p3.stage.Written? || p3.stage.Failed?)
            && name in p3.root.files && p3.root.files[name] == FreshSegment(c, job)
            && OthersKept(root.files, p3.root.files)
  {
    hide SegmentNames.SegmentName, Rotate, Link, Published, Normalized, Bumped;
  }

  lemma EndWithoutManifest(c: Codec, job: Job, p: Progress)
    requires p.stage.Written? || p.stage.Failed?
    ensures var q := Advance(c, job, Advance(c, job, p));
            forall x :: x in p.root.files ==> x in q.root.files && q.root.files[x] == p.root.files[x]
  {
    hide SegmentNames.SegmentName, Rotate, Link, Published, Normalized, Bumped, AddLine;
    if p.stage.Written? && Rotate(p.root.files, p.stage.m).Ok? {
      RotateKeepsFiles(p.root.files, p.stage.m);
    }
  }

  lemma AppendWithoutManifest(c: Codec, root: Root, job: Job)
    requires root.manifest.Absent?
    ensures var files, name := Append(c, root, job).root.files, SegmentNames.SegmentName(1);
            name in files && files[name] == FreshSegment(c, job) && OthersKept(root.files, files)
  {
    hide Advance, SegmentNames.SegmentName, FreshSegment;
    StartWithoutManifest(c, root, job);
    EndWithoutManifest(c, job, Advance(c, job, Advance(c, job, Advance(c, job, Progress(root, Entered)))));
  }

  lemma AppendWithManifest(c: Codec, root: Root, job: Job)
    requires !root.manifest.Absent?
    ensures Grows(root.files, Append(c, root, job).root.files)
  {
    hide Advance;
    var p0 := Progress(root, Entered);
    var p1 := Advance(c, job, p0);
    var p2 := Advance(c, job, p1);
    var p3 := Advance(c, job, p2);
    var p4 := Advance(c, job, p3);
    StagesMoveOn(c, job, p0);
    AdvanceGrows(c, job, p0);
    AdvanceGrows(c, job, p1);
    AdvanceGrows(c, job, p2);
    AdvanceGrows(c, job, p3);
    AdvanceGrows(c, job, p4);
  }

  /**
   On any root whatsoever. If the manifest is missing, segment 1 ends as exactly the new line, or empty when the
   record cannot be hashed, whatever it held before, and every other file stays. So an append loses a stored line
   if and only if the manifest is missing and segment 1 held something other than the beginning of that.
   */
  lemma MissingManifestLosesFirstSegment(c: Codec, root: Root, job: Job)
    ensures var name, files := SegmentNames.SegmentName(1), Append(c, root, job).root.files;
            && (root.manifest.Absent? ==>
                  name in files && files[name] == FreshSegment(c, job) && OthersKept(root.files, files))
            && (Grows(root.files, files)
                <==> (root.manifest.Absent? && name in root.files ==> root.files[name] <= FreshSegment(c, job)))
  {
    hide Append, SegmentNames.SegmentName, FreshSegment;
    if root.manifest.Absent? { AppendWithoutManifest(c, root, job); } else { AppendWithManifest(c, root, job); }
  }

  lemma StagesMoveOn(c: Codec, job: Job, p0: Progress)
    requires p0.stage.Entered?
    ensures var p1 := Advance(c, job, p0);
            var p2 := Advance(c, job, p1);
            var p3 := Advance(c, job, p2);
            var p4 := Advance(c, job, p3);
            !p1.stage.Entered? && !p2.stage.Entered? && !p3.stage.Entered? && !p4.stage.Entered?
  {
    hide SegmentNames.SegmentName, Rotate, Link, Published, Normalized, AddLine, Bumped;
  }

  // ----- Append against validate

  /**
   Append and validate agree exactly. In every lock-free state of every run the validator accepts if and
   only if the root was never touched, or a manifest exists, no call was lost between its line and its
   manifest, the submissions name at most one policy, every line is within the scanner's limit and the
   segments are within the naming limit.
   */
  lemma ValidateAgrees(c: Codec, steps: seq<Step>, maxBytes: int)
    requires After(c, steps).holder.None?
    ensures var s := After(c, steps);
            Ordered(s) &&
            (Validate(c, s.root, maxBytes) == Accepted <==>
              || (s.root.manifest.Absent? && !s.root.created)
              || (&& s.root.manifest.Present?
                  && s.orphans == 0
                  && Uniform(Submissions(s))
                  && Numbered(s.root.files)
                  && |s.root.files| <= SegmentNames.LIMIT
                  && Fits(c, Log(s.root.files))))
  {
    hide CursorsHold, Run, Grounded, StageBase, IsChainOf, Uniform, Fits, Numbered, Log, Coherent, Fresh, Validate,
         SoundStore, Normalized, Intact, RecordsOf, Stream, Reread;
    Reachable(c, steps);
    var s := After(c, steps);
    ValidateExactly(c, s.root, maxBytes);
    if s.root.manifest.Present? {
      var m := s.root.manifest.manifest;
      GroundedSettles(s.root.files, m, maxBytes);
      if s.orphans == 0 {
        QuiescentCoherent(c, s, m);
        CoherentByFiles(c, s.root.files, m, Submissions(s));
        CoherentValidates(c, s.root.files, m, Submissions(s), true);
      } else {
        MiscountRejected(c, s.root.files, m);
      }
    }
  }

  // ----- Crashes

  /**
   A call lost between its line and its manifest is never forgotten: however the run goes on, every later
   lock-free state is rejected.
   */
  lemma LostCallIsNeverForgotten(c: Codec, steps: seq<Step>, more: seq<Step>, maxBytes: int)
    requires After(c, steps).orphans > 0 && After(c, steps + more).holder.None?
    ensures Validate(c, After(c, steps + more).root, maxBytes) != Accepted
  {
    hide Inv, Run, Validate, Grows, SealedKept, Base, Intact, CursorsHold;
    Reachable(c, steps);
    Reachable(c, steps + more);
    RunKeeps(c, After(c, steps), more);
    RunConcat(c, INITIAL, steps, more);
    ValidateAgrees(c, steps + more, maxBytes);
    OrphansNeedManifest(c, After(c, steps + more));
  }

  lemma OrphansNeedManifest(c: Codec, s: State)
    requires Inv(c, s) && s.orphans > 0
    ensures s.root.manifest.Present?
  {
    hide Intact, CursorsHold, Grounded, StageBase, Fresh;
  }

  /** The call has not written its line, and if it has failed, it failed before that. */
  predicate BeforeLine(stage: Stage) {
    stage.Entered? || stage.Creating? || stage.Loaded? || (stage.Failed? && !stage.error.BadListing?)
  }

  lemma FreshStoresNothing(root: Root)
    requires Fresh(root.files)
    ensures Stored(root) == []
  {
    hide SegmentNames.SegmentName, Numbered;
    if root.files != map[] {
      InitialGrounded(1);
    } else {
      NumberedIsNotEmpty(root.files);
    }
  }

  lemma NumberedIsNotEmpty(files: Files)
    ensures Numbered(files) ==> files != map[]
  {
  }

  /** An effect that leads to no line leaves the stored records, and a manifest that is there, as they are. */
  lemma EffectBeforeLine(c: Codec, job: Job, p: Progress, orphans: nat)
    requires Base(p.root, p.stage, orphans) && !p.stage.Done? && !p.stage.Failed?
    requires BeforeLine(Advance(c, job, p).stage)
    ensures var q := Advance(c, job, p);
            && BeforeLine(p.stage)
            && Stored(q.root) == Stored(p.root)
            && (p.root.manifest.Present? ==> q.root == p.root)
  {
    hide SegmentNames.SegmentName, Grounded, Total, Stored, Rotate, Link, AddLine, Bumped, Normalized, Published;
    var q := Advance(c, job, p);
    if p.root.manifest.Absent? {
      assert p.stage.Entered? ==> q.root.files == map[SegmentNames.SegmentName(1) := []];
      FreshStoresNothing(p.root);
      FreshStoresNothing(q.root);
    }
  }

  /** Writer `w` holds the lock since acquisition `ticket` and has not written its line. */
  ghost predicate HoldsBeforeLine(s: State, w: nat, ticket: nat) {
    && s.holder == Some(w) && w in s.writers && s.writers[w].Inside?
    && s.writers[w].ticket == ticket && BeforeLine(s.writers[w].stage)
  }

  /** Stored records, successes, lost calls, and a manifest that is there with all files, are as they were. */
  ghost predicate Undisturbed(s: State, t: State) {
    && Stored(t.root) == Stored(s.root) && t.done == s.done && t.orphans == s.orphans
    && (s.root.manifest.Present? ==> t.root.files == s.root.files && t.root.manifest == s.root.manifest)
  }

  lemma StepBeforeLine(c: Codec, s: State, step: Step, w: nat, ticket: nat)
    requires Inv(c, s) && ticket < |s.acquired| && HoldsBeforeLine(Next(c, s, step), w, ticket)
    ensures HoldsBeforeLine(s, w, ticket) && Undisturbed(s, Next(c, s, step))
  {
    hide Base, Intact, CursorsHold, Advance, Validate, Resolve, Stored, BeforeLine;
    match step
    case Proceed(v) =>
      if v in s.writers && s.writers[v].Inside? {
        var Inside(_, job, stage) := s.writers[v];
        if !stage.Done? && !stage.Failed? {
          EffectBeforeLine(c, job, Progress(s.root, stage), s.orphans);
          NotWritten(stage, Advance(c, job, Progress(s.root, stage)).stage);
        }
      }
    case Start(_, job) => SameStored(s, Next(c, s, step));
    case _ =>
  }

  lemma NotWritten(before: Stage, after: Stage)
    requires BeforeLine(before) && BeforeLine(after)
    ensures !before.Written? && !after.Done?
  {
  }

  lemma SameStored(s: State, t: State)
    requires t.root.files == s.root.files && t.root.manifest == s.root.manifest
    ensures Stored(t.root) == Stored(s.root)
  {
  }

  lemma {:induction false} StepsBeforeLine(c: Codec, s: State, mid: seq<Step>, w: nat, ticket: nat)
    requires Inv(c, s) && ticket < |s.acquired| && HoldsBeforeLine(Run(c, s, mid), w, ticket)
    ensures Undisturbed(s, Run(c, s, mid))
  {
    hide Inv, Next, Undisturbed, HoldsBeforeLine, Grows, SealedKept;
    if mid == [] {
      UndisturbedSame(s);
    } else {
      var n := |mid| - 1;
      RunKeeps(c, s, mid[..n]);
      var before := Run(c, s, mid[..n]);
      StepBeforeLine(c, before, mid[n], w, ticket);
      StepsBeforeLine(c, s, mid[..n], w, ticket);
      UndisturbedTransitive(s, before, Run(c, s, mid));
    }
  }

  lemma UndisturbedSame(s: State)
    ensures Undisturbed(s, s)
  {
  }

  lemma UndisturbedTransitive(s: State, t: State, u: State)
    requires Undisturbed(s, t) && Undisturbed(t, u)
    ensures Undisturbed(s, u)
  {
    hide Stored;
  }

  /**
   A crash before the line is harmless. From the moment writer `w` acquires the lock, through creating and loading
   the manifest and whatever other processes try meanwhile, until it crashes without having written its line: the
   stored records, the successful submissions, the lost calls of earlier crashes and an existing manifest with all
   segment files are at the end what they were before the lock was taken.
   */
  lemma CrashBeforeLineIsHarmless(c: Codec, pre: seq<Step>, late: bool, mid: seq<Step>, w: nat)
    requires var s := After(c, pre);
             s.holder.None? && w in s.writers && s.writers[w].Waiting?
    requires HoldsBeforeLine(After(c, pre + [Try(w, late)] + mid), w, |After(c, pre).acquired|)
    ensures var t := After(c, pre + [Try(w, late)] + mid + [Crash(w)]);
            t.holder.None? && Undisturbed(After(c, pre), t)
  {
    hide Inv, Next, Undisturbed, HoldsBeforeLine, Run;
    var s := After(c, pre);
    var start := pre + [Try(w, late)];
    Reachable(c, start);
    RunOne(c, pre, Try(w, late));
    RunConcat(c, INITIAL, start, mid);
    RunOne(c, start + mid, Crash(w));
    var s1, s2 := After(c, start), After(c, start + mid);
    LockTaken(c, s, w, late);
    StepsBeforeLine(c, s1, mid, w, |s.acquired|);
    CrashTaken(c, s2, w, |s.acquired|);
    UndisturbedTransitive(s, s1, s2);
    UndisturbedTransitive(s, s2, After(c, start + mid + [Crash(w)]));
  }

  lemma RunOne(c: Codec, steps: seq<Step>, step: Step)
    ensures After(c, steps + [step]) == Next(c, After(c, steps), step)
  {
    hide Next;
    assert (steps + [step])[..|steps|] == steps;
  }

  lemma LockTaken(c: Codec, s: State, w: nat, late: bool)
    requires s.holder.None? && w in s.writers && s.writers[w].Waiting?
    ensures var t := Next(c, s, Try(w, late));
            |t.acquired| == |s.acquired| + 1 && Undisturbed(s, t)
  {
    hide Stored;
  }

  lemma CrashTaken(c: Codec, s: State, w: nat, ticket: nat)
    requires HoldsBeforeLine(s, w, ticket)
    ensures Next(c, s, Crash(w)).holder.None? && Undisturbed(s, Next(c, s, Crash(w)))
  {
    hide Stored;
  }

  // ----- Cursors

  /**
   An acknowledged cursor is stable: in every later state it resolves to the same record, whose hash is the
   acknowledged one, whatever appends, rotations and crashes came between validating, resolving and saving.
   */
  lemma CursorStable(c: Codec, steps: seq<Step>, more: seq<Step>)
    requires After(c, steps).cursor.Some?
    ensures var cursor := After(c, steps).cursor.value;
            var r := Resolve(After(c, steps).root.files, cursor.segment, cursor.line);
            && r.Ok?
            && r.value.hash == cursor.lastAckHash
            && Resolve(After(c, steps + more).root.files, cursor.segment, cursor.line) == r
  {
    hide Run, Base, Intact, Resolve, Grows, SealedKept;
    Reachable(c, steps);
    var s := After(c, steps);
    SealedForever(c, steps, more);
    ResolveGrows(s.root.files, After(c, steps + more).root.files, s.cursor.value.segment, s.cursor.value.line);
  }

  /** Some cursor client asked for this cursor in a lock-free state that the validator accepted. */
  ghost predicate AskedOfValidStore(c: Codec, steps: seq<Step>, segment: string, line: nat) {
    exists k, a, maxBytes :: AskedAt(c, steps, k, a, segment, line, maxBytes)
  }

  ghost predicate AskedAt(c: Codec, steps: seq<Step>, k: int, a: nat, segment: string, line: nat, maxBytes: int) {
    && 0 <= k < |steps| && steps[k] == AckValidate(a, segment, line, maxBytes)
    && After(c, steps[..k]).holder.None?
    && Validate(c, After(c, steps[..k]).root, maxBytes) == Accepted
  }

  lemma AskedEarlier(c: Codec, steps: seq<Step>, step: Step, segment: string, line: nat)
    requires AskedOfValidStore(c, steps, segment, line)
    ensures AskedOfValidStore(c, steps + [step], segment, line)
  {
    hide After, Validate;
    var k, a, maxBytes :| AskedAt(c, steps, k, a, segment, line, maxBytes);
    assert (steps + [step])[..k] == steps[..k];
    assert AskedAt(c, steps + [step], k, a, segment, line, maxBytes);
  }

  /** No cursor is pending or saved unless validation accepted the store it was asked of. */
  lemma {:induction false} CursorsFollowValidation(c: Codec, steps: seq<Step>)
    ensures var s := After(c, steps);
            && (forall a :: a in s.acks ==> AskedOfValidStore(c, steps, s.acks[a].segment, s.acks[a].line))
            && (s.cursor.Some? ==> AskedOfValidStore(c, steps, s.cursor.value.segment, s.cursor.value.line))
  {
    hide AskedOfValidStore, Advance, Resolve, Validate;
    if steps != [] {
      var n := |steps| - 1;
      var before, step := steps[..n], steps[n];
      CursorsFollowValidation(c, before);
      assert steps == before + [step];
      var s, t := After(c, before), After(c, steps);
      forall segment, line: nat | AskedOfValidStore(c, before, segment, line)
        ensures AskedOfValidStore(c, steps, segment, line)
      {
        AskedEarlier(c, before, step, segment, line);
      }
      if step.AckValidate? && t.acks != s.acks { AskedNow(c, before, step); }
    }
  }

  lemma AskedNow(c: Codec, steps: seq<Step>, step: Step)
    requires step.AckValidate? && After(c, steps).holder.None?
    requires Validate(c, After(c, steps).root, step.maxBytes) == Accepted
    ensures AskedOfValidStore(c, steps + [step], step.segment, step.line)
  {
    hide After, Validate;
    assert (steps + [step])[..|steps|] == steps;
    assert AskedAt(c, steps + [step], |steps|, step.a, step.segment, step.line, step.maxBytes);
  }

  /**
   In a store the validator accepts, cursors and global positions correspond one to one: the cursor
   (i-th listed segment, line) resolves exactly when it names a stored record, and then to the record at
   position `Offset(i) + line`, from which `Locate` recovers the cursor.
   */
  lemma CursorsAreNamedPositions(c: Codec, files: Files, m: Manifest, i: nat, line: nat)
    requires SoundStore(c, files, m) && i < |SegmentNames.Listing(files.Keys).value|
    ensures var names := SegmentNames.Listing(files.Keys).value;
            && (forall x :: x in names ==> x in files)
            && var log, here := RecordsOf(AllLines(files, names)), RecordsOf(files[names[i]]);
               if line < |here| then
                 var g := Offset(files, names, i) + line;
                 && g < |log|
                 && Resolve(files, names[i], line) == Ok(log[g])
                 && Locate(files, names, g) == (i, line)
               else Resolve(files, names[i], line) == Err(LineOutOfRange)
  {
    hide SegmentNames.Listing, Linked, Uniform, Summarises, RecordsOf, Readable;
    var names := SegmentNames.Listing(files.Keys).value;
    ReadableFiles(files, names, i);
    ResolveInReads(files[names[i]], line);
    if line < |RecordsOf(files[names[i]])| {
      CursorToPosition(files, names, i, line);
    }
  }

  lemma {:induction false} ReadableFiles(files: Files, names: seq<string>, i: nat)
    requires (forall x :: x in names ==> x in files) && i < |names|
    requires Readable(AllLines(files, names))
    ensures Readable(files[names[i]])
  {
    var n := |names| - 1;
    assert forall x :: x in names[..n] ==> x in names;
    RecordsOfConcat(AllLines(files, names[..n]), files[names[n]]);
    if i < n {
      assert names[..n][i] == names[i];
      ReadableFiles(files, names[..n], i);
    }
  }
}
