/**
 The invariant of every reachable state, and what no step ever undoes.
 */
module RunInvariants {
  import opened Wrappers
  import opened Records
  import opened Disk
  import opened Appending
  import opened Grounding
  import opened Cursors
  import opened Protocol
  import opened StageInvariants
  import Validation
  import Coherence
  import SegmentNames

  /** The stage of the lock holder; `Entered`, which demands nothing, when the lock is free. */
  function Active(s: State): Stage {
    if s.holder.Some? && s.holder.value in s.writers && s.writers[s.holder.value].Inside?
    then s.writers[s.holder.value].stage else Entered
  }

  /** Mutual exclusion: a writer is inside `withStoreLock` if and only if it holds the lock. */
  ghost predicate Exclusive(s: State) {
    && (s.holder.Some? ==> s.holder.value in s.writers && s.writers[s.holder.value].Inside?)
    && (forall w :: w in s.writers && s.writers[w].Inside? ==> s.holder == Some(w))
    && (forall w :: w in s.writers ==> s.writers[w].job.maxBytes > 0)
  }

  /** Tickets of successful appends are acquisitions, in the order of acquisition. */
  ghost predicate Ordered(s: State) {
    && (forall i :: 0 <= i < |s.done| ==> s.done[i] < |s.acquired|)
    && (forall i, j :: 0 <= i < j < |s.done| ==> s.done[i] < s.done[j])
  }

  /** The holder has the newest ticket, and it is in `done` only once its manifest is published. */
  ghost predicate HolderTicket(s: State)
    requires Exclusive(s)
  {
    s.holder.Some? ==>
      var Inside(ticket, job, stage) := s.writers[s.holder.value];
      && ticket == |s.acquired| - 1
      && s.acquired[ticket] == job
      && (!stage.Done? ==> forall i :: 0 <= i < |s.done| ==> s.done[i] < ticket)
  }

  /** The submissions that were appended successfully, in lock-acquisition order. */
  ghost function Submissions(s: State): (subs: seq<Record>)
    requires Ordered(s)
    ensures |subs| == |s.done|
  {
    seq(|s.done|, i requires 0 <= i < |s.done| => Submission(s.acquired[s.done[i]]))
  }

  /** The submission of the lock holder. */
  ghost function ActiveSubmission(s: State): Record
    requires Exclusive(s) && s.holder.Some?
  {
    Submission(s.writers[s.holder.value].job)
  }

  ghost predicate Intact(c: Codec, s: State)
    requires Exclusive(s) && Ordered(s)
  {
    if s.holder.Some? then Clean(c, s.root, Active(s), Submissions(s), ActiveSubmission(s))
    else forall sub :: Clean(c, s.root, Entered, Submissions(s), sub)
  }

  /** Resolved and saved cursors still resolve to the record they were resolved to. */
  ghost predicate CursorsHold(s: State) {
    && (forall a :: a in s.acks && s.acks[a].Resolved? ==>
          Resolve(s.root.files, s.acks[a].segment, s.acks[a].line) == Ok(s.acks[a].rec))
    && (s.cursor.Some? ==>
          var r := Resolve(s.root.files, s.cursor.value.segment, s.cursor.value.line);
          r.Ok? && r.value.hash == s.cursor.value.lastAckHash)
  }

  ghost predicate Inv(c: Codec, s: State) {
    && Exclusive(s)
    && Ordered(s)
    && HolderTicket(s)
    && Base(s.root, Active(s), s.orphans)
    && (s.orphans == 0 ==> Intact(c, s))
    && CursorsHold(s)
  }

  /** What a later state keeps of an earlier one. */
  ghost predicate Extends(s: State, t: State) {
    && Grows(s.root.files, t.root.files)
    && SealedKept(s.root, t.root)
    && s.done <= t.done
    && s.acquired <= t.acquired
    && s.orphans <= t.orphans
  }

  lemma ExtendsSame(s: State, t: State, orphans: nat)
    requires Base(s.root, Active(s), orphans)
    requires t.root.files == s.root.files && t.root.manifest == s.root.manifest
    requires t.done == s.done && s.acquired <= t.acquired && s.orphans <= t.orphans
    ensures Extends(s, t)
  {
    hide Grows, Total, Numbered, Fresh;
    GrowsSame(s.root.files, t.root.files);
  }

  lemma ExtendsTransitive(s: State, t: State, u: State)
    requires Extends(s, t) && Extends(t, u)
    ensures Extends(s, u)
  {
  }

  lemma CursorsSurvive(s: State, t: State)
    requires CursorsHold(s) && Grows(s.root.files, t.root.files)
    requires t.acks == s.acks && t.cursor == s.cursor
    ensures CursorsHold(t)
  {
    hide ResolveIn;
    forall a | a in s.acks && s.acks[a].Resolved?
      ensures Resolve(t.root.files, s.acks[a].segment, s.acks[a].line) == Ok(s.acks[a].rec)
    {
      ResolveGrows(s.root.files, t.root.files, s.acks[a].segment, s.acks[a].line);
    }
    if s.cursor.Some? {
      ResolveGrows(s.root.files, t.root.files, s.cursor.value.segment, s.cursor.value.line);
    }
  }

  lemma ResolveGrows(a: Files, b: Files, segment: string, line: int)
    requires Grows(a, b) && Resolve(a, segment, line).Ok?
    ensures Resolve(b, segment, line) == Resolve(a, segment, line)
  {
    ResolveInStable(a[segment], b[segment], line);
  }

  // ----- Steps

  lemma StartKeeps(c: Codec, s: State, w: nat, job: Job)
    requires Inv(c, s)
    ensures Inv(c, StartNext(s, w, job)) && Extends(s, StartNext(s, w, job))
  {
    hide Grounded, Total, Fresh, StageBase, CursorsHold, Extends, SealedKept, Grows, Coherence.Coherent;
    var t := StartNext(s, w, job);
    assert Active(t) == Active(s);
    assert Submissions(t) == Submissions(s);
    ExtendsSame(s, t, s.orphans);
    GrowsSame(s.root.files, t.root.files);
    CursorsSurvive(s, t);
    if s.orphans == 0 && s.holder.None? {
      forall sub ensures Clean(c, t.root, Entered, Submissions(t), sub) {
        assert Clean(c, s.root, Entered, Submissions(s), sub);
      }
    }
  }

  lemma TryKeeps(c: Codec, s: State, w: nat, late: bool)
    requires Inv(c, s)
    ensures Inv(c, TryNext(s, w, late)) && Extends(s, TryNext(s, w, late))
  {
    hide Base, Clean, CursorsHold, Extends, SealedKept, Grows;
    var t := TryNext(s, w, late);
    assert Submissions(t) == Submissions(s);
    ExtendsSame(s, t, s.orphans);
    GrowsSame(s.root.files, t.root.files);
    CursorsSurvive(s, t);
    assert Active(t) == Active(s);
  }

  /** The lock is given up: by the end of a call, or by a crash. */
  lemma ReleaseKeeps(c: Codec, s: State, w: nat, orphans: nat)
    requires Inv(c, s) && w in s.writers
    requires orphans == if s.holder == Some(w) && Unpublished(Active(s)) then s.orphans + 1 else s.orphans
    ensures var t := Release(s, w).(orphans := orphans);
            Inv(c, t) && Extends(s, t)
  {
    hide Base, CursorsHold, Extends, SealedKept, Grows, Coherence.Coherent;
    var t := Release(s, w).(orphans := orphans);
    assert Submissions(t) == Submissions(s);
    BaseReleased(s.root, Active(s), s.orphans);
    ExtendsSame(s, t, s.orphans);
    GrowsSame(s.root.files, t.root.files);
    CursorsSurvive(s, t);
  }

  lemma ProceedKeeps(c: Codec, s: State, w: nat)
    requires Inv(c, s)
    ensures Inv(c, ProceedNext(c, s, w)) && Extends(s, ProceedNext(c, s, w))
  {
    hide Base, Clean, CursorsHold, SealedKept, Grows, Advance, Extends;
    var t := ProceedNext(c, s, w);
    if w in s.writers && s.writers[w].Inside? {
      var Inside(ticket, job, stage) := s.writers[w];
      if stage.Done? || stage.Failed? {
        ReleaseKeeps(c, s, w, s.orphans);
      } else {
        EffectKeeps(c, s, w);
      }
    } else {
      ExtendsSame(s, t, s.orphans);
    }
  }

  /** One effect of the lock holder. */
  lemma EffectKeeps(c: Codec, s: State, w: nat)
    requires Inv(c, s) && w in s.writers && s.writers[w].Inside?
    requires !s.writers[w].stage.Done? && !s.writers[w].stage.Failed?
    ensures Inv(c, ProceedNext(c, s, w)) && Extends(s, ProceedNext(c, s, w))
  {
    hide Base, Clean, CursorsHold, SealedKept, Grows, Advance;
    var t := ProceedNext(c, s, w);
    var Inside(ticket, job, stage) := s.writers[w];
    var p := Progress(s.root, stage);
    var q := Advance(c, job, p);
    AdvanceKeeps(c, job, p, s.orphans);
    EffectSubmissions(c, s, w);
    if s.orphans == 0 {
      AdvanceClean(c, job, p, Submissions(s));
    }
    CursorsSurvive(s, t);
  }

  lemma EffectSubmissions(c: Codec, s: State, w: nat)
    requires Inv(c, s) && w in s.writers && s.writers[w].Inside?
    requires !s.writers[w].stage.Done? && !s.writers[w].stage.Failed?
    ensures var t := ProceedNext(c, s, w);
            && Exclusive(t) && Ordered(t) && HolderTicket(t)
            && Submissions(t) == Submissions(s) + if Active(t).Done? then [ActiveSubmission(s)] else []
  {
    hide Base, Clean, CursorsHold, SealedKept, Grows, Advance, Submission;
    var Inside(ticket, job, stage) := s.writers[w];
    assert s.holder == Some(w);
    var p := Advance(c, job, Progress(s.root, stage));
    var t := ProceedNext(c, s, w);
    assert t.writers == s.writers[w := Inside(ticket, job, p.stage)];
    assert t.holder == s.holder && t.acquired == s.acquired;
    if p.stage.Done? {
      assert t.done == s.done + [ticket];
      assert Submissions(t) == Submissions(s) + [ActiveSubmission(s)];
    } else {
      assert t.done == s.done;
    }
  }

  lemma LeaveKeeps(c: Codec, s: State, w: nat)
    requires Inv(c, s)
    ensures Inv(c, LeaveNext(s, w)) && Extends(s, LeaveNext(s, w))
  {
    hide Base, Clean, CursorsHold, SealedKept, Grows, Extends, Intact;
    if w in s.writers && s.writers[w].Inside? && s.writers[w].stage.Loaded? {
      ReleaseKeeps(c, s, w, s.orphans);
    } else {
      ExtendsSame(s, s, s.orphans);
    }
  }

  lemma CrashKeeps(c: Codec, s: State, w: nat)
    requires Inv(c, s)
    ensures Inv(c, CrashNext(s, w)) && Extends(s, CrashNext(s, w))
  {
    hide Base, Clean, CursorsHold, SealedKept, Grows, Extends, Intact;
    if w in s.writers {
      ReleaseKeeps(c, s, w, CrashNext(s, w).orphans);
    } else {
      ExtendsSame(s, s, s.orphans);
    }
  }

  lemma AckKeeps(c: Codec, s: State, step: Step)
    requires Inv(c, s)
    requires step.AckValidate? || step.AckResolve? || step.AckSave? || step.AckAbort?
    ensures Inv(c, AckNext(c, s, step)) && Extends(s, AckNext(c, s, step))
  {
    hide Base, Clean, SealedKept, Grows, Extends, Resolve, Validation.Validate;
    var t := AckNext(c, s, step);
    ExtendsSame(s, t, s.orphans);
    assert Submissions(t) == Submissions(s);
  }

  lemma NextKeeps(c: Codec, s: State, step: Step)
    requires Inv(c, s)
    ensures Inv(c, Next(c, s, step)) && Extends(s, Next(c, s, step))
  {
    hide Inv, Extends, StartNext, TryNext, ProceedNext, LeaveNext, CrashNext, AckNext;
    match step
    case Start(w, job) => StartKeeps(c, s, w, job);
    case Try(w, late) => TryKeeps(c, s, w, late);
    case Proceed(w) => ProceedKeeps(c, s, w);
    case Leave(w) => LeaveKeeps(c, s, w);
    case Crash(w) => CrashKeeps(c, s, w);
    case _ => AckKeeps(c, s, step);
  }

  lemma InitialInv(c: Codec)
    ensures Inv(c, INITIAL)
  {
    hide SegmentNames.SegmentName;
  }

  lemma {:induction false} RunKeeps(c: Codec, s: State, steps: seq<Step>)
    requires Inv(c, s)
    ensures Inv(c, Run(c, s, steps)) && Extends(s, Run(c, s, steps))
  {
    hide Inv, Extends, Next;
    if steps == [] {
      InvExtendsSelf(c, s);
    } else {
      var n := |steps| - 1;
      RunKeeps(c, s, steps[..n]);
      NextKeeps(c, Run(c, s, steps[..n]), steps[n]);
      ExtendsTransitive(s, Run(c, s, steps[..n]), Run(c, s, steps));
    }
  }

  lemma InvExtendsSelf(c: Codec, s: State)
    requires Inv(c, s)
    ensures Extends(s, s)
  {
    hide Base, Intact, CursorsHold, Extends;
    ExtendsSame(s, s, s.orphans);
  }
}
