/**
 Any number of writers and cursor clients on one evidence root, interleaved at every visible effect
 (pkg/evidence/lock.go:37-63, pkg/evlock/lock_unix.go:23-68, cmd/evidra/evidence_cmd.go:576-602).
 */
module Protocol {
  import opened Wrappers
  import opened Records
  import opened Disk
  import opened Appending
  import opened Cursors
  import Validation

  /** A writer retries for the lock, or is inside `withStoreLock` with the ticket of its acquisition. */
  datatype Phase =
    | Waiting(job: Job)
    | Inside(ticket: nat, job: Job, stage: Stage)

  /** A cursor client between its separately locked operations. */
  datatype AckPhase =
    | Checked(segment: string, line: nat)
    | Resolved(segment: string, line: nat, rec: Record)

  /** The persisted forwarder state. */
  datatype Cursor = Cursor(segment: string, line: nat, lastAckHash: string)

  datatype State = State(
    root: Root,
    holder: Option<nat>,
    writers: map<nat, Phase>,
    acks: map<nat, AckPhase>,
    cursor: Option<Cursor>,
    acquired: seq<Job>,  // every job that got the lock, in order; a ticket is an index into it
    done: seq<nat>,      // tickets of the successful appends, in order of publication
    orphans: nat)        // lines written by calls that never published a manifest for them

  const INITIAL := State(EMPTY_ROOT, None, map[], map[], None, [], [], 0)

  datatype Step =
    | Start(w: nat, job: Job)
    | Try(w: nat, late: bool)
    | Proceed(w: nat)
    | Leave(w: nat)
    | Crash(w: nat)
    | AckValidate(a: nat, segment: string, line: nat, maxBytes: int)
    | AckResolve(a: nat)
    | AckSave(a: nat)
    | AckAbort(a: nat)

  /** A writer enters `evlock.Acquire`, which creates the root directory. */
  function StartNext(s: State, w: nat, job: Job): State {
    if w in s.writers || job.maxBytes <= 0 then s
    else s.(root := s.root.(created := true), writers := s.writers[w := Waiting(job)])
  }

  /** One round of the retry loop; `late` says that the deadline has passed. */
  function TryNext(s: State, w: nat, late: bool): State {
    if w !in s.writers || !s.writers[w].Waiting? then s
    else if s.holder.None? then
      var job := s.writers[w].job;
      s.(holder := Some(w), writers := s.writers[w := Inside(|s.acquired|, job, Entered)],
         acquired := s.acquired + [job])
    else if late then s.(writers := s.writers - {w})
    else s
  }

  function Release(s: State, w: nat): State {
    s.(writers := s.writers - {w}, holder := if s.holder == Some(w) then None else s.holder)
  }

  /** The next effect of a writer inside the lock, or its release. */
  ghost function ProceedNext(c: Codec, s: State, w: nat): State {
    if w !in s.writers || !s.writers[w].Inside? then s
    else
      var Inside(ticket, job, stage) := s.writers[w];
      if stage.Done? || stage.Failed? then Release(s, w)
      else
        var p := Advance(c, job, Progress(s.root, stage));
        s.(root := p.root,
           writers := s.writers[w := Inside(ticket, job, p.stage)],
           done := if p.stage.Done? then s.done + [ticket] else s.done,
           orphans := if stage.Written? && p.stage.Failed? then s.orphans + 1 else s.orphans)
  }

  /** `Store.Init` starts like an append and returns as soon as the manifest is loaded. */
  function LeaveNext(s: State, w: nat): State {
    if w in s.writers && s.writers[w].Inside? && s.writers[w].stage.Loaded? then Release(s, w) else s
  }

  /** A writer stops at any point; the operating system drops its lock. */
  function CrashNext(s: State, w: nat): State {
    if w !in s.writers then s
    else
      var lost := s.writers[w].Inside? && (s.writers[w].stage.Written? || s.writers[w].stage.Rotated?);
      Release(s, w).(orphans := if lost then s.orphans + 1 else s.orphans)
  }

  /** The cursor client's operations read under the lock, so each is one step while the lock is free. */
  ghost function AckNext(c: Codec, s: State, step: Step): State
    requires step.AckValidate? || step.AckResolve? || step.AckSave? || step.AckAbort?
  {
    match step
    case AckValidate(a, segment, line, maxBytes) =>
      if s.holder.Some? || a in s.acks || !s.root.created then s
      else if Validation.Validate(c, s.root, maxBytes) != Validation.Accepted then s
      else s.(acks := s.acks[a := Checked(segment, line)])
    case AckResolve(a) =>
      if s.holder.Some? || a !in s.acks || !s.acks[a].Checked? then s
      else (
        match Resolve(s.root.files, s.acks[a].segment, s.acks[a].line)
        case Err(_) => s.(acks := s.acks - {a})
        case Ok(rec) => s.(acks := s.acks[a := Resolved(s.acks[a].segment, s.acks[a].line, rec)]))
    case AckSave(a) =>
      if s.holder.Some? || a !in s.acks || !s.acks[a].Resolved? then s
      else
        var Resolved(segment, line, rec) := s.acks[a];
        s.(acks := s.acks - {a}, cursor := Some(Cursor(segment, line, rec.hash)))
    case AckAbort(a) => s.(acks := s.acks - {a})
  }

  ghost function Next(c: Codec, s: State, step: Step): State {
    match step
    case Start(w, job) => StartNext(s, w, job)
    case Try(w, late) => TryNext(s, w, late)
    case Proceed(w) => ProceedNext(c, s, w)
    case Leave(w) => LeaveNext(s, w)
    case Crash(w) => CrashNext(s, w)
    case _ => AckNext(c, s, step)
  }

  /** A whole run. */
  ghost function Run(c: Codec, s: State, steps: seq<Step>): State {
    if steps == [] then s
    else Next(c, Run(c, s, steps[..|steps| - 1]), steps[|steps| - 1])
  }

  lemma {:induction false} RunConcat(c: Codec, s: State, a: seq<Step>, b: seq<Step>)
    ensures Run(c, s, a + b) == Run(c, Run(c, s, a), b)
  {
    if b == [] {
      assert a + b == a;
    } else {
      var n := |b| - 1;
      assert (a + b)[..|a| + n] == a + b[..n];
      assert (a + b)[|a| + n] == b[n];
      RunConcat(c, s, a, b[..n]);
    }
  }
}
