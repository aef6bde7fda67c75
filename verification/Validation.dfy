/**
 `validateSegmentedChain` (pkg/evidence/segment.go:114-196) and the statement of what it accepts.
 */
module Validation {
  import opened Wrappers
  import opened Records
  import opened Disk
  import Strings
  import SegmentNames

  datatype Rejection =
    | ManifestNotFound
    | ManifestUnreadable
    | BadListing
    | CurrentEmpty
    | CurrentSealed
    | SealedNotCanonical
    | SealedMissing
    | RecordsWithoutSegments
    | Unreadable(cause: ReadError)
    | HeadHasPrevious(index: nat)
    | PreviousMismatch(index: nat)
    | Unhashable(index: nat)
    | HashMismatch(index: nat)
    | MixedPolicyRefs
    | TotalMismatch
    | LastHashMismatch
    | CurrentMismatch
    | PolicyRefMismatch

  datatype Verdict = Accepted | Rejected(why: Rejection)

  /** What the validation callback accumulates. */
  datatype Tally = Tally(prev: string, total: nat, policyRef: string)

  /** The callback on one record. */
  function CheckRecord(c: Codec, t: Tally, r: Record): Result<Tally, Rejection> {
    if t.total == 0 && r.previousHash != "" then Err(HeadHasPrevious(t.total))
    else if t.total != 0 && r.previousHash != t.prev then Err(PreviousMismatch(t.total))
    else match ComputeHash(c, r)
      case None => Err(Unhashable(t.total))
      case Some(h) =>
        if r.hash != h then Err(HashMismatch(t.total))
        else if r.policyRef != "" && t.policyRef != "" && t.policyRef != r.policyRef then Err(MixedPolicyRefs)
        else Ok(Tally(r.hash, t.total + 1, if t.policyRef == "" then r.policyRef else t.policyRef))
  }

  function CheckLine(c: Codec, t: Tally, l: Line): Result<Tally, Rejection> {
    match ReadLine(l)
    case Err(e) => Err(Unreadable(e))
    case Ok(recs) => if recs == [] then Ok(t) else CheckRecord(c, t, recs[0])
  }

  /** The callback over a stream of lines. */
  function CheckLines(c: Codec, lines: seq<Line>): Result<Tally, Rejection> {
    if lines == [] then Ok(Tally("", 0, ""))
    else
      var n := |lines| - 1;
      var before :- CheckLines(c, lines[..n]);
      CheckLine(c, before, lines[n])
  }

  lemma CheckLinesNext(c: Codec, lines: seq<Line>, i: nat)
    requires i < |lines| && CheckLines(c, lines[..i]).Ok?
    ensures CheckLines(c, lines[..i + 1]) == CheckLine(c, CheckLines(c, lines[..i]).value, lines[i])
  {
    hide CheckLine;
    assert lines[..i + 1][..i] == lines[..i];
  }

  /** A rejected prefix decides the whole stream. */
  lemma {:induction false} RejectionSticks(c: Codec, lines: seq<Line>, k: nat)
    requires k <= |lines| && CheckLines(c, lines[..k]).Err?
    ensures CheckLines(c, lines) == CheckLines(c, lines[..k])
    decreases |lines| - k
  {
    if k < |lines| {
      assert lines[..k + 1][..k] == lines[..k];
      RejectionSticks(c, lines, k + 1);
    } else {
      assert lines[..k] == lines;
    }
  }

  ghost predicate SealedPresent(files: Files, m: Manifest) {
    && m.currentSegment !in m.sealedSegments
    && forall x :: x in m.sealedSegments ==> x in files
  }

  /** `validateManifestSealedInvariants`. */
  ghost function CheckSealed(files: Files, m: Manifest): Verdict {
    if m.currentSegment == "" then Rejected(CurrentEmpty)
    else if m.currentSegment in m.sealedSegments then Rejected(CurrentSealed)
    else if Strings.Canonical(m.sealedSegments) != m.sealedSegments then Rejected(SealedNotCanonical)
    else if exists x :: x in m.sealedSegments && x !in files then Rejected(SealedMissing)
    else Accepted
  }

  /** The comparisons of the tally with the manifest. */
  function CheckTally(m: Manifest, t: Tally, lastName: string): Verdict {
    if t.total != m.recordsTotal then Rejected(TotalMismatch)
    else if t.prev != m.lastHash then Rejected(LastHashMismatch)
    else if m.currentSegment != lastName then Rejected(CurrentMismatch)
    else if m.policyRef != "" && t.policyRef != "" && m.policyRef != t.policyRef then Rejected(PolicyRefMismatch)
    else Accepted
  }

  /** The checks that follow the sealed-segment check, on the listed names. */
  function CheckContents(c: Codec, files: Files, m: Manifest, names: seq<string>): Verdict
    requires forall x :: x in names ==> x in files
  {
    if names == [] then
      if m.recordsTotal != 0 || m.lastHash != "" then Rejected(RecordsWithoutSegments) else Accepted
    else match CheckLines(c, AllLines(files, names))
      case Err(why) => Rejected(why)
      case Ok(t) => CheckTally(m, t, names[|names| - 1])
  }

  /** The validator after the manifest has been loaded. */
  ghost function ValidateLoaded(c: Codec, files: Files, m: Manifest): Verdict {
    match SegmentNames.Listing(files.Keys)
    case Err(_) => Rejected(BadListing)
    case Ok(names) =>
      var checked := CheckSealed(files, m);
      if checked != Accepted then checked else CheckContents(c, files, m, names)
  }

  /** `validateSegmentedChain`; `maxBytes` is the configured segment size. */
  ghost function Validate(c: Codec, root: Root, maxBytes: int): Verdict {
    match root.manifest
    case Absent => if root.created then Rejected(ManifestNotFound) else Accepted
    case Corrupt => Rejected(ManifestUnreadable)
    case Present(m) => ValidateLoaded(c, root.files, Normalized(m, maxBytes))
  }

  // ----- What the validator accepts

  /** The stored lines form one chain under one policy. */
  ghost predicate SoundLines(c: Codec, lines: seq<Line>) {
    && Readable(lines)
    && Linked(c, RecordsOf(lines))
    && Uniform(RecordsOf(lines))
  }

  /** The manifest summarises the records and points at the last segment. */
  ghost predicate Summarises(m: Manifest, recs: seq<Record>, lastName: string) {
    && m.recordsTotal == |recs|
    && m.lastHash == LastHash(recs)
    && m.currentSegment == lastName
    && (m.policyRef == "" || FirstRef(recs) == "" || m.policyRef == FirstRef(recs))
  }

  ghost predicate SoundContents(c: Codec, files: Files, m: Manifest, names: seq<string>)
    requires forall x :: x in names ==> x in files
  {
    if names == [] then m.recordsTotal == 0 && m.lastHash == ""
    else
      var lines := AllLines(files, names);
      SoundLines(c, lines) && Summarises(m, RecordsOf(lines), names[|names| - 1])
  }

  /** Segments 1..n are present, sealed ones among them, and their contents are sound. */
  ghost predicate SoundStore(c: Codec, files: Files, m: Manifest) {
    && SegmentNames.Listing(files.Keys).Ok?
    && SealedPresent(files, m)
    && SoundContents(c, files, m, SegmentNames.Listing(files.Keys).value)
  }

  lemma {:induction false} CheckLinesSpec(c: Codec, lines: seq<Line>)
    ensures CheckLines(c, lines).Ok? <==> SoundLines(c, lines)
    ensures SoundLines(c, lines) ==>
      var recs := RecordsOf(lines);
      CheckLines(c, lines) == Ok(Tally(LastHash(recs), |recs|, FirstRef(recs)))
  {
    if lines != [] {
      var n := |lines| - 1;
      assert lines == lines[..n] + [lines[n]];
      CheckLinesSpec(c, lines[..n]);
      CheckLinesStep(c, lines[..n], lines[n]);
    }
  }

  lemma CheckLinesStep(c: Codec, lines: seq<Line>, l: Line)
    requires CheckLines(c, lines).Ok? <==> SoundLines(c, lines)
    requires SoundLines(c, lines) ==>
      var recs := RecordsOf(lines);
      CheckLines(c, lines) == Ok(Tally(LastHash(recs), |recs|, FirstRef(recs)))
    ensures CheckLines(c, lines + [l]).Ok? <==> SoundLines(c, lines + [l])
    ensures SoundLines(c, lines + [l]) ==>
      var recs := RecordsOf(lines + [l]);
      CheckLines(c, lines + [l]) == Ok(Tally(LastHash(recs), |recs|, FirstRef(recs)))
  {
    hide Linked, Uniform, Readable, FirstRef, RecordsOf, ComputeHash;
    var all := lines + [l];
    assert all[..|lines|] == lines && all[|lines|] == l;
    LinesSnoc(lines, l);
    if ReadLine(l).Ok? && l.Json? {
      LinkedSnoc(c, RecordsOf(lines), l.rec);
      UniformSnoc(RecordsOf(lines), l.rec);
    } else {
      assert RecordsOf(lines) + [] == RecordsOf(lines);
    }
  }

  /** Loading a manifest leaves a current segment and a canonical list of sealed segments. */
  lemma NormalizedIsCanonical(m: Manifest, maxBytes: int)
    ensures var n := Normalized(m, maxBytes);
            && n.currentSegment != ""
            && Strings.Canonical(n.sealedSegments) == n.sealedSegments
  {
    SegmentNames.SegmentNameShape(1);
    Strings.CanonicalIdempotent(m.sealedSegments);
  }

  /**
   Because loading normalises, the validator never rejects for an empty `current_segment` or for
   `sealed_segments` that are not unique and ordered, whatever is on disk.
   */
  lemma UnreachableRejections(c: Codec, root: Root, maxBytes: int)
    ensures Validate(c, root, maxBytes) != Rejected(CurrentEmpty)
    ensures Validate(c, root, maxBytes) != Rejected(SealedNotCanonical)
  {
    hide SegmentNames.Listing, SegmentNames.SegmentName, Strings.Canonical, CheckLines;
    if root.manifest.Present? {
      NormalizedIsCanonical(root.manifest.manifest, maxBytes);
      var names := SegmentNames.Listing(root.files.Keys);
      if names.Ok? && names.value != [] {
        CheckLinesReasons(c, AllLines(root.files, names.value));
      }
    }
  }

  /** Reading lines never produces a manifest complaint. */
  lemma {:induction false} CheckLinesReasons(c: Codec, lines: seq<Line>)
    ensures CheckLines(c, lines) != Err(CurrentEmpty) && CheckLines(c, lines) != Err(SealedNotCanonical)
  {
    if lines != [] { CheckLinesReasons(c, lines[..|lines| - 1]); }
  }

  lemma CheckContentsSpec(c: Codec, files: Files, m: Manifest, names: seq<string>)
    requires forall x :: x in names ==> x in files
    ensures CheckContents(c, files, m, names) == Accepted <==> SoundContents(c, files, m, names)
  {
    if names != [] {
      CheckLinesSpec(c, AllLines(files, names));
    }
  }

  /** The validator's exact acceptance condition. */
  lemma ValidateExactly(c: Codec, root: Root, maxBytes: int)
    ensures Validate(c, root, maxBytes) == Accepted
      <==> || (root.manifest.Absent? && !root.created)
           || (root.manifest.Present? && SoundStore(c, root.files, Normalized(root.manifest.manifest, maxBytes)))
  {
    hide SegmentNames.Listing, CheckContents, SoundContents;
    if root.manifest.Present? {
      var m := Normalized(root.manifest.manifest, maxBytes);
      NormalizedIsCanonical(root.manifest.manifest, maxBytes);
      if SegmentNames.Listing(root.files.Keys).Ok? {
        CheckContentsSpec(c, root.files, m, SegmentNames.Listing(root.files.Keys).value);
      }
    }
  }

  /** Taking the lock creates the root, so a locked validation accepts sound stores only, never a missing root. */
  lemma LockedValidateExactly(c: Codec, root: Root, maxBytes: int)
    ensures Validate(c, root.(created := true), maxBytes) == Accepted
      <==> root.manifest.Present? && SoundStore(c, root.files, Normalized(root.manifest.manifest, maxBytes))
  {
    hide Validate, SoundStore, Normalized;
    ValidateExactly(c, root.(created := true), maxBytes);
  }
}
