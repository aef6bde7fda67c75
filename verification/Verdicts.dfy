/**
 The reasons the validator gives are true: what each rejection says about the disk, written out without the checks
 that find it (pkg/evidence/segment.go:114-196, pkg/evidence/segment.go:273-301).
 */
module Verdicts {
  import opened Wrappers
  import opened Records
  import opened Disk
  import opened Sorting
  import opened Validation
  import AppendMeaning
  import Strings
  import SegmentNames

  /** What is wrong with a line that follows the sound records `before`. */
  ghost predicate Faulty(c: Codec, before: seq<Record>, l: Line, why: Rejection) {
    match why
    case Unreadable(LineTooLong) => l.size > 65536
    case Unreadable(LineMalformed) => l.size <= 65536 && l.Malformed?
    case HeadHasPrevious(i) => l.Json? && i == 0 && before == [] && l.rec.previousHash != ""
    case PreviousMismatch(i) =>
      l.Json? && i == |before| && before != [] && l.rec.previousHash != before[|before| - 1].hash
    case Unhashable(i) => l.Json? && i == |before| && Follows(before, l.rec) && ComputeHash(c, l.rec) == None
    case HashMismatch(i) =>
      && l.Json? && i == |before| && Follows(before, l.rec)
      && ComputeHash(c, l.rec).Some? && ComputeHash(c, l.rec) != Some(l.rec.hash)
    case MixedPolicyRefs =>
      && l.Json? && Follows(before, l.rec) && ComputeHash(c, l.rec) == Some(l.rec.hash)
      && Uniform(before) && !Uniform(before + [l.rec])
    case _ => false
  }

  /** The record carries the hash of its predecessor. */
  ghost predicate Follows(before: seq<Record>, r: Record) {
    r.previousHash == if before == [] then "" else before[|before| - 1].hash
  }

  /** The first line the callback objects to. */
  ghost predicate FaultAt(c: Codec, lines: seq<Line>, k: nat, why: Rejection) {
    k < |lines| && SoundLines(c, lines[..k]) && Faulty(c, RecordsOf(lines[..k]), lines[k], why)
  }

  lemma {:induction false} RejectedLine(c: Codec, lines: seq<Line>)
    requires CheckLines(c, lines).Err?
    ensures exists k: nat :: FaultAt(c, lines, k, CheckLines(c, lines).error)
  {
    hide SoundLines, RecordsOf, Faulty;
    var n := |lines| - 1;
    var before := CheckLines(c, lines[..n]);
    if before.Err? {
      RejectedLine(c, lines[..n]);
      var k: nat :| FaultAt(c, lines[..n], k, before.error);
      assert lines[..n][..k] == lines[..k];
      assert FaultAt(c, lines, k, before.error);
    } else {
      CheckLinesSpec(c, lines[..n]);
      FaultyLine(c, RecordsOf(lines[..n]), lines[n], CheckLines(c, lines).error);
      SoundIsUniform(c, lines[..n]);
      assert FaultAt(c, lines, n, CheckLines(c, lines).error);
    }
  }

  lemma SoundIsUniform(c: Codec, lines: seq<Line>)
    requires SoundLines(c, lines)
    ensures Uniform(RecordsOf(lines))
  {
  }

  lemma FaultyLine(c: Codec, before: seq<Record>, l: Line, why: Rejection)
    requires CheckLine(c, Tally(LastHash(before), |before|, FirstRef(before)), l) == Err(why)
    ensures Uniform(before) ==> Faulty(c, before, l, why)
  {
    hide CheckRecord, Faulty, LastHash, FirstRef, Uniform;
    if l.size <= MAX_LINE && l.Json? {
      FaultyRecord(c, before, l, why);
    } else {
      FaultyText(c, before, l, why);
    }
  }

  lemma FaultyText(c: Codec, before: seq<Record>, l: Line, why: Rejection)
    requires ReadLine(l).Err? && why == Rejection.Unreadable(ReadLine(l).error)
    ensures Faulty(c, before, l, why)
  {
  }

  lemma FaultyRecord(c: Codec, before: seq<Record>, l: Line, why: Rejection)
    requires l.Json? && CheckRecord(c, Tally(LastHash(before), |before|, FirstRef(before)), l.rec) == Err(why)
    ensures Uniform(before) ==> Faulty(c, before, l, why)
  {
    hide ComputeHash, FirstRef, MergedRef, MergeRef, Uniform, CheckRecord;
    var t := Tally(LastHash(before), |before|, FirstRef(before));
    RecordReason(c, t, l.rec, why);
    if why.MixedPolicyRefs? { MixedAfter(before, l.rec); }
  }

  lemma MixedAfter(before: seq<Record>, r: Record)
    requires r.policyRef != "" && FirstRef(before) != "" && FirstRef(before) != r.policyRef
    ensures !Uniform(before + [r])
  {
    hide FirstRef, MergedRef, Uniform;
    UniformSnoc(before, r);
  }

  lemma RecordReason(c: Codec, t: Tally, r: Record, why: Rejection)
    requires CheckRecord(c, t, r) == Err(why)
    ensures match why
            case HeadHasPrevious(i) => i == t.total == 0 && r.previousHash != ""
            case PreviousMismatch(i) => i == t.total != 0 && r.previousHash != t.prev
            case Unhashable(i) => i == t.total && ComputeHash(c, r) == None
            case HashMismatch(i) => i == t.total && ComputeHash(c, r).Some? && ComputeHash(c, r) != Some(r.hash)
            case MixedPolicyRefs =>
              && ComputeHash(c, r) == Some(r.hash)
              && r.policyRef != "" && t.policyRef != "" && t.policyRef != r.policyRef
            case _ => false
    ensures why.HeadHasPrevious? || why.PreviousMismatch? || r.previousHash == if t.total == 0 then "" else t.prev
  {
    hide ComputeHash;
  }

  /** The hash the next record would have to carry. */
  ghost function HashAfter(recs: seq<Record>): string {
    if recs == [] then "" else recs[|recs| - 1].hash
  }

  /** What the manifest and the listed, sound records disagree about, in the order of the comparisons. */
  ghost predicate Disagrees(m: Manifest, recs: seq<Record>, lastName: string, why: Rejection) {
    match why
    case TotalMismatch => m.recordsTotal != |recs|
    case LastHashMismatch => m.recordsTotal == |recs| && m.lastHash != HashAfter(recs)
    case CurrentMismatch => m.recordsTotal == |recs| && m.lastHash == HashAfter(recs) && m.currentSegment != lastName
    case PolicyRefMismatch =>
      && m.recordsTotal == |recs| && m.lastHash == HashAfter(recs) && m.currentSegment == lastName
      && m.policyRef != "" && exists i :: 0 <= i < |recs| && recs[i].policyRef != "" && recs[i].policyRef != m.policyRef
    case _ => false
  }

  /** What a rejection says about segments 1..n with manifest `m`. */
  ghost predicate RejectsContents(c: Codec, files: Files, m: Manifest, n: nat, why: Rejection) {
    && (forall x :: x in SegmentNames.Names(n) ==> x in files)
    && var lines := AllLines(files, SegmentNames.Names(n));
       if why.RecordsWithoutSegments? then n == 0 && (m.recordsTotal != 0 || m.lastHash != "")
       else
         || (exists k: nat :: FaultAt(c, lines, k, why))
         || (n > 0 && SoundLines(c, lines) && Disagrees(m, RecordsOf(lines), SegmentNames.SegmentName(n), why))
  }

  /** What a rejection says about a root. */
  ghost predicate RejectsRoot(c: Codec, root: Root, maxBytes: int, why: Rejection) {
    var m := AppendMeaning.Found(root, maxBytes);
    match why
    case ManifestNotFound => root.manifest.Absent? && root.created
    case ManifestUnreadable => root.manifest.Corrupt?
    case BadListing =>
      && root.manifest.Present?
      && forall n: nat :: n <= 999999 ==>
           SegmentNames.Matching(root.files.Keys) != Elements(SegmentNames.Names(n))
    case CurrentSealed => root.manifest.Present? && Listed(root.files) && m.currentSegment in m.sealedSegments
    case SealedMissing =>
      && root.manifest.Present? && Listed(root.files) && m.currentSegment !in m.sealedSegments
      && exists x :: x in m.sealedSegments && x != "" && x !in root.files
    case _ =>
      && root.manifest.Present? && m.currentSegment !in m.sealedSegments
      && (forall x :: x in m.sealedSegments && x != "" ==> x in root.files)
      && exists n: nat ::
           && n <= 999999 && SegmentNames.Matching(root.files.Keys) == Elements(SegmentNames.Names(n))
           && RejectsContents(c, root.files, m, n, why)
  }

  /** The segment files are numbered 1..n within the limit. */
  ghost predicate Listed(files: Files) {
    exists n: nat :: n <= 999999 && SegmentNames.Matching(files.Keys) == Elements(SegmentNames.Names(n))
  }

  lemma ListingMeans(keys: set<string>)
    ensures match SegmentNames.Listing(keys)
            case Ok(names) =>
              exists n: nat ::
                && n <= 999999 && SegmentNames.Matching(keys) == Elements(SegmentNames.Names(n))
                && names == SegmentNames.Names(n)
            case Err(_) =>
              forall n: nat :: n <= 999999 ==> SegmentNames.Matching(keys) != Elements(SegmentNames.Names(n))
  {
    hide SegmentNames.SegmentName, SegmentNames.Names, SegmentNames.Matching;
    if SegmentNames.Listing(keys).Err? {
      forall n: nat | n <= 999999 ensures SegmentNames.Matching(keys) != Elements(SegmentNames.Names(n)) {
        SegmentNames.NamesDistinct(n);
        DistinctCount(SegmentNames.Names(n));
      }
    }
  }

  lemma DisagreesTruly(m: Manifest, recs: seq<Record>, lastName: string, why: Rejection)
    requires CheckTally(m, Tally(LastHash(recs), |recs|, FirstRef(recs)), lastName) == Rejected(why)
    ensures Disagrees(m, recs, lastName, why)
  {
    hide FirstRef, CheckTally, LastHash;
    TallyReason(m, Tally(LastHash(recs), |recs|, FirstRef(recs)), lastName, why);
    SameLastHash(recs);
    if why.PolicyRefMismatch? { NamesOtherPolicy(m.policyRef, recs); }
  }

  lemma SameLastHash(recs: seq<Record>)
    ensures LastHash(recs) == HashAfter(recs)
  {
  }

  lemma TallyReason(m: Manifest, t: Tally, lastName: string, why: Rejection)
    requires CheckTally(m, t, lastName) == Rejected(why)
    ensures match why
            case TotalMismatch => t.total != m.recordsTotal
            case LastHashMismatch => t.total == m.recordsTotal && t.prev != m.lastHash
            case CurrentMismatch => t.total == m.recordsTotal && t.prev == m.lastHash && m.currentSegment != lastName
            case PolicyRefMismatch =>
              && t.total == m.recordsTotal && t.prev == m.lastHash && m.currentSegment == lastName
              && m.policyRef != "" && t.policyRef != "" && m.policyRef != t.policyRef
            case _ => false
  {
  }

  lemma NamesOtherPolicy(ref: string, recs: seq<Record>)
    requires FirstRef(recs) != "" && FirstRef(recs) != ref
    ensures exists i :: 0 <= i < |recs| && recs[i].policyRef != "" && recs[i].policyRef != ref
  {
    var i :| 0 <= i < |recs| && recs[i].policyRef == FirstRef(recs);
    hide FirstRef;
    assert recs[i].policyRef != "" && recs[i].policyRef != ref;
  }

  lemma RejectedContents(c: Codec, files: Files, m: Manifest, n: nat, why: Rejection)
    requires forall x :: x in SegmentNames.Names(n) ==> x in files
    requires CheckContents(c, files, m, SegmentNames.Names(n)) == Rejected(why)
    ensures RejectsContents(c, files, m, n, why)
  {
    hide SegmentNames.SegmentName, CheckLines, SoundLines, FaultAt, Disagrees, AllLines, FirstRef, LastHash, CheckTally;
    if n > 0 {
      var lines := AllLines(files, SegmentNames.Names(n));
      if CheckLines(c, lines).Err? {
        RejectedLine(c, lines);
        LineReasons(c, lines);
      } else {
        CheckLinesSpec(c, lines);
        DisagreesTruly(m, RecordsOf(lines), SegmentNames.SegmentName(n), why);
        TallyReasons(m, CheckLines(c, lines).value, SegmentNames.SegmentName(n));
      }
    }
  }

  lemma {:induction false} LineReasons(c: Codec, lines: seq<Line>)
    ensures CheckLines(c, lines) != Err(RecordsWithoutSegments)
  {
    if lines != [] { LineReasons(c, lines[..|lines| - 1]); }
  }

  lemma TallyReasons(m: Manifest, t: Tally, lastName: string)
    ensures CheckTally(m, t, lastName) != Rejected(RecordsWithoutSegments)
  {
  }

  /** Every rejection is true of the root it is about. */
  lemma RejectionsAreTrue(c: Codec, root: Root, maxBytes: int)
    ensures match Validate(c, root, maxBytes)
            case Accepted => true
            case Rejected(why) => RejectsRoot(c, root, maxBytes, why)
  {
    hide SegmentNames.SegmentName, SegmentNames.Names, SegmentNames.Matching, SegmentNames.Listing, CheckContents,
         RejectsContents, Strings.Canonical;
    UnreachableRejections(c, root, maxBytes);
    if root.manifest.Present? {
      var m := Normalized(root.manifest.manifest, maxBytes);
      AppendMeaning.FirstName();
      Strings.CanonicalSpec(root.manifest.manifest.sealedSegments);
      ListingMeans(root.files.Keys);
      if SegmentNames.Listing(root.files.Keys).Ok? && CheckSealed(root.files, m) == Accepted {
        var names := SegmentNames.Listing(root.files.Keys).value;
        if CheckContents(c, root.files, m, names).Rejected? {
          var n: nat :| n <= 999999 && SegmentNames.Matching(root.files.Keys) == Elements(SegmentNames.Names(n))
            && names == SegmentNames.Names(n);
          var why := CheckContents(c, root.files, m, names).why;
          RejectedContents(c, root.files, m, n, why);
          SameContents(c, root.files, m, AppendMeaning.Found(root, maxBytes), n, why);
          ContentReasons(c, root.files, m, n, why);
        }
      }
    }
  }

  /** The sealed segments play no part in what is said about the contents. */
  lemma SameContents(c: Codec, files: Files, m: Manifest, m': Manifest, n: nat, why: Rejection)
    requires RejectsContents(c, files, m, n, why) && m' == m.(sealedSegments := m'.sealedSegments)
    ensures RejectsContents(c, files, m', n, why)
  {
    hide SegmentNames.SegmentName, SegmentNames.Names, SoundLines, FaultAt, AllLines;
  }

  lemma ContentReasons(c: Codec, files: Files, m: Manifest, n: nat, why: Rejection)
    requires RejectsContents(c, files, m, n, why)
    ensures !why.ManifestNotFound? && !why.ManifestUnreadable? && !why.BadListing? && !why.CurrentSealed?
    ensures !why.SealedMissing?
  {
    hide SegmentNames.SegmentName, SegmentNames.Names, SoundLines, AllLines;
  }
}
