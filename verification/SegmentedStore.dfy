/**
 The segmented store as the code runs it: fields updated in place, loops over names and lines. Every
 method is proved against the functions the other modules reason about
 (pkg/evidence/segment.go, pkg/evidence/manifest.go, pkg/evidence/forwarder.go).
 */
module SegmentedStore {
  import opened Wrappers
  import opened Records
  import opened Disk
  import opened Sorting
  import opened Appending
  import opened Validation
  import opened Cursors
  import opened AppendMeaning
  import Strings
  import SegmentNames

  /** `removeSegment`. */
  method RemoveSegment(names: seq<string>, segment: string) returns (out: seq<string>)
    ensures out == WithoutName(names, segment)
  {
    out := [];
    for i := 0 to |names|
      invariant out == WithoutName(names[..i], segment)
    {
      assert names[..i + 1][..i] == names[..i];
      if names[i] != segment {
        out := out + [names[i]];
      }
    }
    assert names[..|names|] == names;
  }

  /** `containsSegment`. */
  method ContainsSegment(names: seq<string>, segment: string) returns (found: bool)
    ensures found <==> segment in names
  {
    for i := 0 to |names|
      invariant segment !in names[..i]
    {
      if names[i] == segment { return true; }
    }
    return false;
  }

  lemma NormalizedTwice(m: Manifest, maxBytes: int)
    ensures Normalized(Normalized(m, maxBytes), maxBytes) == Normalized(m, maxBytes)
    ensures Normalized(InitialManifest(maxBytes), maxBytes) == InitialManifest(maxBytes)
  {
    hide SegmentNames.SegmentName;
    Strings.CanonicalIdempotent(m.sealedSegments);
    SegmentNames.SegmentNameShape(1);
    assert Strings.Canonical([]) == [] by { Strings.CanonicalFixed([]); }
  }

  lemma FreshIsPublished(maxBytes: int)
    ensures FIRST == SegmentNames.SegmentName(1)
    ensures Published(InitialManifest(maxBytes)) == InitialManifest(maxBytes)
  {
    FirstName();
    SegmentNames.SegmentNameShape(1);
    Strings.CanonicalFixed([]);
  }

  datatype LoadError = NotExist | ParseError

  class SegmentedStore {
    const c: Codec
    var created: bool
    var files: Files
    var manifest: ManifestFile

    ghost function View(): Root
      reads this
    {
      Root(created, files, manifest)
    }

    constructor (codec: Codec)
      ensures c == codec && View() == EMPTY_ROOT
    {
      c := codec;
      created, files, manifest := false, map[], Absent;
    }

    /** Directory entries, in no particular order. */
    method ListDirectory() returns (entries: seq<string>)
      ensures Distinct(entries) && Elements(entries) == files.Keys
    {
      entries := [];
      var rest := files.Keys;
      while rest != {}
        invariant Distinct(entries) && rest <= files.Keys
        invariant forall x :: x in entries <==> x in files.Keys && x !in rest
        decreases |rest|
      {
        var name :| name in rest;
        entries, rest := entries + [name], rest - {name};
      }
    }

    method OrderedNames() returns (r: Result<seq<string>, string>)
      ensures r.Ok? ==> SegmentNames.Listing(files.Keys) == r
      ensures r.Err? ==> SegmentNames.Listing(files.Keys).Err?
    {
      var entries := ListDirectory();
      var listed := SegmentNames.OrderedSegmentNames(entries);
      r := if listed.Ok? then Ok(listed.value.1) else Err(listed.error);
    }

    /** `writeManifestAtomic`: the rename publishes the whole manifest at once. */
    method WriteManifestAtomic(m0: Manifest)
      modifies this`manifest
      ensures manifest == Present(Published(m0))
      ensures var m := manifest.manifest;
              && m == m0.(currentSegment := if m0.currentSegment == "" then FIRST else m0.currentSegment,
                          sealedSegments := m.sealedSegments)
              && StrictlySorted(Strings.Less, m.sealedSegments)
              && forall x :: x in m.sealedSegments <==> x in m0.sealedSegments && x != "" && x != m.currentSegment
    {
      hide SegmentNames.SegmentName, Strings.Canonical, Strings.Less;
      FirstName();
      PublishedMeans(m0.(currentSegment := if m0.currentSegment == "" then FIRST else m0.currentSegment));
      var m := m0;
      if m.currentSegment == "" {
        m := m.(currentSegment := SegmentNames.SegmentName(1));
      }
      var names := Strings.SortedDedupe(m.sealedSegments);
      names := RemoveSegment(names, m.currentSegment);
      m := m.(sealedSegments := names);
      manifest := Present(m);
    }

    /** Reads and normalises the manifest. */
    method ReadManifest(maxBytes: int) returns (r: Result<Manifest, LoadError>)
      ensures match manifest
              case Absent => r == Err(NotExist)
              case Corrupt => r == Err(ParseError)
              case Present(m) =>
                && r == Ok(Normalized(m, maxBytes))
                && r.value == Found(View(), maxBytes).(sealedSegments := r.value.sealedSegments)
                && StrictlySorted(Strings.Less, r.value.sealedSegments)
                && forall x :: x in r.value.sealedSegments <==> x in m.sealedSegments && x != ""
    {
      hide SegmentNames.SegmentName, Strings.Canonical, Strings.Less;
      FirstName();
      if manifest.Present? { Strings.CanonicalSpec(manifest.manifest.sealedSegments); }
      match manifest
      case Absent => r := Err(NotExist);
      case Corrupt => r := Err(ParseError);
      case Present(m0) =>
        var m := m0;
        if m.segmentMaxBytes <= 0 {
          m := m.(segmentMaxBytes := maxBytes);
        }
        if m.currentSegment == "" {
          m := m.(currentSegment := SegmentNames.SegmentName(1));
        }
        var names := Strings.SortedDedupe(m.sealedSegments);
        r := Ok(m.(sealedSegments := names));
    }

    /** `loadOrInitManifest`: a missing manifest truncates segment 1 and publishes a fresh manifest. */
    method LoadOrInitManifest(maxBytes: int, create: bool) returns (r: Result<Manifest, LoadError>)
      modifies this
      ensures match old(manifest)
              case Corrupt => r == Err(ParseError) && View() == old(View())
              case Present(m) => r == Ok(Normalized(m, maxBytes)) && View() == old(View())
              case Absent =>
                if create then
                  && r == Ok(InitialManifest(maxBytes)) && r.value == Manifest(FIRST, [], maxBytes, 0, "", "")
                  && View() == Root(true, old(files)[FIRST := []], Present(Manifest(FIRST, [], maxBytes, 0, "", "")))
                else r == Err(NotExist) && View() == old(View())
    {
      hide SegmentNames.SegmentName;
      FirstName();
      SegmentNames.SegmentNameShape(1);
      Strings.CanonicalFixed([]);
      r := ReadManifest(maxBytes);
      if r == Err(NotExist) && create {
        var m := InitialManifest(maxBytes);
        created := true;
        files := files[m.currentSegment := []];
        WriteManifestAtomic(m);
        r := Ok(m);
      }
    }

    /** `Store.Init` on a segmented root. */
    method Init(maxBytes: int) returns (r: Result<(), LoadError>)
      modifies this
      ensures r.Ok? <==> !old(manifest).Corrupt?
      ensures r.Ok? ==> manifest.Present?
      ensures !old(manifest).Absent? ==> View() == old(View())
      ensures old(manifest).Absent? ==>
        View() == Root(true, old(files)[FIRST := []], Present(Manifest(FIRST, [], maxBytes, 0, "", "")))
    {
      hide SegmentNames.SegmentName, Published, Normalized;
      var loaded := LoadOrInitManifest(maxBytes, true);
      r := if loaded.Ok? then Ok(()) else Err(loaded.error);
    }

    /** The part of `appendSegmented` that seals the current segment and opens the next one. */
    method RotateIfNeeded(m0: Manifest) returns (r: Result<Manifest, AppendError>)
      modifies this`files
      ensures match Rotate(old(files), m0)
              case Ok(next) => r == Ok(next.1) && files == next.0
              case Err(_) => r == Err(AppendError.BadListing) && files == old(files)
    {
      hide SegmentNames.SegmentName, SegmentNames.Listing, SegmentNames.ParseSegmentIndex, Strings.Canonical, Size;
      var m := m0;
      if m.currentSegment in files && Size(files[m.currentSegment]) > m.segmentMaxBytes {
        var sealed_ := Strings.SortedDedupe(m.sealedSegments + [m.currentSegment]);
        var names := OrderedNames();
        if names.Err? { return Err(AppendError.BadListing); }
        var next := 1;
        if |names.value| > 0 {
          var last := SegmentNames.ParseSegmentIndex(names.value[|names.value| - 1]);
          if last.Err? { return Err(AppendError.BadListing); }
          next := last.value + 1;
        }
        m := m.(currentSegment := SegmentNames.SegmentName(next));
        sealed_ := RemoveSegment(sealed_, m.currentSegment);
        m := m.(sealedSegments := sealed_);
        if m.currentSegment !in files {
          files := files[m.currentSegment := []];
        }
      }
      r := Ok(m);
    }

    /** `appendSegmented`: one undisturbed call is the five effects of `Append`. */
    method AppendSegmented(job: Job) returns (r: Result<Record, AppendError>)
      modifies this
      ensures var p := Append(c, old(View()), job);
              && View() == p.root
              && match p.stage
                 case Done(rec) => r == Ok(rec)
                 case Failed(e) => r == Err(e)
                 case _ => false
      ensures match r
              case Ok(rec) => Appended(c, old(View()), job, View(), rec)
              case Err(error) => Refused(c, old(View()), job, View(), error)
    {
      hide SegmentNames.SegmentName, Rotate, Link, Published, Normalized, AddLine, SegmentNames.Listing, Appended,
           Refused, Found, Strings.Less;
      AppendEnds(c, View(), job);
      AppendMeans(c, View(), job);
      FreshIsPublished(job.maxBytes);
      var loaded := LoadOrInitManifest(job.maxBytes, true);
      if loaded.Err? { return Err(AppendError.ManifestUnreadable); }
      var m := loaded.value;
      NormalizedTwice(if old(manifest).Present? then old(manifest).manifest else m, job.maxBytes);
      m := Normalized(m, job.maxBytes);
      var linked := Link(c, m.lastHash, Submission(job));
      if linked.None? { return Err(AppendError.Unhashable); }
      var rec := linked.value;
      files := AddLine(files, m.currentSegment, LineFor(c, rec));
      m := Bumped(m, rec);
      var rotated := RotateIfNeeded(m);
      if rotated.Err? { return Err(AppendError.BadListing); }
      WriteManifestAtomic(rotated.value);
      return Ok(rec);
    }

    /** `validateManifestSealedInvariants`. */
    method CheckSealedSegments(m: Manifest) returns (v: Verdict)
      ensures v == CheckSealed(files, m)
    {
      hide Strings.Canonical;
      if m.currentSegment == "" { return Rejected(CurrentEmpty); }
      var listed := ContainsSegment(m.sealedSegments, m.currentSegment);
      if listed { return Rejected(CurrentSealed); }
      var expected := Strings.SortedDedupe(m.sealedSegments);
      if |expected| != |m.sealedSegments| { return Rejected(SealedNotCanonical); }
      for i := 0 to |expected|
        invariant expected[..i] == m.sealedSegments[..i]
      {
        if expected[i] != m.sealedSegments[i] { return Rejected(SealedNotCanonical); }
      }
      assert expected[..|expected|] == expected && m.sealedSegments[..|expected|] == m.sealedSegments;
      for i := 0 to |m.sealedSegments|
        invariant forall k :: 0 <= k < i ==> m.sealedSegments[k] in files
      {
        if m.sealedSegments[i] !in files { return Rejected(SealedMissing); }
      }
      return Accepted;
    }

    /** The validation callback over the lines of one segment, continuing from the lines before it. */
    method CheckSegment(ghost before: seq<Line>, lines: seq<Line>, t0: Tally) returns (r: Result<Tally, Rejection>)
      requires CheckLines(c, before) == Ok(t0)
      ensures r == CheckLines(c, before + lines)
    {
      hide CheckLines, CheckRecord, ReadLine;
      var prev, total, policyRef := t0.prev, t0.total, t0.policyRef;
      ghost var all := before + lines;
      assert all[..|before|] == before;
      for i := 0 to |lines|
        invariant CheckLines(c, all[..|before| + i]) == Ok(Tally(prev, total, policyRef))
      {
        CheckLinesNext(c, all, |before| + i);
        assert all[|before| + i] == lines[i];
        var read := ReadLine(lines[i]);
        var checked := if read.Err? then Err(Rejection.Unreadable(read.error))
                       else if read.value == [] then Ok(Tally(prev, total, policyRef))
                       else CheckRecord(c, Tally(prev, total, policyRef), read.value[0]);
        if checked.Err? {
          RejectionSticks(c, all, |before| + i + 1);
          return checked;
        }
        prev, total, policyRef := checked.value.prev, checked.value.total, checked.value.policyRef;
      }
      assert all[..|before| + |lines|] == all;
      r := Ok(Tally(prev, total, policyRef));
    }

    /** `validateSegmentedChain`. */
    method ValidateSegmentedChain(maxBytes: int) returns (v: Verdict)
      ensures v == Validate(c, View(), maxBytes)
    {
      hide SegmentNames.SegmentName, SegmentNames.Listing, Normalized, CheckSealed, CheckLines, AllLines;
      var loaded := ReadManifest(maxBytes);
      if loaded.Err? {
        if loaded.error == NotExist {
          return if created then Rejected(ManifestNotFound) else Accepted;
        }
        return Rejected(Rejection.ManifestUnreadable);
      }
      var m := loaded.value;
      var listed := OrderedNames();
      if listed.Err? { return Rejected(Rejection.BadListing); }
      var names := listed.value;
      v := CheckSealedSegments(m);
      if v != Accepted { return; }
      v := CheckStream(m, names);
    }

    /** The loop of the validator over the listed segments and its final comparisons. */
    method CheckStream(m: Manifest, names: seq<string>) returns (v: Verdict)
      requires forall x :: x in names ==> x in files
      ensures v == CheckContents(c, files, m, names)
    {
      if |names| == 0 {
        return if m.recordsTotal != 0 || m.lastHash != "" then Rejected(RecordsWithoutSegments) else Accepted;
      }
      var t := Tally("", 0, "");
      for i := 0 to |names|
        invariant CheckLines(c, AllLines(files, names[..i])) == Ok(t)
      {
        assert names[..i + 1][..i] == names[..i];
        var r := CheckSegment(AllLines(files, names[..i]), files[names[i]], t);
        if r.Err? {
          StreamRejection(names, i + 1);
          return Rejected(r.error);
        }
        t := r.value;
      }
      assert names[..|names|] == names;
      return CheckTally(m, t, names[|names| - 1]);
    }

    /** A segment that is rejected decides the verdict on all of them. */
    lemma {:induction false} StreamRejection(names: seq<string>, k: nat)
      requires (forall x :: x in names ==> x in files) && k <= |names|
      requires CheckLines(c, AllLines(files, names[..k])).Err?
      ensures CheckLines(c, AllLines(files, names)) == CheckLines(c, AllLines(files, names[..k]))
      decreases |names| - k
    {
      if k < |names| {
        assert names[..k + 1][..k] == names[..k];
        var before := AllLines(files, names[..k]);
        var more := AllLines(files, names[..k + 1]);
        assert more[..|before|] == before;
        RejectionSticks(c, more, |before|);
        StreamRejection(names, k + 1);
      } else {
        assert names[..k] == names;
      }
    }

    /** `resolveCursorRecordUnlocked`. */
    method ResolveCursorRecord(segment: string, line: int) returns (r: Result<Record, CursorError>)
      ensures r == Resolve(files, segment, line)
      ensures line < 0 ==> r == Err(LineOutOfRange)
      ensures line >= 0 && segment !in files ==> r == Err(SegmentNotFound)
      ensures segment in files && line >= 0 && Readable(files[segment]) ==>
        r == if line < |RecordsOf(files[segment])| then Ok(RecordsOf(files[segment])[line]) else Err(LineOutOfRange)
    {
      if segment in files && line >= 0 && Readable(files[segment]) { ResolveInReads(files[segment], line); }
      if line < 0 { return Err(LineOutOfRange); }
      if segment !in files { return Err(SegmentNotFound); }
      var lines := files[segment];
      var current := 0;
      for i := 0 to |lines|
        invariant current <= line
        invariant ResolveIn(lines, line) == ResolveIn(lines[i..], line - current)
      {
        var read := ReadLine(lines[i]);
        if read.Err? { return Err(CursorError.Unreadable(read.error)); }
        assert lines[i..][1..] == lines[i + 1..];
        if read.value != [] {
          if current == line { return Ok(read.value[0]); }
          current := current + 1;
        }
      }
      return Err(LineOutOfRange);
    }
  }
}
