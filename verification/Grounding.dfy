/**
 The weaker invariant that survives every crash: segments stay numbered without gaps, only grow, and
 sealed ones are never written.
 */
module Grounding {
  import opened Wrappers
  import opened Records
  import opened Disk
  import opened Validation
  import opened Appending
  import opened Coherence
  import opened Sorting
  import Strings
  import SegmentNames

  /** The segment files are exactly segments 1..n. */
  ghost predicate Numbered(files: Files) {
    && 1 <= |files| <= SegmentNames.LIMIT + 1
    && files.Keys == Elements(SegmentNames.Names(|files|))
  }

  lemma NumberedNames(files: Files)
    requires Numbered(files)
    ensures Distinct(SegmentNames.Names(|files|))
    ensures forall x :: x in files <==> x in SegmentNames.Names(|files|)
    ensures "" !in files
  {
    hide SegmentNames.SegmentName, SegmentNames.Names;
    SegmentNames.NamesDistinct(|files|);
    forall x ensures x in files <==> x in SegmentNames.Names(|files|) {
      assert x in files <==> x in files.Keys;
      assert x in Elements(SegmentNames.Names(|files|)) <==> x in SegmentNames.Names(|files|);
    }
  }

  /** The records on disk, in order. */
  ghost function Log(files: Files): seq<Record>
    requires Numbered(files)
  {
    NumberedNames(files);
    RecordsOf(AllLines(files, SegmentNames.Names(|files|)))
  }

  ghost function Total(files: Files): nat
    requires Numbered(files)
  {
    |Log(files)|
  }

  /** The records a segmented root holds. */
  ghost function Stored(root: Root): seq<Record> {
    if root.manifest.Present? && Numbered(root.files) then Log(root.files) else []
  }

  ghost predicate Grounded(files: Files, m: Manifest) {
    && Numbered(files)
    && m.currentSegment in files
    && m.currentSegment !in m.sealedSegments
    && (forall x :: x in m.sealedSegments ==> x in files)
    && Strings.Canonical(m.sealedSegments) == m.sealedSegments
    && m.segmentMaxBytes > 0
  }

  /** Files only gain lines, and only new files appear. */
  ghost predicate Grows(a: Files, b: Files) {
    forall x :: x in a ==> x in b && a[x] <= b[x]
  }

  /** Unchanged files have grown, by nothing. */
  lemma GrowsSame(a: Files, b: Files)
    requires forall x :: x in a ==> x in b && b[x] == a[x]
    ensures Grows(a, b)
  {
  }

  lemma GroundedSettles(files: Files, m: Manifest, maxBytes: int)
    requires Grounded(files, m)
    ensures Normalized(m, maxBytes) == m && Published(m) == m
  {
    hide SegmentNames.SegmentName, SegmentNames.Names, Strings.Canonical, Numbered;
    NumberedNames(files);
  }

  lemma InitialGrounded(maxBytes: int)
    requires maxBytes > 0
    ensures var files: Files := map[SegmentNames.SegmentName(1) := []];
            && Grounded(files, InitialManifest(maxBytes))
            && Published(InitialManifest(maxBytes)) == InitialManifest(maxBytes)
            && Total(files) == 0
  {
    hide SegmentNames.SegmentName;
    var name := SegmentNames.SegmentName(1);
    var files: Files := map[name := []];
    assert |files| == 1;
    assert SegmentNames.Names(1) == [name];
    assert files.Keys == Elements(SegmentNames.Names(1));
    Strings.CanonicalSpec([]);
    assert AllLines(files, [name]) == [];
    GroundedSettles(files, InitialManifest(maxBytes), maxBytes);
  }

  lemma GroundedWrite(files: Files, m: Manifest, l: Line)
    requires Grounded(files, m) && l.Json?
    ensures var files' := AddLine(files, m.currentSegment, l);
            && Grounded(files', m)
            && Total(files') == Total(files) + 1
            && Grows(files, files')
            && forall x :: x in m.sealedSegments ==> files'[x] == files[x]
  {
    hide SegmentNames.SegmentName, SegmentNames.Names, Strings.Canonical, RecordsOf, AllLines;
    var files' := AddLine(files, m.currentSegment, l);
    assert files'.Keys == files.Keys;
    assert |files'| == |files'.Keys| == |files.Keys| == |files|;
    NumberedNames(files);
    AddLineCounts(files, SegmentNames.Names(|files|), m.currentSegment, l);
  }

  /** Adding an empty segment n + 1. */
  lemma NumberedOpen(files: Files)
    requires Numbered(files) && |files| <= SegmentNames.LIMIT
    ensures var next := SegmentNames.SegmentName(|files| + 1);
            && next !in files
            && |files[next := []]| == |files| + 1
            && Numbered(files[next := []])
  {
    hide SegmentNames.SegmentName, SegmentNames.Names, Elements, SegmentNames.Listing;
    NumberedNames(files);
    var n := |files|;
    var names := SegmentNames.Names(n);
    var next := SegmentNames.SegmentName(n + 1);
    SegmentNames.NamesSnoc(n);
    SegmentNames.NamesDistinct(n + 1);
    MemberOfSnoc(names, next);
    ElementsSnoc(names, next);
    var files' := files[next := []];
    assert files'.Keys == files.Keys + {next};
    SegmentNames.ListingOfNames(files'.Keys, n + 1);
  }

  lemma OpenKeepsTotal(files: Files)
    requires Numbered(files) && |files| <= SegmentNames.LIMIT
    ensures var next := SegmentNames.SegmentName(|files| + 1);
            Numbered(files[next := []]) && Total(files[next := []]) == Total(files)
  {
    hide SegmentNames.SegmentName, SegmentNames.Names, RecordsOf, Numbered, AllLines;
    var n := |files|;
    var names := SegmentNames.Names(n);
    var next := SegmentNames.SegmentName(n + 1);
    NumberedOpen(files);
    NumberedNames(files);
    SegmentNames.NamesSnoc(n);
    SegmentNames.NamesDistinct(n + 1);
    AllLinesLast(files, names, next, []);
    assert AllLines(files, names) + [] == AllLines(files, names);
  }

  /** The listing and next index a rotation sees. */
  lemma GroundedListing(files: Files)
    requires Numbered(files)
    ensures var n := |files|;
            if n <= SegmentNames.LIMIT then
              && SegmentNames.Listing(files.Keys) == Ok(SegmentNames.Names(n))
              && NextIndex(SegmentNames.Names(n)) == Ok(n + 1)
            else SegmentNames.Listing(files.Keys).Err?
  {
    hide SegmentNames.SegmentName, SegmentNames.Listing, SegmentNames.ParseSegmentIndex, Elements;
    var n := |files|;
    SegmentNames.ListingOfNames(files.Keys, n);
    if n <= SegmentNames.LIMIT {
      SegmentNames.ParseInvertsName(SegmentNames.SegmentName(n), n);
    }
  }

  lemma SealedAfterRotate(files: Files, m: Manifest, next: string)
    requires Grounded(files, m) && next !in files
    ensures var sealed_ := WithoutName(Strings.Canonical(m.sealedSegments + [m.currentSegment]), next);
            && (forall x :: x in sealed_ <==> x in m.sealedSegments || x == m.currentSegment)
            && Strings.Canonical(sealed_) == sealed_
  {
    hide Strings.Canonical, Numbered;
    NumberedNames(files);
    var all := m.sealedSegments + [m.currentSegment];
    Strings.CanonicalSpec(all);
    Strings.CanonicalIdempotent(all);
  }

  lemma GroundedRotate(files: Files, m: Manifest)
    requires Grounded(files, m)
    ensures Rotate(files, m).Ok? ==>
      var (files', m') := Rotate(files, m).value;
      && Grounded(files', m')
      && Total(files') == Total(files)
      && m'.recordsTotal == m.recordsTotal
      && (forall x :: x in files ==> x in files' && files'[x] == files[x])
      && (forall x :: x in m.sealedSegments ==> x in m'.sealedSegments)
  {
    hide SegmentNames.SegmentName, SegmentNames.Names, SegmentNames.Listing, NextIndex, Strings.Canonical, Size,
         Numbered, Log;
    GroundedListing(files);
    if |files| <= SegmentNames.LIMIT {
      NumberedOpen(files);
      OpenKeepsTotal(files);
      SealedAfterRotate(files, m, SegmentNames.SegmentName(|files| + 1));
    }
  }

  /** A record count that differs from `records_total` is always rejected. */
  lemma MiscountRejected(c: Codec, files: Files, m: Manifest)
    requires Grounded(files, m) && Total(files) != m.recordsTotal
    ensures !SoundStore(c, files, m)
  {
    hide SegmentNames.SegmentName, SegmentNames.Names, SegmentNames.Listing, Strings.Canonical, SoundLines,
         RecordsOf, AllLines;
    GroundedListing(files);
    NumberedNames(files);
  }

  /** The log of a coherent store, described by its files alone. */
  lemma CoherentLog(c: Codec, files: Files, m: Manifest, subs: seq<Record>, settled: bool)
    requires Coherent(c, files, m, subs, settled)
    ensures Numbered(files) && |files| == SegmentCount(m)
    ensures Log(files) == RecordsOf(Stream(files, m))
    ensures IsChainOf(c, Log(files), subs)
    ensures Caches(m, Log(files))
  {
    hide SegmentNames.SegmentName, SegmentNames.Names, SegmentNames.Listing, IsChainOf, Stream, Rotation, Encoded,
         RecordsOf, MergedRef, LastHash;
    SegmentNames.ListingOfNames(files.Keys, SegmentCount(m));
    assert |files| == |files.Keys|;
    LayoutNames(files, m);
    StreamIsAllLines(files, m);
  }
}
