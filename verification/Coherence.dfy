/**
 The invariant of the segmented store and how each effect of an append keeps it.
 */
module Coherence {
  import opened Wrappers
  import opened Records
  import opened Disk
  import opened Appending
  import opened Sorting
  import Strings
  import SegmentNames

  // ----- Lines of several files

  lemma {:induction false} AllLinesFrame(a: Files, b: Files, names: seq<string>)
    requires forall x :: x in names ==> x in a && x in b && a[x] == b[x]
    ensures AllLines(a, names) == AllLines(b, names)
  {
    if names != [] {
      AllLinesFrame(a, b, names[..|names| - 1]);
    }
  }

  /** Writing to the last of the named files only affects the end of the stream. */
  lemma AllLinesLast(files: Files, names: seq<string>, name: string, lines: seq<Line>)
    requires Distinct(names + [name]) && forall x :: x in names ==> x in files
    ensures AllLines(files[name := lines], names + [name]) == AllLines(files, names) + lines
  {
    var all := names + [name];
    assert all[..|names|] == names && all[|names|] == name;
    assert name !in names by {
      forall i | 0 <= i < |names| ensures names[i] != name { assert all[i] != all[|names|]; }
    }
    AllLinesFrame(files, files[name := lines], names);
  }

  /** Writing a record to any one of the named files adds one record to the stream. */
  lemma {:induction false} AddLineCounts(files: Files, names: seq<string>, name: string, l: Line)
    requires Distinct(names) && (forall x :: x in names ==> x in files) && l.Json?
    ensures |RecordsOf(AllLines(AddLine(files, name, l), names))|
      == |RecordsOf(AllLines(files, names))| + if name in names then 1 else 0
  {
    if names != [] {
      var n := |names| - 1;
      var rest, last := names[..n], names[n];
      var files' := AddLine(files, name, l);
      AddLineCounts(files, rest, name, l);
      RecordsOfConcat(AllLines(files, rest), files[last]);
      RecordsOfConcat(AllLines(files', rest), files'[last]);
      assert last !in rest;
      assert name in names <==> name in rest || name == last;
      if name == last { LinesSnoc(files[last], l); }
    }
  }

  // ----- The invariant

  function SegmentCount(m: Manifest): nat {
    |m.sealedSegments| + 1
  }

  /** `sealed_segments` names segments 1..n-1, `current_segment` is segment n, and no other file exists. */
  ghost predicate Layout(files: Files, m: Manifest) {
    var n := SegmentCount(m);
    && n <= SegmentNames.LIMIT + 1
    && m.sealedSegments == SegmentNames.Names(n - 1)
    && m.currentSegment == SegmentNames.SegmentName(n)
    && files.Keys == Elements(SegmentNames.Names(n))
    && m.segmentMaxBytes > 0
  }

  lemma LayoutNames(files: Files, m: Manifest)
    requires Layout(files, m)
    ensures SegmentNames.Names(SegmentCount(m)) == m.sealedSegments + [m.currentSegment]
    ensures Distinct(m.sealedSegments + [m.currentSegment])
    ensures "" !in m.sealedSegments + [m.currentSegment]
    ensures forall x :: x in files <==> x in m.sealedSegments + [m.currentSegment]
  {
    hide SegmentNames.SegmentName, SegmentNames.Names;
    var n := SegmentCount(m);
    SegmentNames.NamesSnoc(n - 1);
    SegmentNames.NamesDistinct(n);
    forall x ensures x in files <==> x in m.sealedSegments + [m.currentSegment] {
      assert x in files <==> x in files.Keys;
      assert x in Elements(SegmentNames.Names(n)) <==> x in SegmentNames.Names(n);
    }
  }

  /** The whole stored stream. */
  ghost function Stream(files: Files, m: Manifest): seq<Line>
    requires Layout(files, m)
  {
    LayoutNames(files, m);
    AllLines(files, m.sealedSegments) + files[m.currentSegment]
  }

  lemma StreamIsAllLines(files: Files, m: Manifest)
    requires Layout(files, m)
    ensures var all := m.sealedSegments + [m.currentSegment];
            (forall x :: x in all ==> x in files) && AllLines(files, all) == Stream(files, m)
  {
    hide SegmentNames.SegmentName, SegmentNames.Names, Layout;
    LayoutNames(files, m);
    var all := m.sealedSegments + [m.currentSegment];
    assert all[..|all| - 1] == m.sealedSegments && all[|all| - 1] == m.currentSegment;
  }

  ghost predicate Encoded(c: Codec, lines: seq<Line>) {
    forall i :: 0 <= i < |lines| ==> lines[i].Json? && lines[i] == LineFor(c, lines[i].rec)
  }

  /** A sealed file: over the segment size, but not before its last line. */
  ghost predicate JustOver(lines: seq<Line>, maxBytes: int) {
    |lines| > 0 && Size(lines[..|lines| - 1]) <= maxBytes < Size(lines)
  }

  /** The current file; `settled` means that rotation has already looked at the last line. */
  ghost predicate CurrentSize(lines: seq<Line>, maxBytes: int, settled: bool) {
    if settled then Size(lines) <= maxBytes
    else |lines| > 0 && Size(lines[..|lines| - 1]) <= maxBytes
  }

  ghost predicate Rotation(files: Files, m: Manifest, settled: bool)
    requires Layout(files, m)
  {
    LayoutNames(files, m);
    && (forall x :: x in m.sealedSegments ==> JustOver(files[x], m.segmentMaxBytes))
    && CurrentSize(files[m.currentSegment], m.segmentMaxBytes, settled)
  }

  /** The manifest caches what a full re-read of the records computes. */
  ghost predicate Caches(m: Manifest, recs: seq<Record>) {
    && m.recordsTotal == |recs|
    && m.lastHash == LastHash(recs)
    && m.policyRef == MergedRef(recs)
  }

  /** Files and manifest together hold exactly the submissions `subs`. */
  ghost predicate Coherent(c: Codec, files: Files, m: Manifest, subs: seq<Record>, settled: bool) {
    && Layout(files, m)
    && Rotation(files, m, settled)
    && Encoded(c, Stream(files, m))
    && IsChainOf(c, RecordsOf(Stream(files, m)), subs)
    && Caches(m, RecordsOf(Stream(files, m)))
  }

  // ----- Effects of an append

  lemma InitialCoherent(c: Codec, maxBytes: int)
    requires maxBytes > 0
    ensures var m := InitialManifest(maxBytes);
            && Coherent(c, map[SegmentNames.SegmentName(1) := []], m, [], true)
            && Published(m) == m
  {
    hide SegmentNames.SegmentName;
    var m := InitialManifest(maxBytes);
    var files: Files := map[SegmentNames.SegmentName(1) := []];
    SegmentNames.NamesSnoc(0);
    SegmentNames.SegmentNameShape(1);
    assert SegmentNames.Names(1) == [SegmentNames.SegmentName(1)];
    assert files.Keys == Elements(SegmentNames.Names(1));
    assert Layout(files, m);
    assert Stream(files, m) == [];
    LayoutSettles(files, m, maxBytes);
  }

  /** Loading or publishing a manifest of this layout leaves it as it is. */
  lemma LayoutSettles(files: Files, m: Manifest, maxBytes: int)
    requires Layout(files, m)
    ensures Normalized(m, maxBytes) == m && Published(m) == m
  {
    hide SegmentNames.SegmentName, SegmentNames.Names, Strings.Canonical;
    LayoutNames(files, m);
    var all := m.sealedSegments + [m.currentSegment];
    assert m.currentSegment == all[|m.sealedSegments|];
    assert m.currentSegment !in m.sealedSegments by {
      forall i | 0 <= i < |m.sealedSegments| ensures m.sealedSegments[i] != m.currentSegment {
        assert all[i] != all[|m.sealedSegments|];
      }
    }
    SegmentNames.NamesSorted(SegmentCount(m) - 1);
    Strings.CanonicalFixed(m.sealedSegments);
  }

  lemma MemberOfSnoc<T>(s: seq<T>, x: T)
    requires Distinct(s + [x])
    ensures x !in s && x in s + [x]
  {
    assert (s + [x])[|s|] == x;
    forall i | 0 <= i < |s| ensures s[i] != x { assert (s + [x])[i] != (s + [x])[|s|]; }
  }

  /** Writing a line to the current segment. */
  lemma WriteLayout(files: Files, m: Manifest, l: Line, r: Record)
    requires Layout(files, m)
    ensures var files', m' := AddLine(files, m.currentSegment, l), Bumped(m, r);
            && Layout(files', m')
            && Stream(files', m') == Stream(files, m) + [l]
            && m.currentSegment in files
            && files'[m.currentSegment] == files[m.currentSegment] + [l]
            && forall x :: x in m.sealedSegments ==> x in files && x in files' && files'[x] == files[x]
  {
    hide SegmentNames.SegmentName, SegmentNames.Names, Elements, Size, MergeRef;
    LayoutNames(files, m);
    MemberOfSnoc(m.sealedSegments, m.currentSegment);
    var files' := AddLine(files, m.currentSegment, l);
    assert files'.Keys == files.Keys;
    AllLinesFrame(files, files', m.sealedSegments);
  }

  lemma WriteRotation(files: Files, m: Manifest, l: Line, r: Record)
    requires Layout(files, m) && Rotation(files, m, true)
    ensures var files', m' := AddLine(files, m.currentSegment, l), Bumped(m, r);
            Layout(files', m') && Rotation(files', m', false)
  {
    hide SegmentNames.SegmentName, SegmentNames.Names, Layout, Stream, JustOver, AddLine;
    WriteLayout(files, m, l, r);
    var files' := AddLine(files, m.currentSegment, l);
    var lines := files[m.currentSegment];
    assert (lines + [l])[..|lines|] == lines;
  }

  /** Writing the linked record extends the submissions by one and leaves rotation to be decided. */
  lemma WriteCoherent(c: Codec, files: Files, m: Manifest, subs: seq<Record>, sub: Record, r: Record)
    requires Coherent(c, files, m, subs, true)
    requires Link(c, m.lastHash, sub) == Some(r)
    ensures Coherent(c, AddLine(files, m.currentSegment, LineFor(c, r)), Bumped(m, r), subs + [sub], false)
  {
    hide SegmentNames.SegmentName, SegmentNames.Names, Link, IsChainOf, Layout, Rotation, Stream, AddLine, RecordsOf;
    var l := LineFor(c, r);
    WriteLayout(files, m, l, r);
    WriteRotation(files, m, l, r);
    var before := Stream(files, m);
    LinesSnoc(before, l);
    var recs := RecordsOf(before);
    ChainLength(c, recs, subs);
    IsChainOfSnoc(c, recs, subs, r, sub);
    UniformSnoc(recs, r);
  }

  lemma ChainLength(c: Codec, recs: seq<Record>, subs: seq<Record>)
    requires IsChainOf(c, recs, subs)
    ensures |recs| == |subs|
  {
  }

  /** The manifest after segment n + 1 has been opened. */
  function Opened(m: Manifest): Manifest {
    m.(currentSegment := SegmentNames.SegmentName(SegmentCount(m) + 1),
       sealedSegments := m.sealedSegments + [m.currentSegment])
  }

  lemma OpenLayout(files: Files, m: Manifest)
    requires Layout(files, m) && SegmentCount(m) <= SegmentNames.LIMIT
    ensures var next := Opened(m).currentSegment;
            && next !in files
            && next !in Opened(m).sealedSegments
            && Layout(files[next := []], Opened(m))
  {
    hide SegmentNames.SegmentName, SegmentNames.Names;
    LayoutNames(files, m);
    var n := SegmentCount(m);
    var next := SegmentNames.SegmentName(n + 1);
    var all := m.sealedSegments + [m.currentSegment];
    SegmentNames.NamesSnoc(n);
    SegmentNames.NamesDistinct(n + 1);
    MemberOfSnoc(all, next);
    assert files[next := []].Keys == files.Keys + {next};
    ElementsSnoc(all, next);
  }

  lemma OpenStream(files: Files, m: Manifest)
    requires Layout(files, m) && SegmentCount(m) <= SegmentNames.LIMIT
    ensures var files' := files[Opened(m).currentSegment := []];
            Layout(files', Opened(m)) && Stream(files', Opened(m)) == Stream(files, m)
  {
    hide SegmentNames.SegmentName, SegmentNames.Names, Layout;
    LayoutNames(files, m);
    OpenLayout(files, m);
    var files' := files[Opened(m).currentSegment := []];
    var all := m.sealedSegments + [m.currentSegment];
    AllLinesFrame(files, files', all);
    assert all[..|all| - 1] == m.sealedSegments && all[|all| - 1] == m.currentSegment;
    assert AllLines(files', all) + [] == AllLines(files', all);
  }

  lemma OpenRotation(files: Files, m: Manifest)
    requires Layout(files, m) && SegmentCount(m) <= SegmentNames.LIMIT
    requires Rotation(files, m, false) && m.currentSegment in files
    requires Size(files[m.currentSegment]) > m.segmentMaxBytes > 0
    ensures var files' := files[Opened(m).currentSegment := []];
            Layout(files', Opened(m)) && Rotation(files', Opened(m), true)
  {
    hide SegmentNames.SegmentName, SegmentNames.Names, Layout;
    LayoutNames(files, m);
    OpenLayout(files, m);
  }

  /** Opening segment n + 1 settles the store. */
  lemma OpenCoherent(c: Codec, files: Files, m: Manifest, subs: seq<Record>)
    requires Coherent(c, files, m, subs, false)
    requires SegmentCount(m) <= SegmentNames.LIMIT && m.currentSegment in files
    requires Size(files[m.currentSegment]) > m.segmentMaxBytes
    ensures Coherent(c, files[Opened(m).currentSegment := []], Opened(m), subs, true)
  {
    hide SegmentNames.SegmentName, SegmentNames.Names, IsChainOf, RecordsOf, Stream, Rotation, Encoded;
    OpenStream(files, m);
    OpenRotation(files, m);
  }

  /** The listing a rotation works from. */
  lemma RotateListing(files: Files, m: Manifest)
    requires Layout(files, m)
    ensures var n, all := SegmentCount(m), m.sealedSegments + [m.currentSegment];
            if n <= SegmentNames.LIMIT then
              && SegmentNames.Listing(files.Keys) == Ok(all)
              && NextIndex(all) == Ok(n + 1)
              && Strings.Canonical(all) == all
            else
              && n == SegmentNames.LIMIT + 1
              && SegmentNames.Listing(files.Keys) == Err("bad segment sequence")
  {
    hide SegmentNames.SegmentName, SegmentNames.Names, SegmentNames.Listing, SegmentNames.ParseSegmentIndex,
         Strings.Canonical, Elements;
    LayoutNames(files, m);
    var n := SegmentCount(m);
    var all := m.sealedSegments + [m.currentSegment];
    assert all[n - 1] == m.currentSegment;
    SegmentNames.ListingOfNames(files.Keys, n);
    if n <= SegmentNames.LIMIT {
      SegmentNames.ParseInvertsName(m.currentSegment, n);
      SegmentNames.NamesSorted(n);
      Strings.CanonicalFixed(all);
    }
  }

  /** What `Rotate` does to a store of this layout. */
  lemma RotateLayout(files: Files, m: Manifest)
    requires Layout(files, m)
    ensures m.currentSegment in files
    ensures Rotate(files, m) ==
      if Size(files[m.currentSegment]) <= m.segmentMaxBytes then Ok((files, m))
      else if SegmentCount(m) <= SegmentNames.LIMIT then Ok((files[Opened(m).currentSegment := []], Opened(m)))
      else Err("bad segment sequence")
  {
    hide SegmentNames.SegmentName, SegmentNames.Names, SegmentNames.Listing, NextIndex,
         Strings.Canonical, Size, Layout, WithoutName;
    LayoutNames(files, m);
    assert (m.sealedSegments + [m.currentSegment])[|m.sealedSegments|] == m.currentSegment;
    RotateListing(files, m);
    if SegmentCount(m) <= SegmentNames.LIMIT {
      OpenLayout(files, m);
    }
  }

  /** Rotation settles the store; it can fail only when the last possible segment is already open. */
  lemma RotateCoherent(c: Codec, files: Files, m: Manifest, subs: seq<Record>)
    requires Coherent(c, files, m, subs, false)
    ensures match Rotate(files, m)
            case Err(_) => SegmentCount(m) == SegmentNames.LIMIT + 1
            case Ok(next) => Coherent(c, next.0, next.1, subs, true)
  {
    hide SegmentNames.SegmentName, SegmentNames.Names, IsChainOf, RecordsOf, Stream, Encoded, Rotate, Opened;
    RotateLayout(files, m);
    if Size(files[m.currentSegment]) > m.segmentMaxBytes && SegmentCount(m) <= SegmentNames.LIMIT {
      OpenCoherent(c, files, m, subs);
    }
  }
}
