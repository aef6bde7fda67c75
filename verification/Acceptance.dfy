/**
 When the validator accepts a store that appends have built: append and validate agree except where the
 code lets a record in that the validator or the reader refuses.
 */
module Acceptance {
  import opened Wrappers
  import opened Records
  import opened Disk
  import opened Validation
  import opened Coherence
  import SegmentNames

  /** Every record's line is within the scanner's limit. */
  ghost predicate Fits(c: Codec, recs: seq<Record>) {
    forall i :: 0 <= i < |recs| ==> c.lineSize(recs[i]) <= MAX_LINE
  }

  lemma {:induction false} EncodedReadable(c: Codec, lines: seq<Line>)
    requires Encoded(c, lines)
    ensures |RecordsOf(lines)| == |lines|
    ensures forall i :: 0 <= i < |lines| ==> RecordsOf(lines)[i] == lines[i].rec
    ensures Readable(lines) <==> Fits(c, RecordsOf(lines))
  {
    if lines != [] {
      var n := |lines| - 1;
      EncodedReadable(c, lines[..n]);
      assert forall i :: 0 <= i < n ==> lines[..n][i] == lines[i];
    }
  }

  /** A reader gets exactly the stored records, unless a line or the number of segments is over its limit. */
  lemma CoherentReads(c: Codec, root: Root, m: Manifest, subs: seq<Record>, settled: bool)
    requires Coherent(c, root.files, m, subs, settled)
    ensures var recs := RecordsOf(Stream(root.files, m));
            if SegmentCount(m) <= SegmentNames.LIMIT && Fits(c, recs) then ReadAll(root) == Ok(recs)
            else ReadAll(root).Err?
  {
    hide SegmentNames.SegmentName, SegmentNames.Names, SegmentNames.Listing, Layout, Stream, IsChainOf, Rotation,
         RecordsOf, Encoded, Readable, Caches, Fits;
    RotateListing(root.files, m);
    StreamIsAllLines(root.files, m);
    EncodedReadable(c, Stream(root.files, m));
    ReadLinesSpec(Stream(root.files, m));
  }

  lemma CoherentContents(c: Codec, files: Files, m: Manifest, subs: seq<Record>, settled: bool)
    requires Coherent(c, files, m, subs, settled)
    ensures var all := m.sealedSegments + [m.currentSegment];
            && (forall x :: x in all ==> x in files)
            && (SoundContents(c, files, m, all) <==> Uniform(subs) && Fits(c, RecordsOf(Stream(files, m))))
  {
    hide SegmentNames.SegmentName, SegmentNames.Names, SegmentNames.Listing, Layout, Stream, IsChainOf, Rotation,
         RecordsOf, Encoded, Readable, Fits, Linked, Uniform, MergedRef, FirstRef;
    StreamIsAllLines(files, m);
    var lines := Stream(files, m);
    var recs := RecordsOf(lines);
    EncodedReadable(c, lines);
    ChainsAreLinked(c, recs, subs);
    ChainKeepsPolicyRefs(c, recs, subs);
    if Uniform(recs) { UniformMerged(recs); }
    var all := m.sealedSegments + [m.currentSegment];
    assert all[|all| - 1] == m.currentSegment;
  }

  /**
   A store built by appends is accepted if and only if its submissions name one policy, every line is
   within the scanner's limit, and the segments are within the naming limit.
   */
  lemma CoherentValidates(c: Codec, files: Files, m: Manifest, subs: seq<Record>, settled: bool)
    requires Coherent(c, files, m, subs, settled)
    ensures SoundStore(c, files, m)
      <==> && SegmentCount(m) <= SegmentNames.LIMIT
           && Uniform(subs)
           && Fits(c, RecordsOf(Stream(files, m)))
  {
    hide SegmentNames.SegmentName, SegmentNames.Names, SegmentNames.Listing, Stream, IsChainOf, Rotation,
         RecordsOf, Encoded, Fits, Uniform, SoundContents, Layout;
    RotateListing(files, m);
    CoherentContents(c, files, m, subs, settled);
    LayoutNames(files, m);
    MemberOfSnoc(m.sealedSegments, m.currentSegment);
  }
}
