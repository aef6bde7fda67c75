/**
 What an evidence root holds on disk: segment files as sequences of JSONL lines, and the manifest
 (pkg/evidence/io.go, pkg/evidence/manifest.go, pkg/evidence/types.go).
 */
module Disk {
  import opened Wrappers
  import opened Records
  import Strings
  import SegmentNames

  /** One line of a file; `size` counts its newline. */
  datatype Line =
    | Json(rec: Record, size: nat)
    | Blank(size: nat)
    | Malformed(size: nat)

  /** The default token limit of the line scanner. */
  const MAX_LINE := 65536

  datatype ReadError = LineTooLong | LineMalformed

  /** One round of `streamFileRecords`: at most one record, or the error that stops the stream. */
  function ReadLine(l: Line): Result<seq<Record>, ReadError> {
    if l.size > MAX_LINE then Err(LineTooLong)
    else match l
      case Json(rec, _) => Ok([rec])
      case Blank(_) => Ok([])
      case Malformed(_) => Err(LineMalformed)
  }

  /** All records `streamFileRecords` delivers, or its error. */
  function ReadLines(lines: seq<Line>): Result<seq<Record>, ReadError> {
    if lines == [] then Ok([])
    else
      var n := |lines| - 1;
      var before :- ReadLines(lines[..n]);
      var last :- ReadLine(lines[n]);
      Ok(before + last)
  }

  ghost predicate Readable(lines: seq<Line>) {
    forall i :: 0 <= i < |lines| ==> ReadLine(lines[i]).Ok?
  }

  /** The records among the lines. */
  function RecordsOf(lines: seq<Line>): (recs: seq<Record>)
    ensures |recs| <= |lines|
  {
    if lines == [] then []
    else
      var n := |lines| - 1;
      RecordsOf(lines[..n]) + if lines[n].Json? then [lines[n].rec] else []
  }

  /** File size in bytes. */
  function Size(lines: seq<Line>): nat {
    if lines == [] then 0 else Size(lines[..|lines| - 1]) + lines[|lines| - 1].size
  }

  lemma LinesSnoc(lines: seq<Line>, l: Line)
    ensures RecordsOf(lines + [l]) == RecordsOf(lines) + if l.Json? then [l.rec] else []
    ensures Size(lines + [l]) == Size(lines) + l.size
    ensures Readable(lines + [l]) <==> Readable(lines) && ReadLine(l).Ok?
    ensures ReadLines(lines + [l]) ==
      match ReadLines(lines)
      case Err(e) => Err(e)
      case Ok(before) => match ReadLine(l) case Err(e) => Err(e) case Ok(last) => Ok(before + last)
  {
    hide ReadLine;
    var all := lines + [l];
    assert all[..|lines|] == lines && all[|lines|] == l;
    assert forall i :: 0 <= i < |lines| ==> all[i] == lines[i];
    if Readable(all) {
      forall i | 0 <= i < |lines| ensures ReadLine(lines[i]).Ok? { assert all[i] == lines[i]; }
    }
  }

  lemma {:induction false} ReadLinesSpec(lines: seq<Line>)
    ensures ReadLines(lines).Ok? <==> Readable(lines)
    ensures Readable(lines) <==> forall i :: 0 <= i < |lines| ==> !lines[i].Malformed? && lines[i].size <= 65536
    ensures Readable(lines) ==> ReadLines(lines) == Ok(RecordsOf(lines))
  {
    if lines != [] {
      var n := |lines| - 1;
      assert lines == lines[..n] + [lines[n]];
      ReadLinesSpec(lines[..n]);
      LinesSnoc(lines[..n], lines[n]);
    }
  }

  lemma {:induction false} RecordsOfConcat(a: seq<Line>, b: seq<Line>)
    ensures RecordsOf(a + b) == RecordsOf(a) + RecordsOf(b)
    ensures Readable(a + b) <==> Readable(a) && Readable(b)
  {
    if b == [] {
      assert a + b == a;
    } else {
      var n := |b| - 1;
      assert b == b[..n] + [b[n]];
      assert a + b == (a + b[..n]) + [b[n]];
      RecordsOfConcat(a, b[..n]);
      LinesSnoc(a + b[..n], b[n]);
      LinesSnoc(b[..n], b[n]);
    }
  }

  /** An error in a prefix stops the stream for every longer file as well. */
  lemma {:induction false} ReadErrorSticks(lines: seq<Line>, k: nat)
    requires k <= |lines| && ReadLines(lines[..k]).Err?
    ensures ReadLines(lines) == Err(ReadLines(lines[..k]).error)
    decreases |lines| - k
  {
    if k < |lines| {
      assert lines[..k + 1][..k] == lines[..k];
      ReadErrorSticks(lines, k + 1);
    } else {
      assert lines[..k] == lines;
    }
  }

  /** The manifest fields that influence behaviour. */
  datatype Manifest = Manifest(
    currentSegment: string,
    sealedSegments: seq<string>,
    segmentMaxBytes: int,
    recordsTotal: int,
    lastHash: string,
    policyRef: string)

  datatype ManifestFile = Absent | Corrupt | Present(manifest: Manifest)

  type Files = map<string, seq<Line>>

  /** An evidence root; `created` says whether its directory exists. */
  datatype Root = Root(created: bool, files: Files, manifest: ManifestFile)

  const EMPTY_ROOT := Root(false, map[], Absent)

  /** Defaults applied by `loadOrInitManifest` to a manifest it has read. */
  function Normalized(m: Manifest, maxBytes: int): Manifest {
    m.(segmentMaxBytes := if m.segmentMaxBytes <= 0 then maxBytes else m.segmentMaxBytes,
       currentSegment := if m.currentSegment == "" then SegmentNames.SegmentName(1) else m.currentSegment,
       sealedSegments := Strings.Canonical(m.sealedSegments))
  }

  /** The manifest of a fresh store. */
  function InitialManifest(maxBytes: int): Manifest {
    Manifest(SegmentNames.SegmentName(1), [], maxBytes, 0, "", "")
  }

  function WithoutName(s: seq<string>, name: string): (r: seq<string>)
    ensures forall x :: x in r <==> x in s && x != name
    ensures name !in s ==> r == s
  {
    if s == [] then []
    else
      var n := |s| - 1;
      assert s == s[..n] + [s[n]];
      WithoutName(s[..n], name) + if s[n] == name then [] else [s[n]]
  }

  /** What `writeManifestAtomic` publishes. */
  function Published(m: Manifest): Manifest {
    var current := if m.currentSegment == "" then SegmentNames.SegmentName(1) else m.currentSegment;
    m.(currentSegment := current,
       sealedSegments := WithoutName(Strings.Canonical(m.sealedSegments), current))
  }

  /** The lines of the named files, one file after another. */
  function AllLines(files: Files, names: seq<string>): seq<Line>
    requires forall x :: x in names ==> x in files
  {
    if names == [] then []
    else
      var n := |names| - 1;
      assert forall x :: x in names[..n] ==> x in names;
      AllLines(files, names[..n]) + files[names[n]]
  }

  /** `streamSegmentedRecords`: every record of the store in order, or why it cannot be read. */
  ghost function ReadAll(root: Root): Result<seq<Record>, string> {
    var names :- SegmentNames.Listing(root.files.Keys);
    match ReadLines(AllLines(root.files, names))
    case Ok(recs) => Ok(recs)
    case Err(_) => Err("read JSONL")
  }
}
