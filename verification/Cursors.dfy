/**
 Cursors into the store: a segment name and a line index (pkg/evidence/forwarder.go:85-141).
 */
module Cursors {
  import opened Wrappers
  import opened Records
  import opened Disk

  datatype CursorError = SegmentNotFound | LineOutOfRange | Unreadable(cause: ReadError)

  /** The streaming callback: count records up to the wanted one and stop there. */
  function ResolveIn(lines: seq<Line>, line: nat): Result<Record, CursorError> {
    if lines == [] then Err(LineOutOfRange)
    else match ReadLine(lines[0])
      case Err(e) => Err(Unreadable(e))
      case Ok(recs) =>
        if recs == [] then ResolveIn(lines[1..], line)
        else if line == 0 then Ok(recs[0])
        else ResolveIn(lines[1..], line - 1)
  }

  /** `resolveCursorRecordUnlocked` on a segmented root. */
  function Resolve(files: Files, segment: string, line: int): Result<Record, CursorError> {
    if line < 0 then Err(LineOutOfRange)
    else if segment !in files then Err(SegmentNotFound)
    else ResolveIn(files[segment], line)
  }

  /** Lines added later do not change what a cursor resolves to. */
  lemma {:induction false} ResolveInStable(a: seq<Line>, b: seq<Line>, line: nat)
    requires a <= b && ResolveIn(a, line).Ok?
    ensures ResolveIn(b, line) == ResolveIn(a, line)
  {
    if a != [] {
      assert a[0] == b[0] && a[1..] <= b[1..];
      var recs := ReadLine(a[0]).value;
      if recs == [] {
        ResolveInStable(a[1..], b[1..], line);
      } else if line > 0 {
        ResolveInStable(a[1..], b[1..], line - 1);
      }
    }
  }

  /** On a readable file a cursor is an index into its records. */
  lemma {:induction false} ResolveInReads(lines: seq<Line>, line: nat)
    requires Readable(lines)
    ensures ResolveIn(lines, line)
      == if line < |RecordsOf(lines)| then Ok(RecordsOf(lines)[line]) else Err(LineOutOfRange)
  {
    if lines != [] {
      var head, rest := lines[0], lines[1..];
      assert lines == [head] + rest;
      RecordsOfConcat([head], rest);
      assert RecordsOf([head]) == (if head.Json? then [head.rec] else []) by {
        assert [head][..0] == [];
      }
      assert ReadLine(lines[0]).Ok?;
      if head.Json? {
        if line > 0 { ResolveInReads(rest, line - 1); }
      } else {
        ResolveInReads(rest, line);
      }
    }
  }

  // ----- Cursors and global positions

  /** The number of records stored before the i-th named file. */
  function Offset(files: Files, names: seq<string>, i: nat): nat
    requires i <= |names| && forall x :: x in names ==> x in files
  {
    |RecordsOf(AllLines(files, names[..i]))|
  }

  /** A position in the stream as an index into `names` and a line index. */
  function Locate(files: Files, names: seq<string>, g: nat): (nat, nat)
    requires forall x :: x in names ==> x in files
    requires g < |RecordsOf(AllLines(files, names))|
  {
    var n := |names| - 1;
    assert forall x :: x in names[..n] ==> x in names;
    var before := |RecordsOf(AllLines(files, names[..n]))|;
    if g < before then Locate(files, names[..n], g) else (n, g - before)
  }

  /** The cursor `(i, line)` names the record at global position `Offset(i) + line`. */
  lemma {:induction false} CursorToPosition(files: Files, names: seq<string>, i: nat, line: nat)
    requires forall x :: x in names ==> x in files
    requires i < |names| && line < |RecordsOf(files[names[i]])|
    ensures var log := RecordsOf(AllLines(files, names));
            var g := Offset(files, names, i) + line;
            && g < |log|
            && log[g] == RecordsOf(files[names[i]])[line]
            && Locate(files, names, g) == (i, line)
  {
    hide RecordsOf;
    var n := |names| - 1;
    assert forall x :: x in names[..n] ==> x in names;
    RecordsOfConcat(AllLines(files, names[..n]), files[names[n]]);
    if i < n {
      assert names[..n][..i] == names[..i];
      assert names[..n][i] == names[i];
      CursorToPosition(files, names[..n], i, line);
    }
  }

  /** Every global position is named by exactly one cursor. */
  lemma {:induction false} PositionToCursor(files: Files, names: seq<string>, g: nat)
    requires forall x :: x in names ==> x in files
    requires g < |RecordsOf(AllLines(files, names))|
    ensures var (i, line) := Locate(files, names, g);
            && i < |names|
            && line < |RecordsOf(files[names[i]])|
            && Offset(files, names, i) + line == g
  {
    var n := |names| - 1;
    assert forall x :: x in names[..n] ==> x in names;
    RecordsOfConcat(AllLines(files, names[..n]), files[names[n]]);
    if g < |RecordsOf(AllLines(files, names[..n]))| {
      PositionToCursor(files, names[..n], g);
      var (i, _) := Locate(files, names[..n], g);
      assert names[..n][..i] == names[..i];
      assert names[..n][i] == names[i];
    }
  }
}
