/**
 What the hash chain binds: the hashed fields of every record, up to a collision of the hash, and
 nothing else (pkg/evidence/segment.go:140-187, pkg/evidence/hash.go:10-31).
 */
module Binding {
  import opened Wrappers
  import opened Records
  import opened Disk
  import opened Validation
  import SegmentNames

  /** Same number of records with the same hashed fields and hashes at every position. */
  ghost predicate SameHashed(a: seq<Record>, b: seq<Record>) {
    && |a| == |b|
    && forall i :: 0 <= i < |a| ==> Project(a[i]) == Project(b[i]) && a[i].hash == b[i].hash
  }

  /** Two linked chains with one last hash agree at every position, or two projections collide. */
  lemma {:induction false} ChainBinds(c: Codec, a: seq<Record>, b: seq<Record>) returns (p: Projection, q: Projection)
    requires c.Sound() && Linked(c, a) && Linked(c, b) && LastHash(a) == LastHash(b)
    ensures SameHashed(a, b) || Collision(c, p, q)
    decreases |a|
  {
    hide Project, LastHash, Linked, SameHashed;
    if a == [] || b == [] {
      p, q := Project(ZERO), Project(ZERO);
      EmptyIffNoHash(c, a);
      EmptyIffNoHash(c, b);
      SameHashedEmpty();
    } else {
      var m, n := |a| - 1, |b| - 1;
      p, q := Project(a[m]), Project(b[n]);
      assert a == a[..m] + [a[m]] && b == b[..n] + [b[n]];
      LinkedSnoc(c, a[..m], a[m]);
      LinkedSnoc(c, b[..n], b[n]);
      LastHashSnoc(a[..m], a[m]);
      LastHashSnoc(b[..n], b[n]);
      if p == q {
        ProjectionHasPrevious(a[m], b[n]);
        p, q := ChainBinds(c, a[..m], b[..n]);
        if SameHashed(a[..m], b[..n]) {
          SameHashedSnoc(a[..m], b[..n], a[m], b[n]);
          p, q := Project(a[m]), Project(b[n]);
        }
      }
    }
  }

  lemma EmptyIffNoHash(c: Codec, a: seq<Record>)
    requires c.Sound() && Linked(c, a)
    ensures a == [] <==> LastHash(a) == ""
  {
    if a != [] {
      var n := |a| - 1;
      assert ComputeHash(c, a[n]) == Some(a[n].hash);
    }
  }

  lemma LastHashSnoc(recs: seq<Record>, r: Record)
    ensures LastHash(recs + [r]) == r.hash
  {
  }

  lemma ProjectionHasPrevious(x: Record, y: Record)
    requires Project(x) == Project(y)
    ensures x.previousHash == y.previousHash
  {
  }

  lemma SameHashedEmpty()
    ensures SameHashed([], [])
  {
  }

  lemma SameHashedSnoc(a: seq<Record>, b: seq<Record>, x: Record, y: Record)
    requires SameHashed(a, b) && Project(x) == Project(y) && x.hash == y.hash
    ensures SameHashed(a + [x], b + [y])
  {
    hide Project;
  }

  /** What the validator read when it accepted a store. */
  lemma AcceptedReads(c: Codec, root: Root, maxBytes: int)
    requires root.manifest.Present? && Validate(c, root, maxBytes) == Accepted
    ensures ReadAll(root).Ok?
    ensures Linked(c, ReadAll(root).value)
    ensures LastHash(ReadAll(root).value) == root.manifest.manifest.lastHash
    ensures |ReadAll(root).value| == root.manifest.manifest.recordsTotal
  {
    hide SegmentNames.SegmentName, SegmentNames.Listing, Validate, Linked, Readable, RecordsOf, Uniform;
    ValidateExactly(c, root, maxBytes);
    var names := SegmentNames.Listing(root.files.Keys).value;
    if names == [] {
      EmptyIsLinked(c);
    } else {
      ReadLinesSpec(AllLines(root.files, names));
    }
  }

  lemma EmptyIsLinked(c: Codec)
    ensures Linked(c, [])
  {
  }

  /**
   Hash-chain binding. Two accepted stores whose manifests carry the same last hash hold the same number of
   records with the same hashed fields at every position; otherwise two different hashed values with one
   digest are at hand. So under an unchanged manifest every insertion, removal, reordering or edit of a
   hashed field is rejected or exhibits a collision.
   */
  lemma ManifestBinds(c: Codec, a: Root, b: Root, maxA: int, maxB: int) returns (p: Projection, q: Projection)
    requires c.Sound()
    requires a.manifest.Present? && b.manifest.Present?
    requires Validate(c, a, maxA) == Accepted && Validate(c, b, maxB) == Accepted
    requires a.manifest.manifest.lastHash == b.manifest.manifest.lastHash
    ensures ReadAll(a).Ok? && ReadAll(b).Ok?
    ensures SameHashed(ReadAll(a).value, ReadAll(b).value) || Collision(c, p, q)
  {
    hide Validate, ReadAll, SameHashed, Linked;
    AcceptedReads(c, a, maxA);
    AcceptedReads(c, b, maxB);
    p, q := ChainBinds(c, ReadAll(a).value, ReadAll(b).value);
  }

  // ----- What is not bound

  /**
   The hash covers exactly ten fields, the timestamp as an instant: two records hash alike under every hash function
   if and only if these agree. Bundle revision, profile name, environment label, input hash, source and the stored
   hash itself are free.
   */
  lemma HashCoversTenFields(a: Record, b: Record)
    ensures (forall c: Codec :: ComputeHash(c, a) == ComputeHash(c, b))
      <==> && a.eventID == b.eventID
           && a.timestamp.instant == b.timestamp.instant
           && a.policyRef == b.policyRef
           && a.actor == b.actor
           && a.tool == b.tool
           && a.operation == b.operation
           && a.params == b.params
           && a.decision == b.decision
           && a.result == b.result
           && a.previousHash == b.previousHash
  {
    if Project(a) != Project(b) {
      var c := Codec(p => Some(if p == Project(a) then "a" else "b"), r => 0);
      assert ComputeHash(c, a) == Some("a") && ComputeHash(c, b) == Some("b");
    }
  }

  /** Two lines that differ at most in fields outside the projection, or in their length within the limit. */
  ghost predicate LooksAlike(x: Line, y: Line) {
    if x.Json? && y.Json? then
      && Project(x.rec) == Project(y.rec) && x.rec.hash == y.rec.hash
      && (x.size <= MAX_LINE <==> y.size <= MAX_LINE)
    else x == y
  }

  ghost predicate AllLookAlike(a: seq<Line>, b: seq<Line>) {
    |a| == |b| && forall i :: 0 <= i < |a| ==> LooksAlike(a[i], b[i])
  }

  lemma CheckLineAlike(c: Codec, t: Tally, x: Line, y: Line)
    requires LooksAlike(x, y)
    ensures CheckLine(c, t, x) == CheckLine(c, t, y)
  {
    if x.Json? && y.Json? {
      assert x.rec.policyRef == Project(x.rec).policyRef && y.rec.policyRef == Project(y.rec).policyRef;
      assert x.rec.previousHash == Project(x.rec).previousHash && y.rec.previousHash == Project(y.rec).previousHash;
    }
  }

  lemma {:induction false} CheckLinesAlike(c: Codec, a: seq<Line>, b: seq<Line>)
    requires AllLookAlike(a, b)
    ensures CheckLines(c, a) == CheckLines(c, b)
  {
    hide LooksAlike, CheckLine;
    if a != [] {
      var n := |a| - 1;
      CheckLinesAlike(c, a[..n], b[..n]);
      if CheckLines(c, a[..n]).Ok? {
        CheckLineAlike(c, CheckLines(c, a[..n]).value, a[n], b[n]);
      }
    }
  }

  lemma {:induction false} AllLinesAlike(a: Files, b: Files, names: seq<string>)
    requires forall x :: x in names ==> x in a && x in b && AllLookAlike(a[x], b[x])
    ensures AllLookAlike(AllLines(a, names), AllLines(b, names))
  {
    hide LooksAlike;
    if names != [] {
      var n := |names| - 1;
      AllLinesAlike(a, b, names[..n]);
      assert AllLookAlike(a[names[n]], b[names[n]]);
    }
  }

  /**
   Fields outside the projection (bundle revision, profile name, environment label, input hash, source and
   the displayed time zone) are not protected: editing them anywhere never changes the verdict.
   */
  lemma UnhashedEditsAreInvisible(c: Codec, a: Root, b: Root, maxBytes: int)
    requires a.created == b.created && a.manifest == b.manifest && a.files.Keys == b.files.Keys
    requires forall x :: x in a.files ==> AllLookAlike(a.files[x], b.files[x])
    ensures Validate(c, a, maxBytes) == Validate(c, b, maxBytes)
  {
    hide SegmentNames.Listing, SegmentNames.SegmentName, CheckLines, AllLookAlike, Normalized, AllLines;
    var names := SegmentNames.Listing(a.files.Keys);
    if names.Ok? {
      forall x | x in names.value ensures x in a.files && x in b.files && AllLookAlike(a.files[x], b.files[x]) {
        assert x in a.files.Keys && x in b.files.Keys;
      }
      AllLinesAlike(a.files, b.files, names.value);
      CheckLinesAlike(c, AllLines(a.files, names.value), AllLines(b.files, names.value));
    }
    if a.manifest.Present? {
      var m := Normalized(a.manifest.manifest, maxBytes);
      assert CheckSealed(a.files, m) == CheckSealed(b.files, m) by {
        assert forall x :: x in a.files <==> x in a.files.Keys;
        assert forall x :: x in b.files <==> x in b.files.Keys;
      }
    }
  }
}
