/**
 Evidence records and the hash that links them (pkg/evidence/types.go, pkg/evidence/hash.go).
 */
module Records {
  import opened Wrappers

  /** An instant together with the zone it is displayed in. */
  datatype Time = Time(instant: int, offset: int) {
    /** Go's zero `time.Time`. */
    predicate IsZero() {
      instant == 0
    }

    function UTC(): Time {
      Time(instant, 0)
    }
  }

  datatype Actor = Actor(kind: string, id: string, origin: string)

  datatype PolicyDecision = PolicyDecision(allow: bool, riskLevel: string, reason: string,
    reasons: seq<string>, hints: seq<string>, ruleIDs: seq<string>, advisory: bool)

  datatype ExecutionResult = ExecutionResult(status: string, exitCode: Option<int>, stdout: string,
    stderr: string, stdoutTruncated: bool, stderrTruncated: bool)

  /** `EvidenceRecord`; `params` is the canonical JSON text of the parameter map. */
  datatype Record = Record(
    eventID: string,
    timestamp: Time,
    policyRef: string,
    bundleRevision: string,
    profileName: string,
    environmentLabel: string,
    inputHash: string,
    source: string,
    actor: Actor,
    tool: string,
    operation: string,
    params: string,
    decision: PolicyDecision,
    result: ExecutionResult,
    previousHash: string,
    hash: string)

  /** Go's zero value of the record type. */
  const ZERO := Record("", Time(0, 0), "", "", "", "", "", "", Actor("", "", ""), "", "", "",
    PolicyDecision(false, "", "", [], [], [], false), ExecutionResult("", None, "", "", false, false), "", "")

  /** The fields `ComputeHash` copies into the value it hashes. */
  datatype Projection = Projection(
    eventID: string,
    instant: int,
    policyRef: string,
    actor: Actor,
    tool: string,
    operation: string,
    params: string,
    decision: PolicyDecision,
    result: ExecutionResult,
    previousHash: string)

  function Project(r: Record): Projection {
    Projection(r.eventID, r.timestamp.UTC().instant, r.policyRef, r.actor, r.tool, r.operation,
      r.params, r.decision, r.result, r.previousHash)
  }

  /**
   What the model leaves to libraries: `hash` is JSON marshalling followed by SHA-256 in hex (`None`
   when marshalling fails) and `lineSize` is the length of a record's JSONL line with its newline.
   Nothing is assumed about either, except that a digest is never the empty string.
   */
  datatype Codec = Codec(hash: Projection -> Option<string>, lineSize: Record -> nat) {
    ghost predicate Sound() {
      forall p :: hash(p) != Some("")
    }
  }

  /** `ComputeHash`. */
  function ComputeHash(c: Codec, r: Record): Option<string> {
    c.hash(Project(r))
  }

  /** Two different hashed values with one digest. */
  ghost predicate Collision(c: Codec, p: Projection, q: Projection) {
    p != q && c.hash(p).Some? && c.hash(p) == c.hash(q)
  }

  /** The timestamp rule of both append functions. */
  function Stamp(r: Record, now: Time): Record {
    r.(timestamp := if r.timestamp.IsZero() then now.UTC() else r.timestamp.UTC())
  }

  /** Linking a stamped record to the hash before it; `None` when it cannot be hashed. */
  function Link(c: Codec, prev: string, r: Record): Option<Record> {
    var linked := r.(previousHash := prev);
    match ComputeHash(c, linked)
    case None => None
    case Some(h) => Some(linked.(hash := h))
  }

  function LastHash(recs: seq<Record>): string {
    if recs == [] then "" else recs[|recs| - 1].hash
  }

  /** `recs` is what linking the submissions `subs` one after another produces. */
  ghost predicate IsChainOf(c: Codec, recs: seq<Record>, subs: seq<Record>) {
    && |recs| == |subs|
    && forall i :: 0 <= i < |recs| ==> Link(c, LastHash(recs[..i]), subs[i]) == Some(recs[i])
  }

  /** Every record carries the hash of its predecessor and its own recomputed hash. */
  ghost predicate Linked(c: Codec, recs: seq<Record>) {
    forall i :: 0 <= i < |recs| ==>
      && recs[i].previousHash == LastHash(recs[..i])
      && ComputeHash(c, recs[i]) == Some(recs[i].hash)
  }

  /** No two records name different policies. */
  ghost predicate Uniform(recs: seq<Record>) {
    forall i, j :: 0 <= i < |recs| && 0 <= j < |recs| && recs[i].policyRef != "" && recs[j].policyRef != ""
      ==> recs[i].policyRef == recs[j].policyRef
  }

  lemma IsChainOfSnoc(c: Codec, recs: seq<Record>, subs: seq<Record>, rec: Record, sub: Record)
    requires |recs| == |subs|
    ensures IsChainOf(c, recs + [rec], subs + [sub])
      <==> IsChainOf(c, recs, subs) && Link(c, LastHash(recs), sub) == Some(rec)
  {
    hide Link, LastHash;
    var n := |recs|;
    assert forall i :: 0 <= i <= n ==> (recs + [rec])[..i] == recs[..i];
    assert recs[..n] == recs;
    assert (recs + [rec])[n] == rec && (subs + [sub])[n] == sub;
    if IsChainOf(c, recs + [rec], subs + [sub]) {
      forall i | 0 <= i < n ensures Link(c, LastHash(recs[..i]), subs[i]) == Some(recs[i]) {
        assert (recs + [rec])[i] == recs[i] && (subs + [sub])[i] == subs[i];
      }
    }
  }

  lemma ChainsAreLinked(c: Codec, recs: seq<Record>, subs: seq<Record>)
    requires IsChainOf(c, recs, subs)
    ensures Linked(c, recs)
  {
    forall i | 0 <= i < |recs|
      ensures recs[i].previousHash == LastHash(recs[..i]) && ComputeHash(c, recs[i]) == Some(recs[i].hash)
    {
      assert Link(c, LastHash(recs[..i]), subs[i]) == Some(recs[i]);
    }
  }

  /** Linking is deterministic: the submissions fix the stored records. */
  lemma {:induction false} ChainUnique(c: Codec, a: seq<Record>, b: seq<Record>, subs: seq<Record>)
    requires IsChainOf(c, a, subs) && IsChainOf(c, b, subs)
    ensures a == b
  {
    hide Link, LastHash;
    if subs != [] {
      var n := |subs| - 1;
      assert a == a[..n] + [a[n]] && b == b[..n] + [b[n]] && subs == subs[..n] + [subs[n]];
      IsChainOfSnoc(c, a[..n], subs[..n], a[n], subs[n]);
      IsChainOfSnoc(c, b[..n], subs[..n], b[n], subs[n]);
      ChainUnique(c, a[..n], b[..n], subs[..n]);
    }
  }

  /** Storing a record keeps the policy reference it was submitted with. */
  lemma ChainKeepsPolicyRefs(c: Codec, recs: seq<Record>, subs: seq<Record>)
    requires IsChainOf(c, recs, subs)
    ensures Uniform(recs) <==> Uniform(subs)
  {
    forall i | 0 <= i < |recs| ensures recs[i].policyRef == subs[i].policyRef {
      assert Link(c, LastHash(recs[..i]), subs[i]) == Some(recs[i]);
    }
  }

  lemma LinkedSnoc(c: Codec, recs: seq<Record>, rec: Record)
    ensures Linked(c, recs + [rec])
      <==> && Linked(c, recs)
           && rec.previousHash == LastHash(recs)
           && ComputeHash(c, rec) == Some(rec.hash)
  {
    hide ComputeHash, LastHash;
    var n := |recs|;
    assert forall i :: 0 <= i <= n ==> (recs + [rec])[..i] == recs[..i];
    assert recs[..n] == recs;
    assert (recs + [rec])[n] == rec;
    if Linked(c, recs + [rec]) {
      forall i | 0 <= i < n
        ensures recs[i].previousHash == LastHash(recs[..i]) && ComputeHash(c, recs[i]) == Some(recs[i].hash)
      {
        assert (recs + [rec])[i] == recs[i];
      }
    }
  }

  /** The first non-empty policy reference. */
  function FirstRef(recs: seq<Record>): (r: string)
    ensures r != "" ==> exists i :: 0 <= i < |recs| && recs[i].policyRef == r
    ensures r == "" ==> forall i :: 0 <= i < |recs| ==> recs[i].policyRef == ""
  {
    if recs == [] then ""
    else
      var n := |recs| - 1;
      var r := FirstRef(recs[..n]);
      if r != "" then r else recs[n].policyRef
  }

  /** The manifest's running summary: adopt the first reference, forget it on a conflict. */
  function MergeRef(ref: string, next: string): string {
    if ref == "" && next != "" then next
    else if ref != "" && next != "" && ref != next then ""
    else ref
  }

  function MergedRef(recs: seq<Record>): string {
    if recs == [] then "" else MergeRef(MergedRef(recs[..|recs| - 1]), recs[|recs| - 1].policyRef)
  }

  lemma UniformSnoc(recs: seq<Record>, rec: Record)
    ensures Uniform(recs + [rec])
      <==> Uniform(recs) && (rec.policyRef == "" || FirstRef(recs) == "" || FirstRef(recs) == rec.policyRef)
    ensures FirstRef(recs + [rec]) == if FirstRef(recs) != "" then FirstRef(recs) else rec.policyRef
    ensures MergedRef(recs + [rec]) == MergeRef(MergedRef(recs), rec.policyRef)
  {
    var all := recs + [rec];
    assert all[..|recs|] == recs;
    assert forall i :: 0 <= i < |recs| ==> all[i] == recs[i];
    assert all[|recs|] == rec;
    if Uniform(all) {
      forall i, j | 0 <= i < |recs| && 0 <= j < |recs| && recs[i].policyRef != "" && recs[j].policyRef != ""
        ensures recs[i].policyRef == recs[j].policyRef
      {
        assert all[i] == recs[i] && all[j] == recs[j];
      }
    }
  }

  /** With a single policy the running summary is that policy. */
  lemma {:induction false} UniformMerged(recs: seq<Record>)
    requires Uniform(recs)
    ensures MergedRef(recs) == FirstRef(recs)
  {
    if recs != [] {
      var n := |recs| - 1;
      assert recs == recs[..n] + [recs[n]];
      UniformSnoc(recs[..n], recs[n]);
      UniformMerged(recs[..n]);
    }
  }
}
