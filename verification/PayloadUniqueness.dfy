/**
 Which records a signing payload pins down among all records (internal/evidence/payload.go:20-63).

 The payload is read as fifteen free strings separated by links. A link is the text from the newline that ends
 one free field to the start of the next: usually "\nkey=", and across the timestamp and the allow flag, whose
 values are not free, everything up to the field behind them. The four lists form the tail.
 */
module PayloadUniqueness {
  import opened Wrappers
  import opened SigningPayload
  import Decimal

  const FIELDS := 15
  const LINKS := 14

  function Mark(key: string): string {
    "\n" + key + "="
  }

  function FreeFields(r: SignedRecord): (u: seq<string>)
    ensures |u| == FIELDS
  {
    [r.eventID, r.serverID, r.tenantID, r.environment, r.actorType, r.actorID, r.actorOrigin, r.tool, r.operation,
     r.inputHash, r.policyRef, r.bundleRevision, r.profileName, r.riskLevel, r.reason]
  }

  /** The key with which link `i`, between free fields `i` and `i + 1`, starts. */
  const LINK_KEYS: seq<string> := ["timestamp", "tenant_id", "environment", "actor.type", "actor.id", "actor.origin",
    "tool", "operation", "input_hash", "policy_ref", "bundle_revision", "profile_name", "allow", "reason"]

  /** The texts that can stand between free fields `i` and `i + 1`. */
  predicate IsLink(i: nat, t: string)
    requires i < LINKS
  {
    if i == 0 then
      |t| == 46 && t[..11] == Mark("timestamp") && IsTimestamp(t[11..35]) && t[35..] == Mark("server_id")
    else if i == 12 then
      t == Mark("allow") + "true" + Mark("risk_level") || t == Mark("allow") + "false" + Mark("risk_level")
    else t == Mark(LINK_KEYS[i])
  }

  function Link(r: SignedRecord, i: nat): string
    requires i < LINKS
  {
    if i == 0 then Mark("timestamp") + r.timestamp + Mark("server_id")
    else if i == 12 then Mark("allow") + FormatBool(r.allow) + Mark("risk_level")
    else Mark(LINK_KEYS[i])
  }

  function LinksOf(r: SignedRecord): (l: seq<string>)
    ensures |l| == LINKS && forall i :: 0 <= i < LINKS ==> l[i] == Link(r, i)
  {
    seq(LINKS, i requires 0 <= i < LINKS => Link(r, i))
  }

  function TailOf(lists: seq<seq<string>>): string
    requires |lists| == 4
  {
    "\n" + ScalarFields(LIST_KEYS, JoinAll(lists))
  }

  /** A text that prints four lists; decoding and printing again decides it. */
  predicate IsTail(t: string) {
    && t != ""
    && var decoded := DecodeLists(LIST_KEYS, t[1..]);
       decoded.Some? && |decoded.value.0| == 4 && t == TailOf(decoded.value.0)
  }

  /** A reading of a payload. */
  datatype Pieces = Pieces(fields: seq<string>, links: seq<string>, tail: string) {
    predicate Sized() {
      |fields| == FIELDS && |links| == LINKS
    }
  }

  function PiecesOf(r: SignedRecord): (p: Pieces)
    ensures p.Sized()
  {
    Pieces(FreeFields(r), LinksOf(r), TailOf(Lists(r)))
  }

  /** Free fields, links and tail from field `i` on. */
  function Text(p: Pieces, i: nat): string
    requires p.Sized() && i <= LINKS
    decreases LINKS - i
  {
    if i == LINKS then p.fields[i] + p.tail else p.fields[i] + p.links[i] + Text(p, i + 1)
  }

  function Whole(p: Pieces): string
    requires p.Sized()
  {
    Text(p, 0)
  }

  lemma WholeIsText(p: Pieces, i: nat)
    requires p.Sized() && i == 0
    ensures Whole(p) == Text(p, i)
  {
  }

  // ----- The payload in this form

  /** The scalar that free field `i` is. */
  function ScalarIndex(i: nat): nat
    requires i < FIELDS
  {
    if i == 0 then 0 else if i <= 12 then i + 1 else i + 2
  }

  lemma FieldIsScalar(r: SignedRecord, i: nat)
    requires i < FIELDS
    ensures FreeFields(r)[i] == Scalars(r)[ScalarIndex(i)]
  {
  }

  lemma KeyIsScalar(i: nat)
    requires i < LINKS
    ensures LINK_KEYS[i] == SCALAR_KEYS[ScalarIndex(i) + 1]
  {
  }

  /** The payload from the newline before scalar `j` on. */
  function Rest(r: SignedRecord, j: nat): string
    requires j <= 17
  {
    "\n" + ScalarFields(SCALAR_KEYS[j..], Scalars(r)[j..]) + ScalarFields(LIST_KEYS, JoinAll(Lists(r)))
  }

  lemma RestStep(r: SignedRecord, j: nat)
    requires j < 17
    ensures Rest(r, j) == Mark(SCALAR_KEYS[j]) + Scalars(r)[j] + Rest(r, j + 1)
  {
    hide ScalarFields, JoinAll, Scalars;
    FieldsCons(SCALAR_KEYS[j..], Scalars(r)[j..]);
    assert SCALAR_KEYS[j..][1..] == SCALAR_KEYS[j + 1..];
    assert Scalars(r)[j..][1..] == Scalars(r)[j + 1..];
    assert SCALAR_KEYS[j..][0] == SCALAR_KEYS[j] && Scalars(r)[j..][0] == Scalars(r)[j];
  }

  /** One scalar after another, the first of which is not free. */
  lemma Across(r: SignedRecord, j: nat)
    requires j < 16
    ensures (Mark(SCALAR_KEYS[j]) + Scalars(r)[j] + Mark(SCALAR_KEYS[j + 1])) + (Scalars(r)[j + 1] + Rest(r, j + 2))
         == Rest(r, j)
  {
    hide Rest, Mark, Scalars;
    RestStep(r, j);
    RestStep(r, j + 1);
    Regroup(Mark(SCALAR_KEYS[j]), Scalars(r)[j], Mark(SCALAR_KEYS[j + 1]), Scalars(r)[j + 1], Rest(r, j + 2));
  }

  lemma LinkIsScalars(r: SignedRecord, i: nat)
    requires i < LINKS
    ensures var j := ScalarIndex(i) + 1;
            Link(r, i) == if i == 0 || i == 12 then Mark(SCALAR_KEYS[j]) + Scalars(r)[j] + Mark(SCALAR_KEYS[j + 1])
                          else Mark(SCALAR_KEYS[j])
  {
    hide Mark;
    KeyIsScalar(i);
  }

  lemma LinkJoins(r: SignedRecord, i: nat)
    requires i < LINKS
    ensures Link(r, i) + (FreeFields(r)[i + 1] + Rest(r, ScalarIndex(i + 1) + 1)) == Rest(r, ScalarIndex(i) + 1)
  {
    hide Rest, FreeFields, Mark, Scalars, Link;
    var j := ScalarIndex(i) + 1;
    FieldIsScalar(r, i + 1);
    LinkIsScalars(r, i);
    if i == 0 || i == 12 {
      Across(r, j);
    } else {
      RestStep(r, j);
      var value, tail := Scalars(r)[j], Rest(r, j + 1);
      assert Mark(SCALAR_KEYS[j]) + (value + tail) == Mark(SCALAR_KEYS[j]) + value + tail;
    }
  }

  lemma Regroup(a: string, b: string, c: string, d: string, e: string)
    ensures (a + b + c) + (d + e) == a + b + (c + d + e)
  {
  }

  lemma {:induction false} TextIsRest(r: SignedRecord, i: nat)
    requires i <= LINKS
    ensures Text(PiecesOf(r), i) == FreeFields(r)[i] + Rest(r, ScalarIndex(i) + 1)
    decreases LINKS - i
  {
    hide FreeFields, Link, Rest;
    var p := PiecesOf(r);
    if i == LINKS {
      LastRest(r);
    } else {
      TextIsRest(r, i + 1);
      LinkJoins(r, i);
      assert p.fields[i] + p.links[i] + Text(p, i + 1) == p.fields[i] + (p.links[i] + Text(p, i + 1));
    }
  }

  lemma WholeIsRest(r: SignedRecord, i: nat)
    requires i == 0
    ensures Whole(PiecesOf(r)) == FreeFields(r)[i] + Rest(r, ScalarIndex(i) + 1)
  {
    hide Whole, Text, PiecesOf, FreeFields, Rest;
    TextIsRest(r, i);
    WholeIsText(PiecesOf(r), i);
  }

  lemma LastRest(r: SignedRecord)
    ensures Rest(r, 17) == TailOf(Lists(r))
  {
    hide Scalars, ScalarFields, JoinAll;
    assert SCALAR_KEYS[17..] == [] && Scalars(r)[17..] == [];
    NoFields();
    assert Rest(r, 17) == "\n" + "" + ScalarFields(LIST_KEYS, JoinAll(Lists(r)));
  }

  lemma NoFields()
    ensures ScalarFields([], []) == ""
  {
  }

  const START := HEADER + "event_id="

  /** The payload is the header, the first key, and the text of its pieces. */
  lemma PayloadIsText(r: SignedRecord)
    ensures Payload(r) == START + Whole(PiecesOf(r))
  {
    hide ScalarFields, Whole, PiecesOf, JoinAll, Scalars;
    WholeIsRest(r, 0);
    RestStep(r, 0);
    FieldIsScalar(r, 0);
    assert SCALAR_KEYS[0..] == SCALAR_KEYS && Scalars(r)[0..] == Scalars(r);
    assert Rest(r, 0) == "\n" + "event_id=" + Whole(PiecesOf(r));
    var fields, lists := ScalarFields(SCALAR_KEYS, Scalars(r)), ScalarFields(LIST_KEYS, JoinAll(Lists(r)));
    WithHeader(HEADER, fields, lists, "event_id=", Whole(PiecesOf(r)));
  }

  /** The text behind the reason. */
  lemma TailIsWritten(r: SignedRecord)
    ensures PiecesOf(r).tail == "\nreasons=" + Join(r.reasons) + "\nhints=" + Join(r.hints)
                              + "\nhits=" + Join(r.hits) + "\nrule_ids=" + Join(r.ruleIDs) + "\n"
  {
    hide ScalarFields, Join, FreeFields, LinksOf, Line;
    ListsAreWritten(r);
    FourLines(Join(r.reasons), Join(r.hints), Join(r.hits), Join(r.ruleIDs));
  }

  lemma FourLines(a: string, b: string, c: string, d: string)
    ensures "\n" + Line("reasons", a, Line("hints", b, Line("hits", c, Line("rule_ids", d, ""))))
         == "\nreasons=" + a + "\nhints=" + b + "\nhits=" + c + "\nrule_ids=" + d + "\n"
  {
  }

  lemma WithHeader(header: string, fields: string, lists: string, key: string, text: string)
    requires "\n" + fields + lists == "\n" + key + text
    ensures header + fields + lists == header + key + text
  {
    var x, y := fields + lists, key + text;
    assert "\n" + fields + lists == ['\n'] + x && "\n" + key + text == ['\n'] + y;
    assert x == (['\n'] + x)[1..] && y == (['\n'] + y)[1..];
    hide *;
    assert header + fields + lists == header + x && header + key + text == header + y;
  }

  lemma SamePayload(a: SignedRecord, b: SignedRecord)
    ensures Payload(a) == Payload(b) <==> Whole(PiecesOf(a)) == Whole(PiecesOf(b))
  {
    hide Payload, Whole, PiecesOf;
    PayloadIsText(a);
    PayloadIsText(b);
    var n := |START|;
    assert Payload(a)[n..] == Whole(PiecesOf(a)) && Payload(b)[n..] == Whole(PiecesOf(b));
  }

  // ----- Records and readings

  ghost predicate Valid(p: Pieces) {
    && p.Sized()
    && (forall i :: 0 <= i < LINKS ==> IsLink(i, p.links[i]))
    && IsTail(p.tail)
  }

  lemma LinkIsLink(r: SignedRecord, i: nat)
    requires i < LINKS
    ensures IsLink(i, Link(r, i))
  {
    hide IsTimestamp;
    if i == 0 {
      var t := Link(r, 0);
      assert |r.timestamp| == 24 by { TimestampLength(r.timestamp); }
      assert t[..11] == Mark("timestamp") && t[11..35] == r.timestamp && t[35..] == Mark("server_id");
    }
  }

  lemma TimestampLength(s: string)
    requires IsTimestamp(s)
    ensures |s| == 24
  {
  }

  lemma TailIsTail(lists: seq<seq<string>>)
    requires |lists| == 4
    ensures IsTail(TailOf(lists))
    ensures DecodeLists(LIST_KEYS, TailOf(lists)[1..]) == Some((lists, ""))
  {
    hide ScalarFields, DecodeLists, JoinAll;
    var t := ScalarFields(LIST_KEYS, JoinAll(lists));
    DecodeListsOf(LIST_KEYS, lists, "");
    assert t + "" == t && TailOf(lists)[1..] == t;
  }

  lemma PiecesAreValid(r: SignedRecord)
    ensures Valid(PiecesOf(r))
  {
    hide IsLink, IsTail, Link, TailOf, FreeFields;
    forall i | 0 <= i < LINKS ensures IsLink(i, PiecesOf(r).links[i]) { LinkIsLink(r, i); }
    TailIsTail(Lists(r));
  }

  /** Every reading is the reading of a record. */
  lemma Rebuild(p: Pieces) returns (r: SignedRecord)
    requires Valid(p)
    ensures PiecesOf(r) == p
  {
    hide TailOf, DecodeLists, IsTimestamp;
    var u := p.fields;
    var lists := DecodeLists(LIST_KEYS, p.tail[1..]).value.0;
    var link := p.links[0];
    assert IsLink(0, link) && IsLink(12, p.links[12]);
    var timestamp: Timestamp := link[11..35];
    var allow := p.links[12] == Mark("allow") + "true" + Mark("risk_level");
    r := SignedRecord(u[0], timestamp, u[1], u[2], u[3], u[4], u[5], u[6], u[7], u[8], u[9], u[10], u[11], u[12],
      allow, u[13], u[14], lists[0], lists[1], lists[2], lists[3]);
    assert FreeFields(r) == u;
    assert Lists(r) == lists;
    forall i | 0 <= i < LINKS ensures Link(r, i) == p.links[i] {
      assert IsLink(i, p.links[i]);
      if i == 0 { assert link == link[..11] + link[11..35] + link[35..]; }
    }
    assert LinksOf(r) == p.links;
  }

  /** Different records have different readings. */
  lemma ReadingsTellApart(a: SignedRecord, b: SignedRecord)
    requires PiecesOf(a) == PiecesOf(b)
    ensures a == b
  {
    hide TailOf, IsTail, IsTimestamp, DecodeLists;
    TailIsTail(Lists(a));
    TailIsTail(Lists(b));
    var u, v := FreeFields(a), FreeFields(b);
    assert forall i :: 0 <= i < FIELDS ==> u[i] == v[i];
    assert LinksOf(a)[0] == LinksOf(b)[0] && LinksOf(a)[12] == LinksOf(b)[12];
    SameAcross(Mark("timestamp"), a.timestamp, b.timestamp, Mark("server_id"));
    SameAcross(Mark("allow"), FormatBool(a.allow), FormatBool(b.allow), Mark("risk_level"));
  }

  lemma SameAcross(m: string, x: string, y: string, n: string)
    requires m + x + n == m + y + n
    ensures x == y
  {
    assert |x| == |y|;
    assert (m + x + n)[|m|..|m| + |x|] == x && (m + y + n)[|m|..|m| + |y|] == y;
  }

  // ----- Marks cannot overlap

  /** The key that starts link `i`, or the tail for `i == LINKS`. */
  function StartKey(i: nat): string
    requires i <= LINKS
  {
    if i == LINKS then "reasons" else LINK_KEYS[i]
  }

  predicate MarkAt(s: string, x: nat, key: string) {
    x <= |s| && Mark(key) <= s[x..]
  }

  lemma StartKeysDiffer(i: nat)
    requires i <= LINKS
    ensures '=' !in StartKey(i) && StartKey(i) != "server_id" && StartKey(i) != "risk_level"
  {
  }

  lemma MarkUnique(s: string, x: nat, k: string, k': string)
    requires MarkAt(s, x, k) && MarkAt(s, x, k') && '=' !in k && '=' !in k'
    ensures k == k'
  {
    var w := s[x..];
    assert w[0] == '\n' && w[..|k| + 2] == Mark(k) && w[..|k'| + 2] == Mark(k');
    assert Mark(k)[|k| + 1] == '=' && Mark(k')[|k'| + 1] == '=';
    assert k == Mark(k)[1..|k| + 1] == w[1..|k| + 1];
    assert k' == Mark(k')[1..|k'| + 1] == w[1..|k'| + 1];
  }

  /** A link starts with its key; any other newline in it starts the key of the field behind. */
  lemma LinkShape(i: nat, t: string)
    requires i < LINKS && IsLink(i, t)
    ensures MarkAt(t, 0, StartKey(i))
    ensures forall x :: 0 < x < |t| && t[x] == '\n' ==> MarkAt(t, x, "server_id") || MarkAt(t, x, "risk_level")
  {
    assert t[0..] == t;
    if i == 0 {
      TimestampLink(t);
    } else if i == 12 {
      AllowLink(t);
    } else {
      PlainLink(i, t);
    }
  }

  lemma TimestampLink(t: string)
    requires IsLink(0, t)
    ensures Mark("timestamp") <= t
    ensures forall x :: 0 < x < |t| && t[x] == '\n' ==> MarkAt(t, x, "server_id")
  {
    hide IsTimestamp;
    assert t[..11] <= t;
    TimestampHasNoNewline(t[11..35]);
    forall x | 0 < x < |t| && x != 35 ensures t[x] != '\n' {
      if x < 11 { assert t[x] == Mark("timestamp")[x]; }
      if 11 <= x < 35 { assert t[x] == t[11..35][x - 11]; }
      if 35 < x { assert t[x] == Mark("server_id")[x - 35]; }
    }
  }

  lemma AllowLink(t: string)
    requires IsLink(12, t)
    ensures Mark("allow") <= t
    ensures forall x :: 0 < x < |t| && t[x] == '\n' ==> MarkAt(t, x, "risk_level")
  {
    var n := if t == Mark("allow") + "true" + Mark("risk_level") then 11 else 12;
    assert t[n..] == Mark("risk_level");
    forall x | 0 < x < |t| && t[x] == '\n' ensures x == n { }
  }

  lemma PlainLink(i: nat, t: string)
    requires i < LINKS && i != 0 && i != 12 && IsLink(i, t)
    ensures Mark(LINK_KEYS[i]) <= t && forall x :: 0 < x < |t| ==> t[x] != '\n'
  {
    assert '\n' !in LINK_KEYS[i];
    forall x | 0 < x < |t| ensures t[x] != '\n' {
      if x <= |LINK_KEYS[i]| { assert t[x] == LINK_KEYS[i][x - 1]; }
    }
  }

  lemma TailShape(t: string)
    requires IsTail(t)
    ensures MarkAt(t, 0, StartKey(LINKS))
  {
    hide ScalarFields, DecodeLists;
    var joined := JoinAll(DecodeLists(LIST_KEYS, t[1..]).value.0);
    FieldsCons(LIST_KEYS, joined);
    assert t[0..] == t == Mark("reasons") + (joined[0] + "\n" + ScalarFields(LIST_KEYS[1..], joined[1..]));
  }

  /** A mark that starts inside a link would have to be one of the two keys that only occur inside links. */
  lemma NoOverlap(s: string, q: nat, i: nat, t: string, x: nat, j: nat)
    requires i < LINKS && j <= LINKS && q + |t| <= |s| && s[q..q + |t|] == t && IsLink(i, t)
    requires MarkAt(s, x, StartKey(j)) && q < x
    ensures q + |t| <= x
  {
    hide IsLink, StartKey;
    if x < q + |t| {
      assert s[x] == s[x..][0] == '\n';
      assert t[x - q] == s[x];
      LinkShape(i, t);
      StartKeysDiffer(j);
      var key := if MarkAt(t, x - q, "server_id") then "server_id" else "risk_level";
      assert MarkAt(t, x - q, key);
      assert MarkAt(s, x, key) by {
        assert t[x - q..] == s[x..q + |t|];
        assert s[x..q + |t|] <= s[x..];
      }
      MarkUnique(s, x, StartKey(j), key);
    }
  }

  // ----- Positions

  /** Where free field `i` begins in the text, and where it ends. */
  function Begin(p: Pieces, i: nat): nat
    requires p.Sized() && i <= LINKS
  {
    if i == 0 then 0 else Begin(p, i - 1) + |p.fields[i - 1]| + |p.links[i - 1]|
  }

  function End(p: Pieces, i: nat): nat
    requires p.Sized() && i <= LINKS
  {
    Begin(p, i) + |p.fields[i]|
  }

  lemma {:induction false} TextAt(p: Pieces, i: nat)
    requires p.Sized() && i <= LINKS
    ensures Begin(p, i) <= |Whole(p)| && Whole(p)[Begin(p, i)..] == Text(p, i)
  {
    hide Whole;
    if i == 0 {
      WholeIsText(p, i);
    } else {
      TextAt(p, i - 1);
      var s, from := Whole(p), Begin(p, i - 1);
      var skip := p.fields[i - 1] + p.links[i - 1];
      assert s[from..] == skip + Text(p, i);
      assert s[from..][|skip|..] == s[from + |skip|..];
    }
  }

  /** Fields, links and tail are where they should be, and a mark starts at the end of every field. */
  lemma Located(p: Pieces, i: nat)
    requires Valid(p) && i <= LINKS
    ensures var s := Whole(p);
            && Begin(p, i) <= End(p, i) <= |s|
            && s[Begin(p, i)..End(p, i)] == p.fields[i]
            && MarkAt(s, End(p, i), StartKey(i))
            && (if i == LINKS then s[End(p, i)..] == p.tail
                else End(p, i) < Begin(p, i + 1) <= |s| && s[End(p, i)..Begin(p, i + 1)] == p.links[i])
  {
    hide IsLink, IsTail, StartKey, Mark, Whole;
    var s, from := Whole(p), Begin(p, i);
    TextAt(p, i);
    var rest := s[from..];
    assert rest[..|p.fields[i]|] == p.fields[i];
    assert s[End(p, i)..] == rest[|p.fields[i]|..];
    if i == LINKS {
      TailShape(p.tail);
      assert p.tail[0..] == p.tail;
    } else {
      TextAt(p, i + 1);
      LinkShape(i, p.links[i]);
      assert p.links[i][0..] == p.links[i];
      assert s[End(p, i)..] == p.links[i] + Text(p, i + 1);
      assert p.links[i] != "" by { MarkNonEmpty(p.links[i], StartKey(i)); }
    }
  }

  lemma MarkNonEmpty(t: string, key: string)
    requires MarkAt(t, 0, key)
    ensures t != ""
  {
  }

  // ----- When a payload has one reading

  /** `w` contains a text that can be link `i`. */
  ghost predicate HasLink(i: nat, w: string)
    requires i < LINKS
  {
    exists x: nat, y: nat :: x <= y <= |w| && IsLink(i, w[x..y])
  }

  /** Neither field next to link `i` contains it. */
  ghost predicate LinkIsSafe(p: Pieces, i: nat)
    requires p.Sized() && i < LINKS
  {
    !HasLink(i, p.fields[i]) && !HasLink(i, p.fields[i + 1])
  }

  /** The tail can only start behind the last free field. */
  ghost predicate OneTail(last: string, tail: string) {
    forall x: nat :: x <= |last + tail| && IsTail((last + tail)[x..]) ==> x == |last|
  }

  /**
   No free field contains the link before it or the link behind it, and from the last free field on only one
   position starts four printed lists.
   */
  ghost predicate Guarded(p: Pieces)
    requires p.Sized()
  {
    && (forall i :: 0 <= i < LINKS ==> LinkIsSafe(p, i))
    && OneTail(p.fields[LINKS], p.tail)
  }

  lemma SliceHasLink(s: string, from: nat, to: nat, q: nat, i: nat, t: string)
    requires from <= q && q + |t| <= to <= |s| && i < LINKS && IsLink(i, t) && s[q..q + |t|] == t
    ensures HasLink(i, s[from..to])
  {
    hide IsLink;
    var w, x, y := s[from..to], q - from, q - from + |t|;
    assert forall k :: 0 <= k < |t| ==> w[x..y][k] == w[x + k] == s[q + k] == s[q..q + |t|][k];
    assert w[x..y] == t;
  }

  /** In any other reading of the same text no field ends earlier. */
  lemma {:induction false} NotEarlier(a: Pieces, b: Pieces, i: nat)
    requires Valid(a) && Valid(b) && Whole(a) == Whole(b) && Guarded(a) && i < LINKS
    ensures End(a, i) <= End(b, i)
  {
    hide IsLink, IsTail, StartKey, HasLink, Whole, OneTail, Begin, MarkAt;
    var s, q := Whole(a), End(b, i);
    Located(a, i);
    Located(b, i);
    if i > 0 {
      NotEarlier(a, b, i - 1);
      Located(a, i - 1);
      Located(b, i - 1);
      NoOverlap(s, End(a, i - 1), i - 1, a.links[i - 1], q, i);
    } else {
      BeginsAtZero(a);
    }
    assert LinkIsSafe(a, i);
    if q < End(a, i) {
      NoOverlap(s, q, i, b.links[i], End(a, i), i);
      SliceHasLink(s, Begin(a, i), End(a, i), q, i, b.links[i]);
    }
  }

  lemma BeginsAtZero(p: Pieces)
    requires p.Sized()
    ensures Begin(p, 0) == 0
  {
  }

  /** The tail starts at the same place. */
  lemma SameTail(a: Pieces, b: Pieces)
    requires Valid(a) && Valid(b) && Whole(a) == Whole(b) && Guarded(a)
    ensures End(a, LINKS) == End(b, LINKS)
  {
    hide IsLink, IsTail, StartKey, HasLink, Whole, Begin, MarkAt;
    var s, q, n := Whole(a), End(b, LINKS), LINKS;
    Located(a, n);
    Located(b, n);
    Located(a, n - 1);
    Located(b, n - 1);
    NotEarlier(a, b, n - 1);
    NoOverlap(s, End(a, n - 1), n - 1, a.links[n - 1], q, n);
    var rest := a.fields[n] + a.tail;
    assert s[Begin(a, n)..] == s[Begin(a, n)..End(a, n)] + s[End(a, n)..] == rest;
    var x := q - Begin(a, n);
    assert rest[x..] == s[q..] == b.tail;
  }

  /** In any other reading of the same text no field ends later. */
  lemma {:induction false} NotLater(a: Pieces, b: Pieces, i: nat)
    requires Valid(a) && Valid(b) && Whole(a) == Whole(b) && Guarded(a) && i <= LINKS
    ensures End(b, i) <= End(a, i)
    decreases LINKS - i
  {
    hide IsLink, IsTail, StartKey, HasLink, Whole, OneTail, Begin, MarkAt;
    if i == LINKS {
      SameTail(a, b);
    } else {
      var s, q := Whole(a), End(b, i);
      Located(a, i);
      Located(b, i);
      NotLater(a, b, i + 1);
      Located(a, i + 1);
      Located(b, i + 1);
      assert LinkIsSafe(a, i);
      if q > End(a, i) {
        NoOverlap(s, End(a, i), i, a.links[i], q, i);
        SliceHasLink(s, Begin(a, i + 1), End(a, i + 1), q, i, b.links[i]);
      }
    }
  }

  /** Links that start at one place are one link. */
  lemma LinkUnique(i: nat, w: string, m: nat, n: nat)
    requires i < LINKS && m <= |w| && n <= |w| && IsLink(i, w[..m]) && IsLink(i, w[..n])
    ensures m == n
  {
    hide IsTimestamp;
    if i == 12 {
      assert |Mark("allow") + "true" + Mark("risk_level")| == 23;
      assert |Mark("allow") + "false" + Mark("risk_level")| == 24;
      assert w[..m][7] == w[..n][7];
    }
  }

  lemma {:induction false} SameBegin(a: Pieces, b: Pieces, i: nat)
    requires Valid(a) && Valid(b) && Whole(a) == Whole(b) && Guarded(a) && i <= LINKS
    ensures Begin(a, i) == Begin(b, i) && End(a, i) == End(b, i)
  {
    hide IsLink, IsTail, StartKey, HasLink, Whole, OneTail, MarkAt, Begin;
    NotLater(a, b, i);
    if i < LINKS { NotEarlier(a, b, i); } else { SameTail(a, b); }
    if i == 0 {
      BeginsAtZero(a);
      BeginsAtZero(b);
    } else {
      SameBegin(a, b, i - 1);
      Located(a, i - 1);
      Located(b, i - 1);
      var w := Whole(a)[End(a, i - 1)..];
      var m, n := |a.links[i - 1]|, |b.links[i - 1]|;
      BeginStep(a, i);
      BeginStep(b, i);
      assert w[..m] == a.links[i - 1] && w[..n] == b.links[i - 1];
      LinkUnique(i - 1, w, m, n);
    }
  }

  lemma BeginStep(p: Pieces, i: nat)
    requires p.Sized() && 0 < i <= LINKS
    ensures Begin(p, i) == End(p, i - 1) + |p.links[i - 1]|
  {
  }

  /** A guarded reading is the only one. */
  lemma OneReading(a: Pieces, b: Pieces)
    requires Valid(a) && Valid(b) && Whole(a) == Whole(b) && Guarded(a)
    ensures a == b
  {
    hide IsLink, IsTail, StartKey, HasLink, Whole, OneTail, MarkAt, Begin, Guarded;
    forall i | 0 <= i <= LINKS ensures a.fields[i] == b.fields[i] {
      SameBegin(a, b, i);
      Located(a, i);
      Located(b, i);
    }
    forall i | 0 <= i < LINKS ensures a.links[i] == b.links[i] {
      SameBegin(a, b, i);
      SameBegin(a, b, i + 1);
      Located(a, i);
      Located(b, i);
    }
    SameBegin(a, b, LINKS);
    Located(a, LINKS);
    Located(b, LINKS);
  }

  // ----- When it has another one

  /** Pieces that differ in two neighbouring fields and the link between them, which together read alike. */
  ghost predicate Reshuffled(a: Pieces, b: Pieces, i: nat)
    requires a.Sized() && b.Sized() && i < LINKS
  {
    && a.fields[i] + a.links[i] + a.fields[i + 1] == b.fields[i] + b.links[i] + b.fields[i + 1]
    && (forall k :: 0 <= k < FIELDS && k != i && k != i + 1 ==> a.fields[k] == b.fields[k])
    && (forall k :: 0 <= k < LINKS && k != i ==> a.links[k] == b.links[k])
    && a.tail == b.tail
  }

  lemma {:induction false} SameTextBehind(a: Pieces, b: Pieces, i: nat)
    requires a.Sized() && b.Sized() && i <= LINKS && a.tail == b.tail
    requires forall k :: i <= k < FIELDS ==> a.fields[k] == b.fields[k]
    requires forall k :: i <= k < LINKS ==> a.links[k] == b.links[k]
    ensures Text(a, i) == Text(b, i)
    decreases LINKS - i
  {
    if i < LINKS { SameTextBehind(a, b, i + 1); }
  }

  lemma {:induction false} ReshuffledText(a: Pieces, b: Pieces, i: nat, k: nat)
    requires a.Sized() && b.Sized() && i < LINKS && Reshuffled(a, b, i) && k <= i
    ensures Text(a, k) == Text(b, k)
    decreases i - k
  {
    if k < i {
      ReshuffledText(a, b, i, k + 1);
    } else {
      var restA, restB := After(a, i + 1), After(b, i + 1);
      AfterReshuffled(a, b, i);
      assert Text(a, i) == a.fields[i] + a.links[i] + a.fields[i + 1] + restA;
      assert Text(b, i) == b.fields[i] + b.links[i] + b.fields[i + 1] + restB;
    }
  }

  /** The text behind field `i`. */
  function After(p: Pieces, i: nat): string
    requires p.Sized() && i <= LINKS
  {
    if i == LINKS then p.tail else p.links[i] + Text(p, i + 1)
  }

  lemma AfterReshuffled(a: Pieces, b: Pieces, i: nat)
    requires a.Sized() && b.Sized() && i < LINKS && Reshuffled(a, b, i)
    ensures After(a, i + 1) == After(b, i + 1)
    ensures Text(a, i + 1) == a.fields[i + 1] + After(a, i + 1) && Text(b, i + 1) == b.fields[i + 1] + After(b, i + 1)
  {
    if i + 1 < LINKS {
      SameTextBehind(a, b, i + 2);
      assert a.fields[i + 1] + a.links[i + 1] + Text(a, i + 2) == a.fields[i + 1] + (a.links[i + 1] + Text(a, i + 2));
      assert b.fields[i + 1] + b.links[i + 1] + Text(b, i + 2) == b.fields[i + 1] + (b.links[i + 1] + Text(b, i + 2));
    }
  }

  lemma ReshuffledReads(a: Pieces, b: Pieces, i: nat)
    requires a.Sized() && b.Sized() && i < LINKS && Reshuffled(a, b, i)
    ensures Whole(a) == Whole(b)
  {
    hide Whole, Text;
    ReshuffledText(a, b, i, 0);
    WholeIsText(a, 0);
    WholeIsText(b, 0);
  }

  lemma LinkNonEmpty(i: nat, t: string)
    requires i < LINKS && IsLink(i, t)
    ensures t != ""
  {
    hide IsLink;
    LinkShape(i, t);
    MarkNonEmpty(t, StartKey(i));
  }

  /** A field that contains the link behind it can end at that link already. */
  lemma EndsEarlier(a: Pieces, i: nat) returns (b: Pieces)
    requires Valid(a) && i < LINKS && HasLink(i, a.fields[i])
    ensures Valid(b) && Whole(b) == Whole(a) && b != a
  {
    hide IsLink, IsTail, Whole;
    var f := a.fields[i];
    var x: nat, y: nat :| x <= y <= |f| && IsLink(i, f[x..y]);
    LinkNonEmpty(i, f[x..y]);
    b := Pieces(a.fields[i := f[..x]][i + 1 := f[y..] + a.links[i] + a.fields[i + 1]], a.links[i := f[x..y]], a.tail);
    assert f == f[..x] + f[x..y] + f[y..];
    assert b.fields[i] + b.links[i] + b.fields[i + 1] == a.fields[i] + a.links[i] + a.fields[i + 1];
    assert b.fields[i] != a.fields[i];
    ReshuffledReads(b, a, i);
  }

  /** A field that contains the link before it can start at that link. */
  lemma StartsLater(a: Pieces, i: nat) returns (b: Pieces)
    requires Valid(a) && i < LINKS && HasLink(i, a.fields[i + 1])
    ensures Valid(b) && Whole(b) == Whole(a) && b != a
  {
    hide IsLink, IsTail, Whole;
    var f := a.fields[i + 1];
    var x: nat, y: nat :| x <= y <= |f| && IsLink(i, f[x..y]);
    LinkNonEmpty(i, f[x..y]);
    b := Pieces(a.fields[i := a.fields[i] + a.links[i] + f[..x]][i + 1 := f[y..]], a.links[i := f[x..y]], a.tail);
    assert f == f[..x] + f[x..y] + f[y..];
    assert b.fields[i] + b.links[i] + b.fields[i + 1] == a.fields[i] + a.links[i] + a.fields[i + 1];
    assert b.fields[i + 1] != a.fields[i + 1];
    ReshuffledReads(b, a, i);
  }

  /** Pieces that differ in the last field and the tail, which together read alike. */
  lemma {:induction false} MovedTail(a: Pieces, b: Pieces, k: nat)
    requires a.Sized() && b.Sized() && k <= LINKS
    requires a.links == b.links && a.fields[..LINKS] == b.fields[..LINKS]
    requires a.fields[LINKS] + a.tail == b.fields[LINKS] + b.tail
    ensures Text(a, k) == Text(b, k)
    decreases LINKS - k
  {
    if k < LINKS {
      MovedTail(a, b, k + 1);
      assert a.fields[k] == a.fields[..LINKS][k] == b.fields[k];
    }
  }

  lemma MovedTailReads(a: Pieces, b: Pieces)
    requires a.Sized() && b.Sized() && a.links == b.links && a.fields[..LINKS] == b.fields[..LINKS]
    requires a.fields[LINKS] + a.tail == b.fields[LINKS] + b.tail
    ensures Whole(a) == Whole(b)
  {
    hide Whole, Text;
    MovedTail(a, b, 0);
    WholeIsText(a, 0);
    WholeIsText(b, 0);
  }

  lemma TailMoves(a: Pieces) returns (b: Pieces)
    requires Valid(a) && !OneTail(a.fields[LINKS], a.tail)
    ensures Valid(b) && Whole(b) == Whole(a) && b != a
  {
    hide IsLink, IsTail, Whole;
    var rest := a.fields[LINKS] + a.tail;
    var x: nat :| x <= |rest| && IsTail(rest[x..]) && x != |a.fields[LINKS]|;
    b := Pieces(a.fields[LINKS := rest[..x]], a.links, rest[x..]);
    assert rest[..x] + rest[x..] == rest;
    assert b.fields[LINKS] != a.fields[LINKS];
    MovedTailReads(b, a);
  }

  lemma AnotherReading(a: Pieces) returns (b: Pieces)
    requires Valid(a) && !Guarded(a)
    ensures Valid(b) && Whole(b) == Whole(a) && b != a
  {
    hide IsLink, IsTail, HasLink, OneTail, Whole;
    if i :| 0 <= i < LINKS && !LinkIsSafe(a, i) {
      if HasLink(i, a.fields[i]) {
        b := EndsEarlier(a, i);
      } else {
        b := StartsLater(a, i);
      }
    } else {
      b := TailMoves(a);
    }
  }

  /** The record's own fields leave no room for another reading of its payload. */
  ghost predicate Unambiguous(r: SignedRecord) {
    Guarded(PiecesOf(r))
  }

  /**
   A payload belongs to one record only, among all records, if and only if no free field of that record contains
   the link before it or behind it and the lists can start in one place only.
   */
  lemma PayloadDetermines(a: SignedRecord)
    ensures (forall b :: Payload(b) == Payload(a) ==> b == a) <==> Unambiguous(a)
  {
    hide Payload, PiecesOf, Valid, Guarded, Whole;
    PiecesAreValid(a);
    if Unambiguous(a) {
      forall b | Payload(b) == Payload(a) ensures b == a {
        SamePayload(a, b);
        PiecesAreValid(b);
        OneReading(PiecesOf(a), PiecesOf(b));
        ReadingsTellApart(a, b);
      }
    } else {
      var other := AnotherReading(PiecesOf(a));
      var b := Rebuild(other);
      SamePayload(a, b);
      assert Payload(b) == Payload(a) && b != a;
    }
  }

  // ----- A sufficient condition

  ghost predicate Contains(w: string, key: string) {
    exists x: nat :: MarkAt(w, x, key)
  }

  lemma NoNewlineNoLink(i: nat, w: string)
    requires i < LINKS && '\n' !in w
    ensures !HasLink(i, w)
  {
    hide IsLink;
    forall x: nat, y: nat | x <= y <= |w| ensures !IsLink(i, w[x..y]) {
      assert forall k :: 0 <= k < y - x ==> w[x..y][k] == w[x + k];
      if IsLink(i, w[x..y]) { LinkStartsLine(i, w[x..y]); }
    }
  }

  lemma LinkStartsLine(i: nat, t: string)
    requires i < LINKS && IsLink(i, t)
    ensures t != "" && t[0] == '\n'
  {
    hide IsLink, StartKey;
    LinkShape(i, t);
    assert t[0..] == t;
  }

  /** A mark inside printed fields is the mark of the first key or lies inside a value. */
  lemma {:induction false} MarkInFields(keys: seq<string>, values: seq<string>, x: nat)
    requires |keys| == |values| && forall k :: k in keys ==> '\n' !in k && '=' !in k
    requires MarkAt("\n" + ScalarFields(keys, values), x, "reasons")
    ensures (x == 0 && keys != [] && keys[0] == "reasons") || "reasons" in keys[if keys == [] then 0 else 1..]
         || exists i :: 0 <= i < |values| && Contains(values[i], "reasons")
  {
    hide ScalarFields;
    if keys == [] {
      NoFields();
    } else {
      FieldsCons(keys, values);
      var head, rest := Mark(keys[0]) + values[0], "\n" + ScalarFields(keys[1..], values[1..]);
      var t := "\n" + ScalarFields(keys, values);
      assert t == head + rest;
      if x >= |head| {
        assert t[x..] == rest[x - |head|..];
        MarkInFields(keys[1..], values[1..], x - |head|);
        if i :| 0 <= i < |values[1..]| && Contains(values[1..][i], "reasons") {
          assert values[1..][i] == values[i + 1];
        }
      } else {
        MarkInHead(keys[0], values[0], rest, x);
        if Contains(values[0], "reasons") { assert 0 < |values|; }
      }
    }
  }

  /** The same for one field followed by a newline. */
  lemma MarkInHead(key: string, value: string, rest: string, x: nat)
    requires '\n' !in key && '=' !in key && rest != "" && rest[0] == '\n'
    requires x < |Mark(key) + value| && MarkAt(Mark(key) + value + rest, x, "reasons")
    ensures (x == 0 && key == "reasons") || Contains(value, "reasons")
  {
    var t, n := Mark(key) + value + rest, |Mark(key)|;
    var m := Mark("reasons");
    assert t[x..][..9] == m;
    assert forall k :: 0 <= k < 9 ==> t[x + k] == m[k];
    if x == 0 {
      assert t[0..] == t && Mark(key) <= t;
      MarkUnique(t, 0, key, "reasons");
    } else {
      assert t[x] == '\n';
      assert forall k :: 0 < k < n ==> t[k] == (if k <= |key| then key[k - 1] else '=');
      assert x >= n;
      assert t[n + |value|] == '\n';
      assert x + 9 <= n + |value|;
      assert value[x - n..] == t[x..n + |value|];
      assert m <= value[x - n..];
      assert MarkAt(value, x - n, "reasons");
    }
  }

  /** A mark cannot span a character that does not occur in it. */
  lemma MarkAroundChar(a: string, c: char, b: string, x: nat)
    requires c !in Mark("reasons") && MarkAt(a + [c] + b, x, "reasons")
    ensures MarkAt(a, x, "reasons") || (x > |a| && MarkAt(b, x - |a| - 1, "reasons"))
  {
    var t, m := a + [c] + b, Mark("reasons");
    assert t[x..][..9] == m;
    assert forall k :: 0 <= k < 9 ==> t[x + k] == m[k];
    assert t[|a|] == c;
    if x > |a| {
      assert t[x..] == b[x - |a| - 1..];
    } else {
      assert x + 9 <= |a|;
      assert a[x..][..9] == t[x..][..9];
    }
  }

  lemma MarkInElement(v: string, x: nat)
    requires MarkAt(Element(v), x, "reasons")
    ensures Contains(v, "reasons")
  {
    var digits := Decimal.Numeral(|v|);
    assert Element(v) == digits + [':'] + v;
    MarkAroundChar(digits, ':', v, x);
    DigitsHaveNoMark(digits, x);
  }

  lemma DigitsHaveNoMark(s: string, x: nat)
    requires Decimal.AllDigits(s)
    ensures !MarkAt(s, x, "reasons")
  {
    if x < |s| { assert s[x..][0] == s[x] && Decimal.IsDigit(s[x]); }
  }

  /** A mark inside a printed list lies inside an element. */
  lemma {:induction false} MarkInJoin(values: seq<string>, x: nat)
    requires MarkAt(Join(values), x, "reasons")
    ensures exists i :: 0 <= i < |values| && Contains(values[i], "reasons")
  {
    hide Element, Contains;
    var n := |values| - 1;
    if n == 0 {
      MarkInElement(values[0], x);
    } else if n > 0 {
      var before := Join(values[..n]);
      assert Join(values) == before + [','] + Element(values[n]);
      MarkAroundChar(before, ',', Element(values[n]), x);
      if MarkAt(before, x, "reasons") {
        MarkInJoin(values[..n], x);
        var i :| 0 <= i < n && Contains(values[..n][i], "reasons");
        assert values[..n][i] == values[i];
      } else {
        MarkInElement(values[n], x - |before| - 1);
      }
    }
  }

  /** No element of any list contains the mark of the first list. */
  ghost predicate ListsAreSafe(r: SignedRecord) {
    forall k, i :: 0 <= k < 4 && 0 <= i < |Lists(r)[k]| ==> !Contains(Lists(r)[k][i], "reasons")
  }

  lemma OneTailOf(r: SignedRecord)
    requires '\n' !in r.reason && ListsAreSafe(r)
    ensures OneTail(r.reason, TailOf(Lists(r)))
  {
    hide IsTail, ScalarFields, Join;
    var u, t, joined := r.reason, TailOf(Lists(r)), JoinAll(Lists(r));
    assert forall k :: 0 <= k < |u| ==> (u + t)[k] == u[k] && u[k] != '\n';
    forall x: nat | x <= |u + t| && IsTail((u + t)[x..]) ensures x == |u| {
      TailShape((u + t)[x..]);
      assert (u + t)[x..][0..] == (u + t)[x..];
      assert (u + t)[x] == (u + t)[x..][0] == '\n';
      assert t[x - |u|..] == (u + t)[x..];
      MarkInFields(LIST_KEYS, joined, x - |u|);
      assert forall k :: k in LIST_KEYS[1..] ==> k != "reasons";
      if k :| 0 <= k < 4 && Contains(joined[k], "reasons") {
        var y: nat :| MarkAt(joined[k], y, "reasons");
        MarkInJoin(Lists(r)[k], y);
      }
    }
  }

  /**
   A record whose scalars contain no newline and whose list elements do not contain "\nreasons=" shares its payload
   with no other record, whatever that record contains.
   */
  lemma NewlineFreeDetermines(a: SignedRecord, b: SignedRecord)
    requires NewlineFree(a) && ListsAreSafe(a) && Payload(a) == Payload(b)
    ensures a == b
  {
    hide Payload, HasLink, OneTail, ListsAreSafe;
    forall i | 0 <= i < FIELDS ensures '\n' !in FreeFields(a)[i] {
      FieldIsScalar(a, i);
    }
    forall i | 0 <= i < LINKS ensures LinkIsSafe(PiecesOf(a), i) {
      NoNewlineNoLink(i, FreeFields(a)[i]);
      NoNewlineNoLink(i, FreeFields(a)[i + 1]);
    }
    assert '\n' !in FreeFields(a)[LINKS];
    OneTailOf(a);
    assert Unambiguous(a);
    PayloadDetermines(a);
  }

  // ----- Records that share a payload

  /**
   Two fields nobody checks for newlines: for all strings the policy reference can swallow, or give up, part of the
   bundle revision without changing the payload.
   */
  lemma NewlinesBreakInjectivity(r: SignedRecord, x: string, y: string, z: string)
    ensures var a := r.(policyRef := x + "\nbundle_revision=" + y, bundleRevision := z);
            var b := r.(policyRef := x, bundleRevision := y + "\nbundle_revision=" + z);
            a != b && Payload(a) == Payload(b)
  {
    hide Payload, Whole, Link, TailOf;
    var a := r.(policyRef := x + "\nbundle_revision=" + y, bundleRevision := z);
    var b := r.(policyRef := x, bundleRevision := y + "\nbundle_revision=" + z);
    assert |a.policyRef| > |b.policyRef|;
    SameLinks(a, b);
    BundleLink(a);
    var p, q := PiecesOf(a), PiecesOf(b);
    assert p.fields[10] + p.links[10] + p.fields[11] == q.fields[10] + q.links[10] + q.fields[11];
    ReshuffledReads(p, q, 10);
    SamePayload(a, b);
  }

  lemma SameLinks(a: SignedRecord, b: SignedRecord)
    requires a.timestamp == b.timestamp && a.allow == b.allow
    ensures LinksOf(a) == LinksOf(b)
  {
  }

  lemma BundleLink(r: SignedRecord)
    ensures LinksOf(r)[10] == "\nbundle_revision="
  {
  }

  /**
   Newlines in list elements are not always harmless either: a record without newlines in its scalars shares its
   payload with another one when its only reason prints lists after "\nreasons=".
   */
  lemma ListElementsBreakInjectivity(r: SignedRecord, x: string, lists: seq<string>)
    ensures var inner := "\nreasons=" + Join(lists);
            var a := r.(reason := x, reasons := [inner]);
            var b := r.(reason := x + "\nreasons=" + Decimal.Numeral(|inner|) + ":", reasons := lists);
            && a != b && Payload(a) == Payload(b)
            && (NewlineFree(r) && '\n' !in x ==> NewlineFree(a))
  {
    hide Payload, Whole, Link, Join, NewlineFree, ScalarFields;
    var inner := "\nreasons=" + Join(lists);
    var a := r.(reason := x, reasons := [inner]);
    var b := r.(reason := x + "\nreasons=" + Decimal.Numeral(|inner|) + ":", reasons := lists);
    assert |a.reason| < |b.reason|;
    SameLinks(a, b);
    ReasonsFirst(a);
    ReasonsFirst(b);
    JoinOne(inner);
    var rest := "\n" + ScalarFields(LIST_KEYS[1..], JoinAll(Lists(r)[1..]));
    assert Lists(a)[1..] == Lists(r)[1..] && Lists(b)[1..] == Lists(r)[1..];
    SameEnds(x, "\nreasons=", Decimal.Numeral(|inner|), Join(lists), rest);
    assert FreeFields(a)[..LINKS] == FreeFields(b)[..LINKS];
    MovedTailReads(PiecesOf(a), PiecesOf(b));
    SamePayload(a, b);
    if NewlineFree(r) && '\n' !in x { StaysNewlineFree(r, a); }
  }

  lemma SameEnds(x: string, mark: string, n: string, joined: string, rest: string)
    ensures x + (mark + (n + ":" + (mark + joined)) + rest) == (x + mark + n + ":") + (mark + joined + rest)
  {
  }

  lemma JoinOne(v: string)
    ensures Join([v]) == Decimal.Numeral(|v|) + ":" + v
  {
  }

  lemma ReasonsFirst(r: SignedRecord)
    ensures TailOf(Lists(r))
         == "\nreasons=" + Join(r.reasons) + ("\n" + ScalarFields(LIST_KEYS[1..], JoinAll(Lists(r)[1..])))
  {
    hide ScalarFields, Join;
    FieldsCons(LIST_KEYS, JoinAll(Lists(r)));
    assert JoinAll(Lists(r))[1..] == JoinAll(Lists(r)[1..]);
  }

  lemma StaysNewlineFree(r: SignedRecord, a: SignedRecord)
    requires NewlineFree(r) && a == r.(reason := a.reason, reasons := a.reasons) && '\n' !in a.reason
    ensures NewlineFree(a)
  {
    forall i | 0 <= i < 17 ensures '\n' !in Scalars(a)[i] {
      assert i < 16 ==> Scalars(a)[i] == Scalars(r)[i];
    }
  }
}
