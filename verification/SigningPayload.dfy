/**
 The deterministic signing payload (internal/evidence/payload.go): a printer, and the decoder that shows
 what a signature over it pins down. Strings are sequences of bytes, one per character.
 */
module SigningPayload {
  import opened Wrappers
  import opened Decimal

  // ----- Timestamps

  /** The number the two digits at `i` denote; -1 if they are not both digits. */
  function Two(s: string, i: nat): int
    requires i + 2 <= |s|
  {
    if IsDigit(s[i]) && IsDigit(s[i + 1]) then 10 * DigitValue(s[i]) + DigitValue(s[i + 1]) else -1
  }

  function DaysIn(year: int, month: int): int {
    if month in {4, 6, 9, 11} then 30
    else if month != 2 then 31
    else if year % 4 == 0 && (year % 100 != 0 || year % 400 == 0) then 29
    else 28
  }

  /** A UTC time rendered with the layout "2006-01-02T15:04:05.000Z", for the years 0000 to 9999. */
  predicate IsTimestamp(s: string) {
    && |s| == 24
    && s[4] == '-' && s[7] == '-' && s[10] == 'T' && s[13] == ':' && s[16] == ':' && s[19] == '.' && s[23] == 'Z'
    && 0 <= Two(s, 0) && 0 <= Two(s, 2)
    && 1 <= Two(s, 5) <= 12
    && 1 <= Two(s, 8) <= DaysIn(100 * Two(s, 0) + Two(s, 2), Two(s, 5))
    && 0 <= Two(s, 11) < 24 && 0 <= Two(s, 14) < 60 && 0 <= Two(s, 17) < 60
    && 0 <= Two(s, 20) && IsDigit(s[22])
  }

  type Timestamp = s: string | IsTimestamp(s) witness "1970-01-01T00:00:00.000Z"

  lemma TimestampHasNoNewline(s: string)
    requires IsTimestamp(s)
    ensures '\n' !in s
  {
  }

  /** The signed record; `timestamp` is its rendering to the millisecond. */
  datatype SignedRecord = SignedRecord(
    eventID: string, timestamp: Timestamp, serverID: string, tenantID: string, environment: string,
    actorType: string, actorID: string, actorOrigin: string, tool: string, operation: string,
    inputHash: string, policyRef: string, bundleRevision: string, profileName: string,
    allow: bool, riskLevel: string, reason: string,
    reasons: seq<string>, hints: seq<string>, hits: seq<string>, ruleIDs: seq<string>)

  const HEADER := "evidra.v1\n"

  function FormatBool(b: bool): string {
    if b then "true" else "false"
  }

  const SCALAR_KEYS: seq<string> := ["event_id", "timestamp", "server_id", "tenant_id", "environment",
    "actor.type", "actor.id", "actor.origin", "tool", "operation", "input_hash", "policy_ref",
    "bundle_revision", "profile_name", "allow", "risk_level", "reason"]

  const LIST_KEYS: seq<string> := ["reasons", "hints", "hits", "rule_ids"]

  function Scalars(r: SignedRecord): (s: seq<string>)
    ensures |s| == 17
  {
    [r.eventID, r.timestamp, r.serverID, r.tenantID, r.environment, r.actorType, r.actorID, r.actorOrigin,
     r.tool, r.operation, r.inputHash, r.policyRef, r.bundleRevision, r.profileName, FormatBool(r.allow),
     r.riskLevel, r.reason]
  }

  function Lists(r: SignedRecord): (s: seq<seq<string>>)
    ensures |s| == 4
  {
    [r.reasons, r.hints, r.hits, r.ruleIDs]
  }

  /** One length-prefixed element. */
  function Element(v: string): string {
    Numeral(|v|) + ":" + v
  }

  /** `lengthPrefixedJoin`. */
  function Join(values: seq<string>): string {
    if values == [] then ""
    else if |values| == 1 then Element(values[0])
    else Join(values[..|values| - 1]) + "," + Element(values[|values| - 1])
  }

  function ScalarField(key: string, value: string): string {
    key + "=" + value + "\n"
  }

  function ListField(key: string, values: seq<string>): string {
    ScalarField(key, Join(values))
  }

  /** Consecutive fields, in order. */
  function ScalarFields(keys: seq<string>, values: seq<string>): string
    requires |keys| == |values|
  {
    if keys == [] then ""
    else
      var n := |keys| - 1;
      ScalarFields(keys[..n], values[..n]) + ScalarField(keys[n], values[n])
  }

  function JoinAll(lists: seq<seq<string>>): (r: seq<string>)
    ensures |r| == |lists| && forall i :: 0 <= i < |r| ==> r[i] == Join(lists[i])
  {
    seq(|lists|, i requires 0 <= i < |lists| => Join(lists[i]))
  }

  /** `BuildSigningPayload`. */
  function Payload(r: SignedRecord): string {
    HEADER + ScalarFields(SCALAR_KEYS, Scalars(r)) + ScalarFields(LIST_KEYS, JoinAll(Lists(r)))
  }

  // ----- The payload written out

  /** One line and what follows it. */
  function Line(key: string, value: string, rest: string): string {
    key + "=" + value + "\n" + rest
  }

  /** The whole text, field by field. */
  function Written(r: SignedRecord): string {
    "evidra.v1\n" +
    Line("event_id", r.eventID,
    Line("timestamp", r.timestamp,
    Line("server_id", r.serverID,
    Line("tenant_id", r.tenantID,
    Line("environment", r.environment,
    Line("actor.type", r.actorType,
    Line("actor.id", r.actorID,
    Line("actor.origin", r.actorOrigin, WrittenAction(r)))))))))
  }

  function WrittenAction(r: SignedRecord): string {
    Line("tool", r.tool,
    Line("operation", r.operation,
    Line("input_hash", r.inputHash,
    Line("policy_ref", r.policyRef,
    Line("bundle_revision", r.bundleRevision,
    Line("profile_name", r.profileName,
    Line("allow", if r.allow then "true" else "false",
    Line("risk_level", r.riskLevel,
    Line("reason", r.reason, WrittenLists(r))))))))))
  }

  function WrittenLists(r: SignedRecord): string {
    Line("reasons", Join(r.reasons),
    Line("hints", Join(r.hints),
    Line("hits", Join(r.hits),
    Line("rule_ids", Join(r.ruleIDs), ""))))
  }

  /** Consecutive fields and what follows them, from field `i` on. */
  function FieldsFrom(keys: seq<string>, values: seq<string>, i: nat, rest: string): string
    requires |keys| == |values| && i <= |keys|
    decreases |keys| - i
  {
    if i == |keys| then rest else Line(keys[i], values[i], FieldsFrom(keys, values, i + 1, rest))
  }

  lemma {:induction false} FieldsAreLines(keys: seq<string>, values: seq<string>, i: nat, rest: string)
    requires |keys| == |values| && i <= |keys|
    ensures ScalarFields(keys, values) + rest
         == ScalarFields(keys[..i], values[..i]) + FieldsFrom(keys, values, i, rest)
    decreases |keys| - i
  {
    hide ScalarFields;
    if i == |keys| {
      assert keys[..i] == keys && values[..i] == values;
    } else {
      FieldsAreLines(keys, values, i + 1, rest);
      assert keys[..i + 1] == keys[..i] + [keys[i]] && values[..i + 1] == values[..i] + [values[i]];
      FieldsSnoc(keys[..i], values[..i], keys[i], values[i]);
      var before, more := ScalarFields(keys[..i], values[..i]), FieldsFrom(keys, values, i + 1, rest);
      assert before + ScalarField(keys[i], values[i]) + more == before + Line(keys[i], values[i], more);
    }
  }

  lemma FieldsAreAllLines(keys: seq<string>, values: seq<string>, rest: string)
    requires |keys| == |values|
    ensures ScalarFields(keys, values) + rest == FieldsFrom(keys, values, 0, rest)
  {
    hide FieldsFrom;
    FieldsAreLines(keys, values, 0, rest);
    assert keys[..0] == [] && values[..0] == [];
  }

  lemma ListsAreWritten(r: SignedRecord)
    ensures ScalarFields(LIST_KEYS, JoinAll(Lists(r))) == WrittenLists(r)
  {
    hide ScalarFields, Join, Line;
    var keys, values := LIST_KEYS, JoinAll(Lists(r));
    FieldsAreAllLines(keys, values, "");
    assert ScalarFields(keys, values) + "" == ScalarFields(keys, values);
    assert FieldsFrom(keys, values, 3, "") == Line("rule_ids", Join(r.ruleIDs), "");
    assert FieldsFrom(keys, values, 2, "") == Line("hits", Join(r.hits), FieldsFrom(keys, values, 3, ""));
  }

  /** The payload is the text written out. */
  lemma PayloadIsWritten(r: SignedRecord)
    ensures Payload(r) == Written(r)
  {
    hide ScalarFields, Join, Line, FieldsFrom, WrittenLists;
    var scalars, lists := ScalarFields(SCALAR_KEYS, Scalars(r)), WrittenLists(r);
    ListsAreWritten(r);
    FieldsAreAllLines(SCALAR_KEYS, Scalars(r), lists);
    ScalarsAreWritten(r);
    assert HEADER + scalars + lists == HEADER + (scalars + lists);
  }

  lemma FieldStep(keys: seq<string>, values: seq<string>, i: nat, rest: string)
    requires |keys| == |values| && i < |keys|
    ensures FieldsFrom(keys, values, i, rest) == Line(keys[i], values[i], FieldsFrom(keys, values, i + 1, rest))
  {
  }

  lemma ActionIsWritten(r: SignedRecord)
    ensures WrittenAction(r) == FieldsFrom(SCALAR_KEYS, Scalars(r), 8, WrittenLists(r))
  {
    hide Line, FieldsFrom, WrittenLists;
    var keys, values, lists := SCALAR_KEYS, Scalars(r), WrittenLists(r);
    FieldStep(keys, values, 8, lists);
    FieldStep(keys, values, 9, lists);
    FieldStep(keys, values, 10, lists);
    FieldStep(keys, values, 11, lists);
    FieldStep(keys, values, 12, lists);
    FieldStep(keys, values, 13, lists);
    FieldStep(keys, values, 14, lists);
    FieldStep(keys, values, 15, lists);
    FieldStep(keys, values, 16, lists);
    FieldsEnd(keys, values, lists);
  }

  lemma ScalarsAreWritten(r: SignedRecord)
    ensures Written(r) == "evidra.v1\n" + FieldsFrom(SCALAR_KEYS, Scalars(r), 0, WrittenLists(r))
  {
    hide Line, FieldsFrom, WrittenLists, WrittenAction;
    var keys, values, lists := SCALAR_KEYS, Scalars(r), WrittenLists(r);
    FieldStep(keys, values, 0, lists);
    FieldStep(keys, values, 1, lists);
    FieldStep(keys, values, 2, lists);
    FieldStep(keys, values, 3, lists);
    FieldStep(keys, values, 4, lists);
    FieldStep(keys, values, 5, lists);
    FieldStep(keys, values, 6, lists);
    FieldStep(keys, values, 7, lists);
    ActionIsWritten(r);
  }

  lemma FieldsEnd(keys: seq<string>, values: seq<string>, rest: string)
    requires |keys| == |values|
    ensures FieldsFrom(keys, values, |keys|, rest) == rest
  {
  }

  // ----- The printer as the code runs it

  /** The loop of `lengthPrefixedJoin`. */
  method LengthPrefixedJoin(values: seq<string>) returns (b: string)
    ensures b == Join(values)
  {
    b := "";
    for i := 0 to |values|
      invariant b == Join(values[..i])
    {
      assert values[..i + 1][..i] == values[..i];
      if i > 0 { b := b + ","; }
      b := b + Numeral(|values[i]|) + ":" + values[i];
      assert i == 0 ==> b == Element(values[0]);
      assert i > 0 ==> b == Join(values[..i]) + "," + Element(values[i]);
    }
    assert values[..|values|] == values;
  }

  /** `writeField`: one more field after those in `keys` and `values`. */
  method WriteField(b: string, key: string, value: string, ghost start: string, ghost keys: seq<string>,
    ghost values: seq<string>) returns (b': string, ghost keys': seq<string>, ghost values': seq<string>)
    requires |keys| == |values| && b == start + ScalarFields(keys, values)
    ensures keys' == keys + [key] && values' == values + [value]
    ensures b' == start + ScalarFields(keys', values')
    ensures b' == b + ScalarField(key, value)
  {
    b' := b + key;
    b' := b' + "=";
    b' := b' + value;
    b' := b' + "\n";
    keys', values' := keys + [key], values + [value];
    FieldsSnoc(keys, values, key, value);
    assert b' == start + (ScalarFields(keys, values) + ScalarField(key, value));
  }

  lemma {:induction false} FieldsSnoc(keys: seq<string>, values: seq<string>, key: string, value: string)
    requires |keys| == |values|
    ensures ScalarFields(keys + [key], values + [value]) == ScalarFields(keys, values) + ScalarField(key, value)
  {
    assert (keys + [key])[..|keys|] == keys && (values + [value])[..|keys|] == values;
  }

  /** `writeListField`. */
  method WriteListField(b: string, key: string, values: seq<string>, ghost start: string, ghost keys: seq<string>,
    ghost joined: seq<string>) returns (b': string, ghost keys': seq<string>, ghost joined': seq<string>)
    requires |keys| == |joined| && b == start + ScalarFields(keys, joined)
    ensures keys' == keys + [key] && joined' == joined + [Join(values)]
    ensures b' == start + ScalarFields(keys', joined')
    ensures b' == b + ListField(key, values)
  {
    var text := LengthPrefixedJoin(values);
    b', keys', joined' := WriteField(b, key, text, start, keys, joined);
  }

  /** The first fields of `BuildSigningPayload`: who and where. */
  method WriteIdentity(b0: string, r: SignedRecord) returns (b: string)
    requires b0 == HEADER + ScalarFields(SCALAR_KEYS[..0], Scalars(r)[..0])
    ensures b == HEADER + ScalarFields(SCALAR_KEYS[..6], Scalars(r)[..6])
  {
    hide ScalarFields, ScalarField;
    b := b0;
    ghost var k, v := SCALAR_KEYS[..0], Scalars(r)[..0];
    b, k, v := WriteField(b, "event_id", r.eventID, HEADER, k, v);
    b, k, v := WriteField(b, "timestamp", r.timestamp, HEADER, k, v);
    b, k, v := WriteField(b, "server_id", r.serverID, HEADER, k, v);
    b, k, v := WriteField(b, "tenant_id", r.tenantID, HEADER, k, v);
    b, k, v := WriteField(b, "environment", r.environment, HEADER, k, v);
    b, k, v := WriteField(b, "actor.type", r.actorType, HEADER, k, v);
    assert k == SCALAR_KEYS[..6] && v == Scalars(r)[..6];
  }

  /** The fields that describe the action. */
  method WriteAction(b0: string, r: SignedRecord) returns (b: string)
    requires b0 == HEADER + ScalarFields(SCALAR_KEYS[..6], Scalars(r)[..6])
    ensures b == HEADER + ScalarFields(SCALAR_KEYS[..11], Scalars(r)[..11])
  {
    hide ScalarFields, ScalarField;
    b := b0;
    ghost var k, v := SCALAR_KEYS[..6], Scalars(r)[..6];
    b, k, v := WriteField(b, "actor.id", r.actorID, HEADER, k, v);
    b, k, v := WriteField(b, "actor.origin", r.actorOrigin, HEADER, k, v);
    b, k, v := WriteField(b, "tool", r.tool, HEADER, k, v);
    b, k, v := WriteField(b, "operation", r.operation, HEADER, k, v);
    b, k, v := WriteField(b, "input_hash", r.inputHash, HEADER, k, v);
    assert k == SCALAR_KEYS[..11] && v == Scalars(r)[..11];
  }

  /** The fields of the decision. */
  method WriteDecision(b0: string, r: SignedRecord) returns (b: string)
    requires b0 == HEADER + ScalarFields(SCALAR_KEYS[..11], Scalars(r)[..11])
    ensures b == HEADER + ScalarFields(SCALAR_KEYS[..17], Scalars(r)[..17])
  {
    hide ScalarFields, ScalarField;
    b := b0;
    ghost var k, v := SCALAR_KEYS[..11], Scalars(r)[..11];
    b, k, v := WriteField(b, "policy_ref", r.policyRef, HEADER, k, v);
    b, k, v := WriteField(b, "bundle_revision", r.bundleRevision, HEADER, k, v);
    b, k, v := WriteField(b, "profile_name", r.profileName, HEADER, k, v);
    b, k, v := WriteField(b, "allow", FormatBool(r.allow), HEADER, k, v);
    b, k, v := WriteField(b, "risk_level", r.riskLevel, HEADER, k, v);
    b, k, v := WriteField(b, "reason", r.reason, HEADER, k, v);
    assert k == SCALAR_KEYS[..17] && v == Scalars(r)[..17];
  }

  /** The four list fields. */
  method WriteLists(b0: string, r: SignedRecord) returns (b: string)
    ensures b == b0 + ScalarFields(LIST_KEYS, JoinAll(Lists(r)))
  {
    assert b0 + ScalarFields([], []) == b0;
    hide ScalarFields, ScalarField, ListField, Join;
    b := b0;
    ghost var k: seq<string>, v: seq<string> := [], [];
    b, k, v := WriteListField(b, "reasons", r.reasons, b0, k, v);
    b, k, v := WriteListField(b, "hints", r.hints, b0, k, v);
    b, k, v := WriteListField(b, "hits", r.hits, b0, k, v);
    b, k, v := WriteListField(b, "rule_ids", r.ruleIDs, b0, k, v);
    assert k == LIST_KEYS && v == JoinAll(Lists(r));
  }

  /** `BuildSigningPayload`. */
  method BuildSigningPayload(r: SignedRecord) returns (b: string)
    ensures b == Payload(r) == Written(r)
  {
    hide Written;
    PayloadIsWritten(r);
    assert ScalarFields([], []) == "";
    hide ScalarFields, ScalarField, Join;
    assert SCALAR_KEYS[..0] == [] && Scalars(r)[..0] == [];
    b := WriteIdentity(HEADER, r);
    b := WriteAction(b, r);
    b := WriteDecision(b, r);
    assert SCALAR_KEYS[..17] == SCALAR_KEYS && Scalars(r)[..17] == Scalars(r);
    b := WriteLists(b, r);
  }

  // ----- The decoder

  /** The position of the first newline. */
  function LineEnd(s: string): (k: nat)
    ensures k <= |s| && '\n' !in s[..k]
    ensures k < |s| ==> s[k] == '\n'
  {
    if s == "" || s[0] == '\n' then 0 else 1 + LineEnd(s[1..])
  }

  function DecodeScalar(key: string, s: string): Option<(string, string)> {
    if !(key + "=" <= s) then None
    else
      var rest := s[|key| + 1..];
      var k := LineEnd(rest);
      if k == |rest| then None else Some((rest[..k], rest[k + 1..]))
  }

  function DecodeScalars(keys: seq<string>, s: string): Option<(seq<string>, string)> {
    if keys == [] then Some(([], s))
    else match DecodeScalar(keys[0], s)
      case None => None
      case Some((value, rest)) =>
        match DecodeScalars(keys[1..], rest)
        case None => None
        case Some((values, last)) => Some(([value] + values, last))
  }

  /** One element and what follows it. */
  function DecodeElement(s: string): Option<(string, string)> {
    var k := DigitRun(s, |s|);
    if k == |s| || s[k] != ':' then None
    else
      var n := Value(s[..k]);
      var rest := s[k + 1..];
      if n > |rest| then None else Some((rest[..n], rest[n..]))
  }

  /** Elements up to the newline that ends the field. */
  function DecodeElements(s: string): Option<(seq<string>, string)>
    decreases |s|
  {
    match DecodeElement(s)
    case None => None
    case Some((value, rest)) =>
      if rest == "" || |rest| >= |s| then None
      else if rest[0] == '\n' then Some(([value], rest[1..]))
      else if rest[0] != ',' then None
      else match DecodeElements(rest[1..])
        case None => None
        case Some((values, last)) => Some(([value] + values, last))
  }

  function DecodeList(key: string, s: string): Option<(seq<string>, string)> {
    if !(key + "=" <= s) then None
    else
      var rest := s[|key| + 1..];
      if rest != "" && rest[0] == '\n' then Some(([], rest[1..])) else DecodeElements(rest)
  }

  function DecodeLists(keys: seq<string>, s: string): Option<(seq<seq<string>>, string)> {
    if keys == [] then Some(([], s))
    else match DecodeList(keys[0], s)
      case None => None
      case Some((values, rest)) =>
        match DecodeLists(keys[1..], rest)
        case None => None
        case Some((lists, last)) => Some(([values] + lists, last))
  }

  function ParseBool(s: string): Option<bool> {
    if s == "true" then Some(true) else if s == "false" then Some(false) else None
  }

  function Assemble(v: seq<string>, l: seq<seq<string>>): Option<SignedRecord>
    requires |v| == 17 && |l| == 4
  {
    match ParseBool(v[14])
    case None => None
    case Some(allow) =>
      if !IsTimestamp(v[1]) then None
      else Some(SignedRecord(v[0], v[1], v[2], v[3], v[4], v[5], v[6], v[7], v[8], v[9], v[10], v[11], v[12], v[13],
        allow, v[15], v[16], l[0], l[1], l[2], l[3]))
  }

  function Decode(s: string): Option<SignedRecord> {
    if !(HEADER <= s) then None
    else match DecodeScalars(SCALAR_KEYS, s[|HEADER|..])
      case None => None
      case Some((values, rest)) =>
        match DecodeLists(LIST_KEYS, rest)
        case None => None
        case Some((lists, last)) =>
          if last != "" || |values| != 17 || |lists| != 4 then None else Assemble(values, lists)
  }

  // ----- Round trip

  /** No scalar field contains a newline. */
  ghost predicate NewlineFree(r: SignedRecord) {
    forall i :: 0 <= i < 17 ==> '\n' !in Scalars(r)[i]
  }

  lemma {:induction false} LineEndOf(v: string, rest: string)
    requires '\n' !in v
    ensures LineEnd(v + "\n" + rest) == |v|
  {
    var s := v + "\n" + rest;
    if v != "" {
      assert s[1..] == v[1..] + "\n" + rest;
      assert v[0] in v;
      LineEndOf(v[1..], rest);
    }
  }

  lemma {:induction false} DecodeScalarOf(key: string, value: string, rest: string)
    requires '\n' !in value
    ensures DecodeScalar(key, ScalarField(key, value) + rest) == Some((value, rest))
  {
    var s := ScalarField(key, value) + rest;
    assert s == (key + "=") + (value + "\n" + rest);
    assert s[|key| + 1..] == value + "\n" + rest;
    LineEndOf(value, rest);
    assert (value + "\n" + rest)[..|value|] == value;
    assert (value + "\n" + rest)[|value| + 1..] == rest;
  }

  /** Fields can be peeled off from the front. */
  lemma {:induction false} FieldsCons(keys: seq<string>, values: seq<string>)
    requires |keys| == |values| > 0
    ensures ScalarFields(keys, values) == ScalarField(keys[0], values[0]) + ScalarFields(keys[1..], values[1..])
  {
    hide ScalarField;
    var n := |keys| - 1;
    if n == 0 {
      assert ScalarFields(keys[..0], values[..0]) == "" && ScalarFields(keys[1..], values[1..]) == "";
    } else {
      FieldsCons(keys[..n], values[..n]);
      assert keys[..n][0] == keys[0] && values[..n][0] == values[0];
      assert keys[..n][1..] == keys[1..][..n - 1] && values[..n][1..] == values[1..][..n - 1];
      assert keys[1..][n - 1] == keys[n] && values[1..][n - 1] == values[n];
    }
  }

  lemma {:induction false} DecodeScalarsOf(keys: seq<string>, values: seq<string>, rest: string)
    requires |keys| == |values| && forall i :: 0 <= i < |values| ==> '\n' !in values[i]
    ensures DecodeScalars(keys, ScalarFields(keys, values) + rest) == Some((values, rest))
  {
    hide ScalarField, DecodeScalar;
    var s := ScalarFields(keys, values) + rest;
    if keys == [] {
      assert s == rest;
    } else {
      FieldsCons(keys, values);
      var rest' := ScalarFields(keys[1..], values[1..]) + rest;
      assert s == ScalarField(keys[0], values[0]) + rest';
      DecodeScalarOf(keys[0], values[0], rest');
      DecodeScalarsOf(keys[1..], values[1..], rest);
      assert [values[0]] + values[1..] == values;
    }
  }

  lemma {:induction false} DigitRunStops(digits: string, rest: string, limit: nat)
    requires AllDigits(digits) && |digits| <= limit
    requires rest == "" || !IsDigit(rest[0])
    ensures DigitRun(digits + rest, limit) == |digits|
    decreases |digits|
  {
    var s := digits + rest;
    if digits != "" {
      assert s[1..] == digits[1..] + rest;
      DigitRunStops(digits[1..], rest, limit - 1);
    } else {
      assert s == rest;
    }
  }

  lemma DecodeElementOf(v: string, rest: string)
    ensures DecodeElement(Element(v) + rest) == Some((v, rest))
  {
    var digits := Numeral(|v|);
    var s := Element(v) + rest;
    assert s == digits + (":" + v + rest);
    DigitRunStops(digits, ":" + v + rest, |s|);
    assert s[..|digits|] == digits;
    assert s[|digits| + 1..] == v + rest;
    ValueNumeral(|v|);
    assert (v + rest)[..|v|] == v && (v + rest)[|v|..] == rest;
  }

  /** Elements can be peeled off from the front. */
  lemma {:induction false} JoinCons(values: seq<string>)
    requires |values| > 1
    ensures Join(values) == Element(values[0]) + "," + Join(values[1..])
  {
    hide Element;
    var n := |values| - 1;
    if n == 1 {
      assert values[..1][0] == values[0] && values[1..][0] == values[1];
    } else {
      JoinCons(values[..n]);
      assert values[..n][0] == values[0];
      assert values[..n][1..] == values[1..][..n - 1];
      assert values[1..][n - 1] == values[n];
    }
  }

  lemma {:induction false} DecodeElementsOf(values: seq<string>, rest: string)
    requires values != []
    ensures DecodeElements(Join(values) + "\n" + rest) == Some((values, rest))
  {
    hide Element, DecodeElement;
    var s := Join(values) + "\n" + rest;
    ElementNonEmpty(values[0]);
    if |values| == 1 {
      assert s == Element(values[0]) + ("\n" + rest);
      DecodeElementOf(values[0], "\n" + rest);
      assert ("\n" + rest)[1..] == rest;
      assert values == [values[0]];
    } else {
      JoinCons(values);
      var tail := Join(values[1..]) + "\n" + rest;
      assert s == Element(values[0]) + ("," + tail);
      DecodeElementOf(values[0], "," + tail);
      assert ("," + tail)[1..] == tail;
      DecodeElementsOf(values[1..], rest);
      assert [values[0]] + values[1..] == values;
    }
  }

  lemma ElementNonEmpty(v: string)
    ensures |Element(v)| > 0
  {
  }

  lemma DecodeListOf(key: string, values: seq<string>, rest: string)
    ensures DecodeList(key, ListField(key, values) + rest) == Some((values, rest))
  {
    var s := ListField(key, values) + rest;
    assert s == (key + "=") + (Join(values) + "\n" + rest);
    assert s[|key| + 1..] == Join(values) + "\n" + rest;
    if values == [] {
      assert (Join(values) + "\n" + rest)[1..] == rest;
    } else {
      JoinStartsWithDigit(values);
      assert (Join(values) + "\n" + rest)[0] == Join(values)[0];
      DecodeElementsOf(values, rest);
    }
  }

  lemma {:induction false} JoinStartsWithDigit(values: seq<string>)
    requires values != []
    ensures Join(values) != "" && IsDigit(Join(values)[0])
  {
    if |values| > 1 { JoinStartsWithDigit(values[..|values| - 1]); }
  }

  lemma {:induction false} DecodeListsOf(keys: seq<string>, lists: seq<seq<string>>, rest: string)
    requires |keys| == |lists|
    ensures DecodeLists(keys, ScalarFields(keys, JoinAll(lists)) + rest) == Some((lists, rest))
  {
    hide Join, DecodeList, ScalarField;
    var s := ScalarFields(keys, JoinAll(lists)) + rest;
    if keys == [] {
      assert s == rest;
    } else {
      FieldsCons(keys, JoinAll(lists));
      assert JoinAll(lists)[1..] == JoinAll(lists[1..]);
      var rest' := ScalarFields(keys[1..], JoinAll(lists[1..])) + rest;
      assert s == ListField(keys[0], lists[0]) + rest';
      DecodeListOf(keys[0], lists[0], rest');
      DecodeListsOf(keys[1..], lists[1..], rest);
      assert [lists[0]] + lists[1..] == lists;
    }
  }

  /** The decoder recovers every record without newlines in its scalar fields; list elements are arbitrary. */
  lemma DecodePayload(r: SignedRecord)
    requires NewlineFree(r)
    ensures Decode(Payload(r)) == Some(r)
  {
    hide ScalarFields, DecodeScalars, DecodeLists, Join;
    var scalars, lists := ScalarFields(SCALAR_KEYS, Scalars(r)), ScalarFields(LIST_KEYS, JoinAll(Lists(r)));
    var s := Payload(r);
    assert s == HEADER + (scalars + lists);
    assert s[|HEADER|..] == scalars + lists;
    DecodeScalarsOf(SCALAR_KEYS, Scalars(r), lists);
    DecodeListsOf(LIST_KEYS, Lists(r), "");
    assert lists + "" == lists;
  }

  lemma {:induction false} DecodedScalarsNewlineFree(keys: seq<string>, s: string)
    ensures DecodeScalars(keys, s).Some? ==>
      forall i :: 0 <= i < |DecodeScalars(keys, s).value.0| ==> '\n' !in DecodeScalars(keys, s).value.0[i]
  {
    if keys != [] && DecodeScalar(keys[0], s).Some? {
      DecodedScalarsNewlineFree(keys[1..], DecodeScalar(keys[0], s).value.1);
    }
  }

  /** Whatever the decoder returns has newline-free scalar fields. */
  lemma DecodedIsNewlineFree(s: string)
    ensures Decode(s).Some? ==> NewlineFree(Decode(s).value)
  {
    hide DecodeScalars, DecodeLists;
    if Decode(s).Some? {
      DecodedScalarsNewlineFree(SCALAR_KEYS, s[|HEADER|..]);
      var values := DecodeScalars(SCALAR_KEYS, s[|HEADER|..]).value.0;
      assert Scalars(Decode(s).value) == values;
    }
  }

  /** This decoder, which ends a scalar at the first newline, recovers exactly the newline-free records. */
  lemma RoundTripExactly(r: SignedRecord)
    ensures Decode(Payload(r)) == Some(r) <==> NewlineFree(r)
  {
    hide Payload, Decode, NewlineFree;
    if NewlineFree(r) { DecodePayload(r); }
    DecodedIsNewlineFree(Payload(r));
  }

  /** Equal payloads mean equal records. */
  lemma PayloadInjective(a: SignedRecord, b: SignedRecord)
    requires NewlineFree(a) && NewlineFree(b) && Payload(a) == Payload(b)
    ensures a == b
  {
    hide Payload, Decode, NewlineFree;
    DecodePayload(a);
    DecodePayload(b);
  }
}
