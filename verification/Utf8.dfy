/**
 UTF-8 validity as in section 4 of RFC 3629, and the truncation of captured output that respects it
 (pkg/outputlimit/outputlimit.go:27-40).
 */
module Utf8 {
  import opened Wrappers

  predicate Tail(b: byte) {
    0x80 <= b <= 0xBF
  }

  /** The second byte of a multi-byte sequence; some leading bytes narrow its range. */
  predicate Second(lead: byte, b: byte) {
    match lead
    case 0xE0 => 0xA0 <= b <= 0xBF
    case 0xED => 0x80 <= b <= 0x9F
    case 0xF0 => 0x90 <= b <= 0xBF
    case 0xF4 => 0x80 <= b <= 0x8F
    case _ => Tail(b)
  }

  /** The length of the sequence a leading byte announces; 0 if no sequence starts with it. */
  function Announced(lead: byte): (n: nat)
    ensures n <= 4
  {
    if lead <= 0x7F then 1
    else if 0xC2 <= lead <= 0xDF then 2
    else if 0xE0 <= lead <= 0xEF then 3
    else if 0xF0 <= lead <= 0xF4 then 4
    else 0
  }

  /** The length of the character at the front of `s`; 0 if there is none. */
  function CharLength(s: seq<byte>): (n: nat)
    ensures n <= 4 && n <= |s|
  {
    if s == [] then 0
    else
      var n := Announced(s[0]);
      if n > |s| then 0
      else if n >= 2 && !Second(s[0], s[1]) then 0
      else if n >= 3 && !Tail(s[2]) then 0
      else if n == 4 && !Tail(s[3]) then 0
      else n
  }

  /** `utf8.Valid`: a sequence of characters. */
  predicate Valid(s: seq<byte>)
    decreases |s|
  {
    s == [] || (CharLength(s) > 0 && Valid(s[CharLength(s)..]))
  }

  // ----- Validity against the encoding

  /** A Unicode scalar value. */
  predicate Scalar(cp: nat) {
    cp < 0x110000 && !(0xD800 <= cp <= 0xDFFF)
  }

  /** Section 3 of RFC 3629. */
  function EncodeRune(cp: nat): (s: seq<byte>)
    requires Scalar(cp)
  {
    if cp < 0x80 then [cp]
    else if cp < 0x800 then [0xC0 + cp / 64, 0x80 + cp % 64]
    else if cp < 0x10000 then [0xE0 + cp / 4096, 0x80 + cp / 64 % 64, 0x80 + cp % 64]
    else [0xF0 + cp / 262144, 0x80 + cp / 4096 % 64, 0x80 + cp / 64 % 64, 0x80 + cp % 64]
  }

  /** The payload bits of a continuation byte. */
  function Low(b: byte): int {
    b as int - 0x80
  }

  function DecodeRune(s: seq<byte>): int
    requires CharLength(s) > 0
  {
    var lead := s[0] as int;
    match CharLength(s)
    case 1 => lead
    case 2 => (lead - 0xC0) * 64 + Low(s[1])
    case 3 => ((lead - 0xE0) * 64 + Low(s[1])) * 64 + Low(s[2])
    case _ => (((lead - 0xF0) * 64 + Low(s[1])) * 64 + Low(s[2])) * 64 + Low(s[3])
  }

  ghost predicate Scalars(cps: seq<nat>) {
    forall i :: 0 <= i < |cps| ==> Scalar(cps[i])
  }

  function EncodeAll(cps: seq<nat>): seq<byte>
    requires Scalars(cps)
  {
    if cps == [] then [] else EncodeRune(cps[0]) + EncodeAll(cps[1..])
  }

  /** Peeling off the last six bits. */
  lemma Peel(q: nat, r: nat)
    requires r < 64
    ensures (q * 64 + r) / 64 == q && (q * 64 + r) % 64 == r
  {
  }

  lemma Groups(cp: nat)
    ensures cp / 4096 == cp / 64 / 64 && cp / 262144 == cp / 64 / 64 / 64
  {
  }

  /** An encoded scalar value is one character. */
  lemma EncodedIsChar(cp: nat)
    requires Scalar(cp)
    ensures CharLength(EncodeRune(cp)) == |EncodeRune(cp)| > 0
  {
    Groups(cp);
    var a := cp / 64;
    var b := a / 64;
    assert cp == a * 64 + cp % 64 && a == b * 64 + a % 64;
    if cp < 0x800 {
    } else if cp < 0x10000 {
      assert b < 16;
      assert b == 0 ==> a % 64 >= 32;
      assert b == 13 ==> a % 64 < 32;
    } else {
      var d := b / 64;
      assert b == d * 64 + b % 64;
      assert d == 0 ==> b % 64 >= 16;
      assert d == 4 ==> b % 64 < 16;
    }
  }

  lemma ThreeBytes(s: seq<byte>)
    requires CharLength(s) == 3
    ensures DecodeRune(s) >= 0 && Scalar(DecodeRune(s)) && EncodeRune(DecodeRune(s)) == s[..3]
  {
    var cp, lead := DecodeRune(s), s[0] as int;
    var q := (lead - 0xE0) * 64 + Low(s[1]);
    Peel(q, Low(s[2]));
    Peel(lead - 0xE0, Low(s[1]));
    Groups(cp);
    assert 0x800 <= cp < 0x10000;
  }

  lemma FourBytes(s: seq<byte>)
    requires CharLength(s) == 4
    ensures DecodeRune(s) >= 0 && Scalar(DecodeRune(s)) && EncodeRune(DecodeRune(s)) == s[..4]
  {
    var cp, lead := DecodeRune(s), s[0] as int;
    var q := (lead - 0xF0) * 64 + Low(s[1]);
    Peel(q * 64 + Low(s[2]), Low(s[3]));
    Peel(q, Low(s[2]));
    Peel(lead - 0xF0, Low(s[1]));
    Groups(cp);
    assert 0x10000 <= cp < 0x110000;
  }

  /** The front character is the encoding of exactly the scalar value it decodes to. */
  lemma CharIsEncoded(s: seq<byte>)
    requires CharLength(s) > 0
    ensures DecodeRune(s) >= 0 && Scalar(DecodeRune(s)) && EncodeRune(DecodeRune(s)) == s[..CharLength(s)]
  {
    match CharLength(s)
    case 1 =>
    case 2 => Peel(s[0] as int - 0xC0, Low(s[1]));
    case 3 => ThreeBytes(s);
    case _ => FourBytes(s);
  }

  function DecodeAll(s: seq<byte>): seq<nat>
    requires Valid(s)
    decreases |s|
  {
    if s == [] then []
    else
      CharIsEncoded(s);
      [DecodeRune(s)] + DecodeAll(s[CharLength(s)..])
  }

  lemma {:induction false} ValidIsEncoded(s: seq<byte>)
    requires Valid(s)
    ensures Scalars(DecodeAll(s)) && EncodeAll(DecodeAll(s)) == s
    decreases |s|
  {
    hide EncodeRune, DecodeRune, Scalar;
    if s != [] {
      var n := CharLength(s);
      CharIsEncoded(s);
      ValidIsEncoded(s[n..]);
      var cps := DecodeAll(s);
      assert cps[1..] == DecodeAll(s[n..]);
      assert s == s[..n] + s[n..];
    }
  }

  lemma {:induction false} EncodedIsValid(cps: seq<nat>)
    requires Scalars(cps)
    ensures Valid(EncodeAll(cps))
  {
    hide EncodeRune, CharLength;
    if cps != [] {
      EncodedIsChar(cps[0]);
      EncodedIsValid(cps[1..]);
      var c := EncodeRune(cps[0]);
      assert c[|c|..] == [];
      ValidConcat(c, EncodeAll(cps[1..]));
    }
  }

  /** A byte string is valid exactly when it encodes a sequence of Unicode scalar values. */
  lemma ValidExactlyEncodings(s: seq<byte>)
    ensures Valid(s) <==> exists cps :: Scalars(cps) && EncodeAll(cps) == s
  {
    hide Valid, EncodeAll;
    if Valid(s) { ValidIsEncoded(s); }
    if cps :| Scalars(cps) && EncodeAll(cps) == s { EncodedIsValid(cps); }
  }

  // ----- Truncation

  const SUFFIX: seq<byte> := [0x0A, 0x2E, 0x2E, 0x2E, 0x5B, 0x74, 0x72, 0x75, 0x6E, 0x63, 0x61, 0x74, 0x65, 0x64, 0x5D]

  const SUFFIX_TEXT := "\n...[truncated]"

  /** The suffix is this text, byte for byte. */
  lemma SuffixSpelled()
    ensures |SUFFIX| == |SUFFIX_TEXT| && forall i :: 0 <= i < |SUFFIX| ==> SUFFIX[i] as int == SUFFIX_TEXT[i] as int
  {
  }

  /** `k` is the length of the longest valid prefix of at most `limit` bytes. */
  ghost predicate LongestValidPrefix(s: seq<byte>, limit: nat, k: nat) {
    && k <= limit && k <= |s| && Valid(s[..k])
    && forall j :: k < j <= limit && j <= |s| ==> !Valid(s[..j])
  }

  /** `Truncate`. */
  method Truncate(s: seq<byte>, maxBytes: int) returns (out: seq<byte>, truncated: bool)
    ensures truncated <==> 0 < maxBytes < |s|
    ensures !truncated ==> out == s
    ensures truncated ==> exists k: nat :: LongestValidPrefix(s, maxBytes, k) && out == s[..k] + SUFFIX
  {
    if maxBytes <= 0 || |s| <= maxBytes { return s, false; }
    var b := s[..maxBytes];
    while |b| > 0 && !Valid(b)
      invariant |b| <= maxBytes && b == s[..|b|]
      invariant forall j :: |b| < j <= maxBytes ==> !Valid(s[..j])
    {
      b := b[..|b| - 1];
    }
    assert LongestValidPrefix(s, maxBytes, |b|);
    if |b| == 0 {
      assert s[..|b|] + SUFFIX == SUFFIX;
      return SUFFIX, true;
    }
    return b + SUFFIX, true;
  }

  // ----- How much is lost

  /** The front character does not depend on the bytes behind it. */
  lemma CharLengthPrefix(s: seq<byte>, k: nat)
    requires CharLength(s) > 0 && CharLength(s) <= k <= |s|
    ensures CharLength(s[..k]) == CharLength(s)
  {
  }

  lemma {:induction false} ValidConcat(a: seq<byte>, b: seq<byte>)
    requires Valid(a) && Valid(b)
    ensures Valid(a + b)
    decreases |a|
  {
    if a == [] {
      assert a + b == b;
    } else {
      var n := CharLength(a);
      assert (a + b)[..|a|] == a;
      assert CharLength(a + b) == n by { CharLengthExtends(a, b); }
      assert (a + b)[n..] == a[n..] + b;
      ValidConcat(a[n..], b);
    }
  }

  lemma CharLengthExtends(a: seq<byte>, b: seq<byte>)
    requires CharLength(a) > 0
    ensures CharLength(a + b) == CharLength(a)
  {
    var s := a + b;
    assert forall i :: 0 <= i < |a| ==> s[i] == a[i];
  }

  /** Valid text has a valid prefix at most three bytes below any limit. */
  lemma {:induction false} ValidPrefixNear(s: seq<byte>, limit: nat) returns (k: nat)
    requires Valid(s) && limit <= |s|
    ensures limit - 3 <= k <= limit && Valid(s[..k])
    decreases |s|
  {
    if limit == 0 {
      k := 0;
    } else {
      var n := CharLength(s);
      if limit < n {
        k := 0;
      } else {
        var rest := ValidPrefixNear(s[n..], limit - n);
        k := n + rest;
        assert s[..k] == s[..n] + s[n..][..rest];
        CharLengthPrefix(s, n);
        assert s[..n][n..] == [];
        ValidConcat(s[..n], s[n..][..rest]);
      }
    }
  }

  /** Of valid text at most three bytes below the limit are dropped, and the result is valid text. */
  lemma TruncationLosesLittle(s: seq<byte>, limit: nat, k: nat)
    requires Valid(s) && limit <= |s| && LongestValidPrefix(s, limit, k)
    ensures limit - 3 <= k <= limit
    ensures Valid(s[..k] + SUFFIX)
  {
    var near := ValidPrefixNear(s, limit);
    SuffixIsValid();
    ValidConcat(s[..k], SUFFIX);
  }

  lemma {:induction false} AsciiIsValid(s: seq<byte>)
    requires forall i :: 0 <= i < |s| ==> s[i] <= 0x7F
    ensures Valid(s)
  {
    if s != [] { AsciiIsValid(s[1..]); }
  }

  lemma SuffixIsValid()
    ensures Valid(SUFFIX)
  {
    hide Valid;
    AsciiIsValid(SUFFIX);
  }
}
