/**
 API-key encoding: a big-endian byte string written in base 62 by repeated in-place division
 (internal/store/keys.go:143-180).
 */
module Base62 {
  import opened Wrappers

  function Pow(b: nat, e: nat): nat {
    if e == 0 then 1 else b * Pow(b, e - 1)
  }

  /** The number a big-endian byte string denotes. */
  function Value(s: seq<byte>): nat {
    if s == [] then 0 else 256 * Value(s[..|s| - 1]) + s[|s| - 1]
  }

  /** The alphabet [0-9A-Za-z]. */
  function Digit(d: nat): char
    requires d < 62
  {
    if d < 10 then '0' + d as char
    else if d < 36 then 'A' + (d - 10) as char
    else 'a' + (d - 36) as char
  }

  /** The alphabet as the source spells it, in three runs. */
  lemma AlphabetSpelled(d: nat)
    requires d < 62
    ensures d < 10 ==> Digit(d) == "0123456789"[d]
    ensures 10 <= d < 36 ==> Digit(d) == "ABCDEFGHIJKLMNOPQRSTUVWXYZ"[d - 10]
    ensures d >= 36 ==> Digit(d) == "abcdefghijklmnopqrstuvwxyz"[d - 36]
  {
    assert forall i :: 0 <= i < 10 ==> "0123456789"[i] as int == '0' as int + i;
    assert forall i :: 0 <= i < 26 ==> "ABCDEFGHIJKLMNOPQRSTUVWXYZ"[i] as int == 'A' as int + i;
    assert forall i :: 0 <= i < 26 ==> "abcdefghijklmnopqrstuvwxyz"[i] as int == 'a' as int + i;
  }

  /** The base-62 numeral of `v`, most significant digit first; zero is the empty string. */
  function Numeral(v: nat): string {
    if v == 0 then "" else Numeral(v / 62) + [Digit(v % 62)]
  }

  /** The digits in the order in which repeated division produces them. */
  function Remainders(v: nat): string {
    if v == 0 then "" else [Digit(v % 62)] + Remainders(v / 62)
  }

  // ----- Decoding

  function DigitValue(c: char): Option<nat> {
    if '0' <= c <= '9' then Some(c as int - '0' as int)
    else if 'A' <= c <= 'Z' then Some(c as int - 'A' as int + 10)
    else if 'a' <= c <= 'z' then Some(c as int - 'a' as int + 36)
    else None
  }

  function Decode(s: string): Option<nat> {
    if s == "" then Some(0)
    else match (Decode(s[..|s| - 1]), DigitValue(s[|s| - 1]))
      case (Some(v), Some(d)) => Some(62 * v + d)
      case _ => None
  }

  lemma DigitRoundTrip(d: nat)
    requires d < 62
    ensures DigitValue(Digit(d)) == Some(d)
  {
  }

  /** The encoding preserves the value. */
  lemma {:induction false} DecodeNumeral(v: nat)
    ensures Decode(Numeral(v)) == Some(v)
  {
    hide Digit, DigitValue;
    if v > 0 {
      DecodeNumeral(v / 62);
      DigitRoundTrip(v % 62);
      var s := Numeral(v);
      assert s[..|s| - 1] == Numeral(v / 62);
    }
  }

  /** A non-zero numeral never starts with the zero digit. */
  lemma {:induction false} NoLeadingZero(v: nat)
    requires v > 0
    ensures Numeral(v) != "" && Numeral(v)[0] != '0'
  {
    hide Digit;
    if v < 62 {
      assert Numeral(v / 62) == "";
      DigitRoundTrip(v);
      assert Digit(v) != '0' by { assert DigitValue('0') == Some(0); }
    } else {
      NoLeadingZero(v / 62);
    }
  }

  /** A numeral has at most `k` digits exactly when the value is below 62^k. */
  lemma {:induction false} NumeralLength(v: nat, k: nat)
    ensures |Numeral(v)| <= k <==> v < Pow(62, k)
  {
    hide Digit;
    if v == 0 {
      PowPositive(k);
    } else if k > 0 {
      NumeralLength(v / 62, k - 1);
    }
  }

  lemma {:induction false} PowPositive(k: nat)
    ensures Pow(62, k) > 0
  {
    if k > 0 { PowPositive(k - 1); }
  }

  lemma {:induction false} PowAdd(b: nat, m: nat, n: nat)
    ensures Pow(b, m + n) == Pow(b, m) * Pow(b, n)
  {
    if m > 0 {
      PowAdd(b, m - 1, n);
      assert b * (Pow(b, m - 1) * Pow(b, n)) == (b * Pow(b, m - 1)) * Pow(b, n);
    }
  }

  lemma {:induction false} ValueBound(s: seq<byte>)
    ensures Value(s) < Pow(256, |s|)
  {
    if s != [] { ValueBound(s[..|s| - 1]); }
  }

  lemma SameDigits(x: nat, i: byte, y: nat, j: byte)
    requires 256 * x + i == 256 * y + j
    ensures x == y && i == j
  {
  }

  /** Equal-length byte strings are told apart by their values. */
  lemma {:induction false} ValueInjective(a: seq<byte>, b: seq<byte>)
    requires |a| == |b| && Value(a) == Value(b)
    ensures a == b
  {
    if a != [] {
      var n := |a| - 1;
      SameDigits(Value(a[..n]), a[n], Value(b[..n]), b[n]);
      ValueInjective(a[..n], b[..n]);
      assert a == a[..n] + [a[n]] && b == b[..n] + [b[n]];
    }
  }

  /** Two keys of the same length encode equally only if they are equal. */
  lemma EncodingInjective(a: seq<byte>, b: seq<byte>)
    ensures Numeral(Value(a)) == Numeral(Value(b)) <==> Value(a) == Value(b)
    ensures |a| == |b| ==> (Numeral(Value(a)) == Numeral(Value(b)) <==> a == b)
  {
    hide Numeral, Value;
    DecodeNumeral(Value(a));
    DecodeNumeral(Value(b));
    if |a| == |b| && Value(a) == Value(b) { ValueInjective(a, b); }
  }

  lemma SeventhPower()
    ensures Pow(62, 7) == 3521614606208
  {
    assert Pow(62, 4) == 14776336;
    assert Pow(62, 3) == 238328;
    PowAdd(62, 4, 3);
  }

  /** Multiplying two powers whose values are known. */
  lemma PowProduct(b: nat, m: nat, n: nat, x: nat, y: nat)
    requires Pow(b, m) == x && Pow(b, n) == y
    ensures Pow(b, m + n) == x * y
  {
    PowAdd(b, m, n);
  }

  lemma KeySpace()
    ensures Pow(256, 32) <= Pow(62, 43)
  {
    assert Pow(62, 1) == 62;
    assert Pow(256, 4) == 4294967296;
    hide Pow;
    SeventhPower();
    PowProduct(62, 7, 7, 3521614606208, 3521614606208);
    PowProduct(62, 14, 7, 12401769434657526912139264, 3521614606208);
    PowProduct(62, 21, 21, 43674252383913877424036476406214950912, 43674252383913877424036476406214950912);
    PowProduct(62, 42, 1, 1907440321293807005218825134272276737461586370979700379485518568438569631744, 62);
    PowProduct(256, 4, 4, 4294967296, 4294967296);
    PowProduct(256, 8, 8, 18446744073709551616, 18446744073709551616);
    PowProduct(256, 16, 16, 340282366920938463463374607431768211456, 340282366920938463463374607431768211456);
  }

  /** 32 random bytes give at most 43 characters. */
  lemma KeyLength(raw: seq<byte>)
    requires |raw| == 32
    ensures |Numeral(Value(raw))| <= 43
  {
    hide Numeral, Value, Pow;
    ValueBound(raw);
    KeySpace();
    NumeralLength(Value(raw), 43);
  }

  // ----- The algorithm

  /** `allZero`. */
  method AllZero(n: array<byte>) returns (zero: bool)
    ensures zero <==> Value(n[..]) == 0
  {
    for i := 0 to n.Length
      invariant forall k :: 0 <= k < i ==> n[k] == 0
    {
      if n[i] != 0 {
        NonZeroByte(n[..], i);
        return false;
      }
    }
    ZeroBytes(n[..]);
    return true;
  }

  lemma {:induction false} NonZeroByte(s: seq<byte>, i: nat)
    requires i < |s| && s[i] != 0
    ensures Value(s) > 0
  {
    if i < |s| - 1 { NonZeroByte(s[..|s| - 1], i); }
  }

  lemma {:induction false} ZeroBytes(s: seq<byte>)
    requires forall k :: 0 <= k < |s| ==> s[k] == 0
    ensures Value(s) == 0
  {
    if s != [] { ZeroBytes(s[..|s| - 1]); }
  }

  /** One in-place division by 62: every quotient fits a byte, and the remainder is returned. */
  method DivideInPlace(n: array<byte>) returns (remainder: nat)
    modifies n
    ensures remainder < 62
    ensures Value(old(n[..])) == 62 * Value(n[..]) + remainder
  {
    ghost var was := n[..];
    remainder := 0;
    for i := 0 to n.Length
      invariant remainder < 62
      invariant n[i..] == was[i..]
      invariant Value(was[..i]) == 62 * Value(n[..i]) + remainder
    {
      var val := remainder * 256 + n[i];
      assert n[i] == was[i..][0] == was[i];
      assert was[..i + 1][..i] == was[..i];
      ghost var done := n[..i];
      n[i] := val / 62;
      remainder := val % 62;
      assert n[..i + 1][..i] == n[..i] == done;
    }
    assert was[..n.Length] == was && n[..n.Length] == n[..];
  }

  /** The remainders are the numeral read backwards. */
  lemma {:induction false} RemaindersBackwards(v: nat)
    ensures |Remainders(v)| == |Numeral(v)|
    ensures forall k :: 0 <= k < |Numeral(v)| ==> Numeral(v)[k] == Remainders(v)[|Numeral(v)| - 1 - k]
  {
    hide Digit;
    if v > 0 { RemaindersBackwards(v / 62); }
  }

  /** The two-index reversal loop. */
  method ReverseInPlace(a: array<char>)
    modifies a
    ensures forall k :: 0 <= k < a.Length ==> a[k] == old(a[a.Length - 1 - k])
  {
    var i, j := 0, a.Length - 1;
    while i < j
      invariant 0 <= i <= j + 1 && i + j == a.Length - 1
      invariant forall k :: 0 <= k < i || j < k < a.Length ==> a[k] == old(a[a.Length - 1 - k])
      invariant forall k :: i <= k <= j ==> a[k] == old(a[k])
    {
      a[i], a[j] := a[j], a[i];
      i, j := i + 1, j - 1;
    }
  }

  /** The outer loop: it ends because the value shrinks, and collects the remainders. */
  method CollectRemainders(b: seq<byte>) returns (result: string)
    ensures result == Remainders(Value(b))
  {
    hide Digit, Value;
    var n := new byte[|b|](i requires 0 <= i < |b| => b[i]);
    assert n[..] == b;
    result := "";
    ghost var v := Value(b);
    while true
      invariant v == Value(n[..])
      invariant result + Remainders(v) == Remainders(Value(b))
      decreases v
    {
      var zero := AllZero(n);
      if zero { return; }
      var remainder := DivideInPlace(n);
      RemaindersStep(v, Value(n[..]), remainder);
      ghost var before := result;
      result := result + [Digit(remainder)];
      v := Value(n[..]);
      assert result + Remainders(v) == before + ([Digit(remainder)] + Remainders(v));
    }
  }

  lemma RemaindersStep(v: nat, quotient: nat, remainder: nat)
    requires v == 62 * quotient + remainder && remainder < 62 && v > 0
    ensures Remainders(v) == [Digit(remainder)] + Remainders(quotient) && quotient < v
  {
    assert v / 62 == quotient && v % 62 == remainder;
  }

  /** `base62Encode`: terminates and writes the base-62 numeral of the input's value. */
  method Encode(b: seq<byte>) returns (s: string)
    ensures s == Numeral(Value(b))
    ensures Decode(s) == Some(Value(b))
    ensures s != "" ==> s[0] != '0'
  {
    hide Digit, Value, Decode;
    var result := CollectRemainders(b);
    var out := new char[|result|](i requires 0 <= i < |result| => result[i]);
    assert out[..] == result;
    ReverseInPlace(out);
    RemaindersBackwards(Value(b));
    s := out[..];
    assert s == Numeral(Value(b));
    DecodeNumeral(Value(b));
    if Value(b) > 0 { NoLeadingZero(Value(b)); }
  }

  /** The key text and the stored prefix `plaintext[:12]`; `None` where that slice is out of range. */
  method KeyPrefix(raw: seq<byte>) returns (plaintext: string, prefix: Option<string>)
    ensures plaintext == "ev1_" + Numeral(Value(raw))
    ensures prefix.Some? <==> Value(raw) >= 3521614606208
    ensures prefix.Some? ==> |prefix.value| == 12 && prefix.value <= plaintext
  {
    var encoded := Encode(raw);
    plaintext := "ev1_" + encoded;
    NumeralLength(Value(raw), 7);
    SeventhPower();
    prefix := if |plaintext| >= 12 then Some(plaintext[..12]) else None;
  }
}
