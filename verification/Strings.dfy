/** Go strings: byte-wise order, the seen-map de-duplication loop and its sorted form. */
module Strings {
  import opened Sorting

  /** Go's `<` on strings. */
  predicate Less(a: string, b: string)
    decreases |a|
  {
    b != "" && (a == "" || a[0] < b[0] || (a[0] == b[0] && Less(a[1..], b[1..])))
  }

  lemma {:induction false} LessIrreflexive(a: string)
    ensures !Less(a, a)
    decreases |a|
  {
    if a != "" { LessIrreflexive(a[1..]); }
  }

  lemma {:induction false} LessTransitive(a: string, b: string, c: string)
    requires Less(a, b) && Less(b, c)
    ensures Less(a, c)
    decreases |a|
  {
    if a != "" && a[0] == b[0] && b[0] == c[0] {
      LessTransitive(a[1..], b[1..], c[1..]);
    }
  }

  lemma {:induction false} LessTotal(a: string, b: string)
    ensures a == b || Less(a, b) || Less(b, a)
    decreases |a|
  {
    if a != "" && b != "" && a[0] == b[0] {
      LessTotal(a[1..], b[1..]);
      assert a == [a[0]] + a[1..] && b == [b[0]] + b[1..];
    }
  }

  lemma LessIsStrictOrder()
    ensures StrictOrder(Less)
  {
    forall x ensures !Less(x, x) { LessIrreflexive(x); }
    forall x, y, z | Less(x, y) && Less(y, z) ensures Less(x, z) { LessTransitive(x, y, z); }
    forall x, y ensures x == y || Less(x, y) || Less(y, x) { LessTotal(x, y); }
  }

  /** Appending one character to two strings of equal length. */
  lemma {:induction false} LessSnoc(s: string, t: string, x: char, y: char)
    requires |s| == |t|
    ensures Less(s + [x], t + [y]) <==> Less(s, t) || (s == t && x < y)
    decreases |s|
  {
    var a, b := s + [x], t + [y];
    if s == "" {
      assert a[1..] == "" && b[1..] == "";
    } else {
      assert a[1..] == s[1..] + [x] && b[1..] == t[1..] + [y];
      LessSnoc(s[1..], t[1..], x, y);
      assert s == t <==> s[0] == t[0] && s[1..] == t[1..] by {
        assert s == [s[0]] + s[1..] && t == [t[0]] + t[1..];
      }
    }
  }

  /** A common prefix does not affect the order. */
  lemma {:induction false} LessPrefix(p: string, a: string, b: string)
    ensures Less(p + a, p + b) <==> Less(a, b)
    decreases |p|
  {
    if p == "" {
      assert p + a == a && p + b == b;
    } else {
      assert (p + a)[1..] == p[1..] + a && (p + b)[1..] == p[1..] + b;
      LessPrefix(p[1..], a, b);
    }
  }

  /** For strings of equal length a common suffix does not affect the order. */
  lemma {:induction false} LessSuffix(a: string, b: string, suffix: string)
    requires |a| == |b|
    ensures Less(a + suffix, b + suffix) <==> Less(a, b)
    decreases |a|
  {
    if a == "" {
      LessIrreflexive(suffix);
      assert a + suffix == suffix && b + suffix == suffix;
    } else {
      assert (a + suffix)[1..] == a[1..] + suffix && (b + suffix)[1..] == b[1..] + suffix;
      LessSuffix(a[1..], b[1..], suffix);
    }
  }

  /** The seen-map loop: first occurrences of the non-empty strings, in order. */
  function Dedupe(s: seq<string>): (r: seq<string>)
    ensures Distinct(r)
    ensures forall x :: x in r <==> x in s && x != ""
  {
    if s == [] then []
    else
      var last := s[|s| - 1];
      var r := Dedupe(s[..|s| - 1]);
      assert s == s[..|s| - 1] + [last];
      if last == "" || last in r then r else r + [last]
  }

  /** De-duplicated and sorted. */
  function Canonical(s: seq<string>): (r: seq<string>) {
    Sort(Less, Dedupe(s))
  }

  lemma CanonicalSpec(s: seq<string>)
    ensures StrictlySorted(Less, Canonical(s))
    ensures Elements(Canonical(s)) == Elements(s) - {""}
    ensures forall x :: x in Canonical(s) <==> x in s && x != ""
  {
    LessIsStrictOrder();
    SortDistinct(Less, Dedupe(s));
    forall x ensures x in Canonical(s) <==> x in s && x != "" {
      assert x in Canonical(s) <==> x in Elements(Canonical(s));
      assert x in Dedupe(s) <==> x in Elements(Dedupe(s));
    }
  }

  /** The canonical form depends only on the set of non-empty strings. */
  lemma CanonicalBySet(a: seq<string>, b: seq<string>)
    requires Elements(a) - {""} == Elements(b) - {""}
    ensures Canonical(a) == Canonical(b)
  {
    LessIsStrictOrder();
    CanonicalSpec(a);
    CanonicalSpec(b);
    StrictlySortedUnique(Less, Canonical(a), Canonical(b));
  }

  /** A strictly sorted sequence of non-empty strings is its own canonical form. */
  lemma CanonicalFixed(a: seq<string>)
    requires StrictlySorted(Less, a) && "" !in a
    ensures Canonical(a) == a
  {
    LessIsStrictOrder();
    CanonicalSpec(a);
    assert Elements(a) - {""} == Elements(a);
    StrictlySortedUnique(Less, Canonical(a), a);
  }

  lemma CanonicalIdempotent(s: seq<string>)
    ensures Canonical(Canonical(s)) == Canonical(s)
  {
    CanonicalSpec(s);
    CanonicalFixed(Canonical(s));
  }

  /** The loop itself, with its map of strings already seen. */
  method DedupeLoop(s: seq<string>) returns (out: seq<string>)
    ensures out == Dedupe(s)
  {
    out := [];
    var seen: set<string> := {};
    for i := 0 to |s|
      invariant out == Dedupe(s[..i])
      invariant seen == Elements(out)
    {
      assert s[..i + 1][..i] == s[..i];
      if s[i] != "" && s[i] !in seen {
        seen := seen + {s[i]};
        out := out + [s[i]];
      }
    }
    assert s[..|s|] == s;
  }

  /** `sortedDedupeStrings` and `normalizeSealedSegments`: the same loop, then `sort.Strings`. */
  method SortedDedupe(s: seq<string>) returns (out: seq<string>)
    ensures out == Canonical(s)
  {
    out := DedupeLoop(s);
    out := Sort(Less, out);
  }

  /** `unicode.IsSpace`. */
  predicate IsSpace(c: char) {
    var n := c as int;
    || 9 <= n <= 13 || n == 32 || n == 0x85 || n == 0xA0 || n == 0x1680 || 0x2000 <= n <= 0x200A
    || n == 0x2028 || n == 0x2029 || n == 0x202F || n == 0x205F || n == 0x3000
  }

  /** `strings.TrimSpace`. */
  function TrimSpace(s: string): string
    decreases |s|
  {
    if s == "" then ""
    else if IsSpace(s[0]) then TrimSpace(s[1..])
    else if IsSpace(s[|s| - 1]) then TrimSpace(s[..|s| - 1])
    else s
  }

  /** White space only. */
  ghost predicate Blank(s: string) {
    forall i :: 0 <= i < |s| ==> IsSpace(s[i])
  }

  /** No white space at either end. */
  predicate Tight(s: string) {
    s != "" ==> !IsSpace(s[0]) && !IsSpace(s[|s| - 1])
  }

  lemma {:induction false} TrimSpaceSpec(s: string) returns (pre: string, post: string)
    ensures s == pre + TrimSpace(s) + post && Blank(pre) && Blank(post) && Tight(TrimSpace(s))
    decreases |s|
  {
    hide IsSpace;
    if s == "" {
      pre, post := "", "";
    } else if IsSpace(s[0]) {
      var p, q := TrimSpaceSpec(s[1..]);
      pre, post := [s[0]] + p, q;
      assert s == [s[0]] + s[1..];
    } else if IsSpace(s[|s| - 1]) {
      var p, q := TrimSpaceSpec(s[..|s| - 1]);
      pre, post := p, q + [s[|s| - 1]];
      assert s == s[..|s| - 1] + [s[|s| - 1]];
    } else {
      pre, post := "", "";
    }
  }

  /** Trimming removes exactly the white space around a tight text. */
  lemma {:induction false} TrimSpacePadded(pre: string, s: string, post: string)
    requires Blank(pre) && Blank(post) && Tight(s) && (s == "" ==> post == "")
    ensures TrimSpace(pre + s + post) == s
    decreases |pre| + |post|
  {
    hide IsSpace;
    var t := pre + s + post;
    if pre != "" {
      assert t[1..] == pre[1..] + s + post;
      TrimSpacePadded(pre[1..], s, post);
    } else if post != "" {
      assert t[..|t| - 1] == pre + s + post[..|post| - 1];
      TrimSpacePadded(pre, s, post[..|post| - 1]);
    } else {
      assert t == s;
    }
  }
}
