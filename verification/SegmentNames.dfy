/**
 Names of segment files and the directory listing that every reader of the store starts from
 (pkg/evidence/segment.go:215-271).
 */
module SegmentNames {
  import opened Wrappers
  import opened Sorting
  import opened Decimal
  import Strings

  const PREFIX := "evidence-"
  const SUFFIX := ".jsonl"
  /** The largest index whose name the width-six scan can read back. */
  const LIMIT := 999999

  /** `segmentName`: "evidence-%06d.jsonl". */
  function SegmentName(idx: nat): (s: string) {
    PREFIX + (if idx <= LIMIT then Fixed(idx, 6) else Numeral(idx)) + SUFFIX
  }

  /**
   `parseSegmentIndex`. The scan reads at most six digits after the prefix. Spaces and signs, which
   the scanner would also take, cannot survive the comparison with the canonical name.
   */
  function ParseSegmentIndex(name: string): Result<nat, string> {
    if !(PREFIX <= name) then Err("invalid segment filename")
    else
      var rest := name[|PREFIX|..];
      var k := DigitRun(rest, 6);
      if k == 0 || !(SUFFIX <= rest[k..]) then Err("invalid segment filename")
      else
        var idx := Value(rest[..k]);
        if idx == 0 || name != SegmentName(idx) then Err("invalid segment filename")
        else Ok(idx)
  }

  /** The glob "evidence-*.jsonl" on a base name. */
  predicate Matches(name: string) {
    PREFIX <= name && |name| >= |PREFIX| + |SUFFIX| && name[|name| - |SUFFIX|..] == SUFFIX
  }

  lemma PowersOfTen()
    ensures Pow10(6) == 1000000
  {
    assert Pow10(2) == 100;
    assert Pow10(4) == 10000;
  }

  lemma SegmentNameShape(idx: nat)
    ensures Matches(SegmentName(idx)) && SegmentName(idx) != ""
    ensures idx <= LIMIT ==> |SegmentName(idx)| == 21
    ensures idx > LIMIT ==> |SegmentName(idx)| > 21
  {
    PowersOfTen();
    if idx > LIMIT { NumeralLength(idx, 6); }
  }

  /** The six characters between prefix and suffix. */
  lemma SegmentNameDigits(idx: nat)
    requires idx <= LIMIT
    ensures SegmentName(idx)[9..15] == Fixed(idx, 6)
    ensures Value(SegmentName(idx)[9..15]) == idx
  {
    PowersOfTen();
    assert SegmentName(idx)[9..15] == Fixed(idx, 6);
    ValueFixed(idx, 6);
  }

  /** The name spelled out: prefix, the index in exactly six digits, suffix. */
  lemma NameSpelled(idx: nat)
    requires idx <= 999999
    ensures var name := SegmentName(idx);
            && |name| == 21 && name[..9] == "evidence-" && name[15..] == ".jsonl"
            && AllDigits(name[9..15]) && Value(name[9..15]) == idx
  {
    SegmentNameDigits(idx);
    assert SegmentName(idx)[..9] == "evidence-" && SegmentName(idx)[15..] == ".jsonl";
  }

  /** The glob: any text between prefix and suffix. */
  lemma MatchesGlob(name: string)
    ensures Matches(name) <==> exists mid :: name == "evidence-" + mid + ".jsonl"
  {
    if Matches(name) {
      var mid := name[9..|name| - 6];
      assert name == "evidence-" + mid + ".jsonl";
    }
    if mid :| name == "evidence-" + mid + ".jsonl" {
      assert name[|name| - 6..] == ".jsonl";
    }
  }

  lemma SegmentNameInjective(i: nat, j: nat)
    requires SegmentName(i) == SegmentName(j)
    ensures i == j
  {
    SegmentNameShape(i);
    SegmentNameShape(j);
    if i <= LIMIT {
      SegmentNameDigits(i);
      SegmentNameDigits(j);
    } else {
      var n := |Numeral(i)|;
      assert SegmentName(i)[9..9 + n] == Numeral(i);
      assert SegmentName(j)[9..9 + n] == Numeral(j);
      ValueNumeral(i);
      ValueNumeral(j);
    }
  }

  lemma {:induction false} DigitRunOfFixed(s: string, rest: string, limit: nat)
    requires AllDigits(s) && |s| == limit
    ensures DigitRun(s + rest, limit) == limit
    decreases limit
  {
    if limit > 0 {
      assert (s + rest)[1..] == s[1..] + rest;
      DigitRunOfFixed(s[1..], rest, limit - 1);
    }
  }

  lemma ParsedIsName(name: string)
    requires ParseSegmentIndex(name).Ok?
    ensures var i := ParseSegmentIndex(name).value; 1 <= i <= LIMIT && name == SegmentName(i)
  {
    hide SegmentName;
    var rest := name[|PREFIX|..];
    var k := DigitRun(rest, 6);
    PowersOfTen();
    ValueBound(rest[..k]);
    PowMonotone(k, 6);
  }

  lemma NameParses(i: nat)
    requires 1 <= i <= LIMIT
    ensures ParseSegmentIndex(SegmentName(i)) == Ok(i)
  {
    hide Fixed, DigitRun, Value;
    PowersOfTen();
    var digits := Fixed(i, 6);
    ValueFixed(i, 6);
    var rest := SegmentName(i)[|PREFIX|..];
    assert rest == digits + SUFFIX;
    DigitRunOfFixed(digits, SUFFIX, 6);
    assert rest[..6] == digits && rest[6..] == SUFFIX;
  }

  /** `parseSegmentIndex` inverts `segmentName` on exactly the indices 1..999999. */
  lemma ParseInvertsName(name: string, i: nat)
    ensures ParseSegmentIndex(name) == Ok(i) <==> 1 <= i <= LIMIT && name == SegmentName(i)
  {
    hide SegmentName, ParseSegmentIndex;
    if ParseSegmentIndex(name).Ok? { ParsedIsName(name); }
    if 1 <= i <= LIMIT { NameParses(i); }
  }

  lemma {:induction false} PowMonotone(a: nat, b: nat)
    requires a <= b
    ensures Pow10(a) <= Pow10(b)
  {
    if a < b { PowMonotone(a, b - 1); }
  }

  lemma {:induction false} FixedOrder(a: nat, b: nat, w: nat)
    requires a < Pow10(w) && b < Pow10(w)
    ensures Strings.Less(Fixed(a, w), Fixed(b, w)) <==> a < b
  {
    if w > 0 {
      var a', b' := a / 10, b / 10;
      FixedOrder(a', b', w - 1);
      Strings.LessSnoc(Fixed(a', w - 1), Fixed(b', w - 1), DigitChar(a % 10), DigitChar(b % 10));
      ValueFixed(a', w - 1);
      ValueFixed(b', w - 1);
      assert a == 10 * a' + a % 10 && b == 10 * b' + b % 10;
    }
  }

  /** Lexicographic order of segment names is the numeric order of their indices. */
  lemma NameOrder(i: nat, j: nat)
    requires i <= LIMIT && j <= LIMIT
    ensures Strings.Less(SegmentName(i), SegmentName(j)) <==> i < j
  {
    PowersOfTen();
    FixedOrder(i, j, 6);
    Strings.LessSuffix(Fixed(i, 6), Fixed(j, 6), SUFFIX);
    Strings.LessPrefix(PREFIX, Fixed(i, 6) + SUFFIX, Fixed(j, 6) + SUFFIX);
    assert SegmentName(i) == PREFIX + (Fixed(i, 6) + SUFFIX);
    assert SegmentName(j) == PREFIX + (Fixed(j, 6) + SUFFIX);
  }

  /** The names of segments 1..n in numeric order. */
  function Names(n: nat): (s: seq<string>)
    ensures |s| == n
    ensures forall i :: 0 <= i < n ==> s[i] == SegmentName(i + 1)
  {
    seq(n, (i: nat) => SegmentName(i + 1))
  }

  lemma {:induction false} NamesSnoc(n: nat)
    ensures Names(n + 1) == Names(n) + [SegmentName(n + 1)]
    ensures Names(n + 1)[..n] == Names(n)
  {
    hide SegmentName;
  }

  lemma {:induction false} NamesDistinct(n: nat)
    ensures Distinct(Names(n)) && "" !in Names(n)
  {
    hide SegmentName;
    var s := Names(n);
    forall i, j | 0 <= i < j < n ensures s[i] != s[j] {
      NamesDiffer(i + 1, j + 1);
    }
    forall i | 0 <= i < n ensures s[i] != "" {
      SegmentNameShape(i + 1);
    }
  }

  lemma {:induction false} NamesDiffer(i: nat, j: nat)
    requires i != j
    ensures SegmentName(i) != SegmentName(j)
  {
    if SegmentName(i) == SegmentName(j) { SegmentNameInjective(i, j); }
  }

  lemma {:induction false} NamesSorted(n: nat)
    requires n <= LIMIT
    ensures StrictlySorted(Strings.Less, Names(n))
  {
    hide SegmentName, Strings.Less;
    forall i, j | 0 <= i < j < n ensures Strings.Less(Names(n)[i], Names(n)[j]) {
      NameOrder(i + 1, j + 1);
    }
  }

  /** The directory entries the glob returns. */
  function Matching(keys: set<string>): set<string> {
    set k | k in keys && Matches(k)
  }

  /** `orderedSegmentNames` on a directory: the matching files must be exactly segments 1..n. */
  ghost function Listing(keys: set<string>): (r: Result<seq<string>, string>)
    ensures r.Ok? ==> forall x :: x in r.value ==> x in keys
  {
    var n := |Matching(keys)|;
    if n <= LIMIT && Matching(keys) == Elements(Names(n)) then
      assert forall x :: x in Names(n) ==> x in Elements(Names(n));
      Ok(Names(n))
    else Err("bad segment sequence")
  }

  /** A directory that holds exactly segments 1..n is listed if and only if n is within the limit. */
  lemma {:induction false} ListingOfNames(keys: set<string>, n: nat)
    requires keys == Elements(Names(n))
    ensures |keys| == n
    ensures Listing(keys) == if n <= LIMIT then Ok(Names(n)) else Err("bad segment sequence")
  {
    hide SegmentName, Matches;
    NamesDistinct(n);
    DistinctCount(Names(n));
    forall k | k in keys ensures Matches(k) {
      var i :| 0 <= i < n && Names(n)[i] == k;
      SegmentNameShape(i + 1);
    }
    assert Matching(keys) == keys;
  }

  predicate NatLess(x: nat, y: nat) { x < y }

  function UpTo(n: nat): (s: seq<nat>)
    ensures |s| == n && forall i :: 0 <= i < n ==> s[i] == i + 1
  {
    seq(n, i => i + 1)
  }

  /** Parsed entries: every name carries its own index. */
  ghost predicate Paired(names: seq<string>, indices: seq<nat>) {
    && |names| == |indices|
    && forall i :: 0 <= i < |names| ==> 1 <= indices[i] <= LIMIT && names[i] == SegmentName(indices[i])
  }

  /** Then the parsed indices are 1..n in some order. */
  lemma {:induction false} IndicesOfNames(names: seq<string>, indices: seq<nat>, n: nat, k: nat)
    requires Paired(names, indices) && Elements(names) == Elements(Names(n))
    ensures k in indices <==> k in UpTo(n)
  {
    hide SegmentName;
    if k in indices {
      var i :| 0 <= i < |indices| && indices[i] == k;
      assert names[i] in Elements(names);
      var j :| 0 <= j < n && Names(n)[j] == names[i];
      SegmentNameInjective(j + 1, k);
      assert UpTo(n)[j] == k;
    }
    if k in UpTo(n) {
      assert Names(n)[k - 1] in Elements(Names(n));
      assert SegmentName(k) in Elements(names);
      var i :| 0 <= i < |names| && names[i] == SegmentName(k);
      SegmentNameInjective(indices[i], k);
    }
  }

  lemma PairedDistinct(names: seq<string>, indices: seq<nat>)
    requires Paired(names, indices) && Distinct(names)
    ensures Distinct(indices)
  {
    hide SegmentName;
  }

  /** When the parsed names are segments 1..n in some order, both sorts put them in numeric order. */
  lemma {:induction false} SortsToNames(names: seq<string>, indices: seq<nat>, n: nat)
    requires Paired(names, indices) && Distinct(names)
    requires n <= LIMIT && Elements(names) == Elements(Names(n))
    ensures Sort(Strings.Less, names) == Names(n)
    ensures Sort(NatLess, indices) == UpTo(n)
  {
    hide SegmentName, Strings.Less, Paired, Sort, Names;
    Strings.LessIsStrictOrder();
    NamesSorted(n);
    SortDistinct(Strings.Less, names);
    StrictlySortedUnique(Strings.Less, Sort(Strings.Less, names), Names(n));
    PairedDistinct(names, indices);
    forall k: nat ensures k in Elements(indices) <==> k in Elements(UpTo(n)) {
      IndicesOfNames(names, indices, n, k);
    }
    assert Elements(indices) == Elements(UpTo(n));
    SortDistinct(NatLess, indices);
    StrictlySortedUnique(NatLess, Sort(NatLess, indices), UpTo(n));
  }

  /** The first loop of `orderedSegmentNames`: filter by the glob and parse every match. */
  method ParseEntries(entries: seq<string>) returns (r: Result<(seq<string>, seq<nat>), string>)
    requires Distinct(entries)
    ensures r.Ok? ==> Paired(r.value.0, r.value.1) && Distinct(r.value.0)
    ensures r.Ok? ==> Elements(r.value.0) == Matching(Elements(entries))
    ensures r.Err? ==> exists x :: x in entries && Matches(x) && ParseSegmentIndex(x).Err?
  {
    var names: seq<string>, indices: seq<nat> := [], [];
    for e := 0 to |entries|
      invariant Paired(names, indices) && Distinct(names)
      invariant forall x :: x in names <==> x in entries[..e] && Matches(x)
    {
      var name := entries[e];
      assert entries[..e + 1] == entries[..e] + [name];
      if Matches(name) {
        var parsed := ParseSegmentIndex(name);
        if parsed.Err? {
          assert name in entries;
          return Err(parsed.error);
        }
        ParseInvertsName(name, parsed.value);
        names, indices := names + [name], indices + [parsed.value];
      }
    }
    assert entries[..|entries|] == entries;
    r := Ok((names, indices));
  }

  /** The two comparison loops of `orderedSegmentNames`. */
  method CheckSequence(names: seq<string>, indices: seq<nat>) returns (ok: bool)
    ensures ok <==> indices == UpTo(|indices|) && names == Names(|names|)
  {
    hide SegmentName;
    for i := 0 to |indices|
      invariant forall k :: 0 <= k < i ==> indices[k] == k + 1
    {
      if indices[i] != i + 1 {
        assert indices[i] != UpTo(|indices|)[i];
        return false;
      }
    }
    for i := 0 to |names|
      invariant forall k :: 0 <= k < i ==> names[k] == SegmentName(k + 1)
    {
      if names[i] != SegmentName(i + 1) {
        assert names[i] != Names(|names|)[i];
        return false;
      }
    }
    assert indices == UpTo(|indices|);
    assert names == Names(|names|);
    return true;
  }

  /**
   `orderedSegmentNames`. `entries` is the directory in whatever order the file system returns it.
   It succeeds if and only if the matching entries are exactly segments 1..n for some n up to the
   limit, and then returns indices and names in numeric order.
   */
  method OrderedSegmentNames(entries: seq<string>) returns (r: Result<(seq<nat>, seq<string>), string>)
    requires Distinct(entries)
    ensures r.Ok? <==> exists n: nat :: n <= LIMIT && Matching(Elements(entries)) == Elements(Names(n))
    ensures r.Ok? ==> r.value.0 == UpTo(|r.value.1|)
    ensures r.Ok? ==> Listing(Elements(entries)) == Ok(r.value.1)
    ensures r.Err? ==> Listing(Elements(entries)).Err?
  {
    var parsed := ParseEntries(entries);
    if parsed.Err? {
      ghost var bad :| bad in entries && Matches(bad) && ParseSegmentIndex(bad).Err?;
      BadEntryFails(Elements(entries), bad);
      return Err(parsed.error);
    }
    var (names, indices) := parsed.value;
    var sortedNames := Sort(Strings.Less, names);
    var sortedIndices := Sort(NatLess, indices);
    var ok := CheckSequence(sortedNames, sortedIndices);
    SequenceDecides(Elements(entries), names, indices);
    r := if ok then Ok((sortedIndices, sortedNames)) else Err("bad segment sequence");
  }

  /** The comparisons succeed exactly when the directory holds segments 1..n within the limit. */
  lemma {:induction false} SequenceDecides(keys: set<string>, names: seq<string>, indices: seq<nat>)
    requires Paired(names, indices) && Distinct(names) && Elements(names) == Matching(keys)
    ensures var ok := Sort(NatLess, indices) == UpTo(|indices|) && Sort(Strings.Less, names) == Names(|names|);
            && (ok <==> exists n: nat :: n <= LIMIT && Matching(keys) == Elements(Names(n)))
            && Listing(keys) == if ok then Ok(Names(|names|)) else Err("bad segment sequence")
  {
    hide SegmentName;
    var n := |names|;
    DistinctCount(names);
    if Sort(NatLess, indices) == UpTo(n) && Sort(Strings.Less, names) == Names(n) {
      CountWithinLimit(names, indices, Sort(NatLess, indices));
      SameMultisetSameElements(Sort(Strings.Less, names), names);
    } else {
      forall m: nat | m <= LIMIT ensures Matching(keys) != Elements(Names(m)) {
        if Matching(keys) == Elements(Names(m)) {
          SortsToNames(names, indices, m);
        }
      }
    }
  }

  lemma {:induction false} BadEntryFails(keys: set<string>, name: string)
    requires name in keys && Matches(name) && ParseSegmentIndex(name).Err?
    ensures !exists n: nat :: n <= LIMIT && Matching(keys) == Elements(Names(n))
    ensures Listing(keys).Err?
  {
    hide SegmentName, ParseSegmentIndex, Matches;
    forall n: nat | n <= LIMIT ensures Matching(keys) != Elements(Names(n)) {
      assert name in Matching(keys);
      if name in Elements(Names(n)) {
        var i :| 0 <= i < n && Names(n)[i] == name;
        ParseInvertsName(name, i + 1);
      }
    }
  }

  lemma CountWithinLimit(names: seq<string>, indices: seq<nat>, sorted: seq<nat>)
    requires Paired(names, indices) && sorted == UpTo(|names|)
    requires multiset(sorted) == multiset(indices)
    ensures |names| <= LIMIT
  {
    if |names| > 0 {
      SameMultisetSameElements(sorted, indices);
      assert sorted[|names| - 1] in indices;
    }
  }
}
