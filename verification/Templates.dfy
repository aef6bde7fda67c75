/**
 `{{token}}` templates: parser, printer and expansion (pkg/tokens/tokens.go).
 */
module Templates {
  import opened Wrappers
  import opened Sorting
  import Strings

  datatype Part = Text(text: string) | Token(name: string, optional: bool)

  // ----- Searching for doubled braces

  predicate PairAt(s: string, c: char, i: nat) {
    i + 1 < |s| && s[i] == c && s[i + 1] == c
  }

  ghost predicate HasPair(s: string, c: char) {
    exists i: nat :: PairAt(s, c, i)
  }

  /** `strings.Index` of a doubled character. */
  function FindPair(s: string, c: char): (r: Option<nat>)
    ensures r.None? <==> !HasPair(s, c)
    ensures r.Some? ==> PairAt(s, c, r.value) && forall i: nat :: i < r.value ==> !PairAt(s, c, i)
  {
    if |s| < 2 then None
    else if PairAt(s, c, 0) then Some(0)
    else
      var rest := FindPair(s[1..], c);
      assert forall i: nat :: PairAt(s, c, i + 1) <==> PairAt(s[1..], c, i);
      assert forall i: nat :: i > 0 && PairAt(s, c, i) ==> PairAt(s[1..], c, i - 1);
      match rest
      case None => None
      case Some(i) => Some(i + 1)
  }

  // ----- Token bodies

  predicate IsNameChar(c: char) {
    'a' <= c <= 'z' || 'A' <= c <= 'Z' || '0' <= c <= '9' || c == '_'
  }

  predicate IsName(s: string) {
    s != "" && forall i :: 0 <= i < |s| ==> IsNameChar(s[i])
  }

  /** `parseTokenBody`. */
  function ParseTokenBody(raw: string): Option<Part> {
    var body := Strings.TrimSpace(raw);
    if body == "" then None
    else
      var optional := body[|body| - 1] == '?';
      var name := if optional then body[..|body| - 1] else body;
      if IsName(name) then Some(Token(name, optional)) else None
  }

  // ----- Parsing

  /** One round of the loop in `parseTemplate`: the rest is text, an error, or parts and how much they took. */
  datatype Round = Rest | Bad | More(parts: seq<Part>, used: nat)

  function NextRound(s: string): (r: Round)
    ensures r.More? ==> 0 < r.used <= |s|
  {
    match FindPair(s, '{')
    case None => Rest
    case Some(start) =>
      var rest := s[start + 2..];
      match FindPair(rest, '}')
      case None => Bad
      case Some(end) =>
        var raw := rest[..end];
        if FindPair(raw, '{').Some? || FindPair(raw, '}').Some? then Bad
        else match ParseTokenBody(raw)
          case None => Bad
          case Some(token) => More(TextBefore(s[..start]) + [token], start + 2 + end + 2)
  }

  function TextBefore(t: string): seq<Part> {
    if t == "" then [] else [Text(t)]
  }

  /** `parseTemplate`; `None` is the invalid-token error. */
  function Parse(s: string): Option<seq<Part>>
    decreases |s|
  {
    if s == "" then Some([])
    else match NextRound(s)
      case Rest => Some([Text(s)])
      case Bad => None
      case More(parts, used) => Prepend(parts, Parse(s[used..]))
  }

  function Prepend(parts: seq<Part>, more: Option<seq<Part>>): Option<seq<Part>> {
    if more.None? then None else Some(parts + more.value)
  }

  lemma PrependTwice(a: seq<Part>, b: seq<Part>, more: Option<seq<Part>>)
    ensures Prepend(a, Prepend(b, more)) == Prepend(a + b, more)
    ensures Prepend([], more) == more
  {
    if more.Some? {
      assert a + (b + more.value) == (a + b) + more.value;
      assert [] + more.value == more.value;
    }
  }

  /** The loop over the template with its running index. */
  method ParseTemplate(template: string) returns (r: Option<seq<Part>>)
    ensures r == Parse(template)
  {
    hide NextRound, Prepend;
    var parts: seq<Part> := [];
    var i := 0;
    assert template[0..] == template;
    PrependTwice([], [], Parse(template));
    while i < |template|
      invariant i <= |template|
      invariant Parse(template) == Prepend(parts, Parse(template[i..]))
    {
      var s := template[i..];
      match NextRound(s)
      case Rest =>
        PrependSome(parts, [Text(s)]);
        return Some(parts + [Text(s)]);
      case Bad =>
        PrependNone(parts);
        return None;
      case More(found, used) =>
        assert s[used..] == template[i + used..];
        PrependTwice(parts, found, Parse(template[i + used..]));
        parts := parts + found;
        i := i + used;
    }
    assert template[i..] == "";
    PrependSome(parts, []);
    assert parts + [] == parts;
    return Some(parts);
  }

  lemma PrependSome(a: seq<Part>, b: seq<Part>)
    ensures Prepend(a, Some(b)) == Some(a + b)
  {
  }

  lemma PrependNone(a: seq<Part>)
    ensures Prepend(a, None) == None
  {
  }

  // ----- Printing and the round trip

  function Body(p: Part): string
    requires p.Token?
  {
    p.name + if p.optional then "?" else ""
  }

  function PrintPart(p: Part): string {
    match p
    case Text(t) => t
    case Token(_, _) => "{{" + Body(p) + "}}"
  }

  function Print(parts: seq<Part>): string {
    if parts == [] then "" else PrintPart(parts[0]) + Print(parts[1..])
  }

  ghost predicate GoodPart(p: Part) {
    match p
    case Text(t) => t != "" && !HasPair(t, '{')
    case Token(name, _) => IsName(name)
  }

  /** What may follow a part: a text is followed by a token only, and then does not end in an open brace. */
  ghost predicate GoodNeighbours(p: Part, q: Part) {
    p.Text? && p.text != "" ==> q.Token? && p.text[|p.text| - 1] != '{'
  }

  /** The part lists that parsing produces. */
  ghost predicate WellFormed(parts: seq<Part>) {
    && (forall i :: 0 <= i < |parts| ==> GoodPart(parts[i]))
    && (forall i :: 0 <= i < |parts| - 1 ==> GoodNeighbours(parts[i], parts[i + 1]))
  }

  lemma FindPairAfter(t: string, c: char, rest: string)
    requires !HasPair(t, c) && (t == "" || t[|t| - 1] != c)
    ensures FindPair(t + [c, c] + rest, c) == Some(|t|)
  {
    var s := t + [c, c] + rest;
    assert PairAt(s, c, |t|);
    forall i: nat | i < |t| ensures !PairAt(s, c, i) {
      if i + 1 < |t| {
        assert s[i] == t[i] && s[i + 1] == t[i + 1];
        assert !PairAt(t, c, i);
      } else {
        assert s[i] == t[|t| - 1];
      }
    }
  }

  // ----- What a template may look like

  /** The text of a token in a template: double braces around its name and mark, with optional white space. */
  ghost predicate IsTokenText(text: string, p: Part)
    requires p.Token?
  {
    exists pre, post :: Strings.Blank(pre) && Strings.Blank(post) && text == "{{" + (pre + Body(p) + post) + "}}"
  }

  /** `s` is a spelling of the parts, one after another. */
  ghost predicate Reads(parts: seq<Part>, s: string) {
    if parts == [] then s == ""
    else
      match parts[0]
      case Text(t) => t <= s && Reads(parts[1..], s[|t|..])
      case Token(_, _) =>
        exists n: nat :: n <= |s| && IsTokenText(s[..n], parts[0]) && Reads(parts[1..], s[n..])
  }

  /** The characters of a name. */
  lemma NameAlphabet(s: string)
    ensures IsName(s) <==> s != "" && forall c :: c in s ==> IsListed(c)
  {
    forall c: char ensures IsNameChar(c) <==> IsListed(c) {
      LowerListed(c);
      UpperListed(c);
      DigitListed(c);
    }
  }

  predicate IsListed(c: char) {
    c in "abcdefghijklmnopqrstuvwxyz" || c in "ABCDEFGHIJKLMNOPQRSTUVWXYZ" || c in "0123456789" || c == '_'
  }

  lemma LowerListed(c: char)
    ensures c in "abcdefghijklmnopqrstuvwxyz" <==> 'a' <= c <= 'z'
  {
    var all := "abcdefghijklmnopqrstuvwxyz";
    assert forall i :: 0 <= i < 26 ==> all[i] as int == 'a' as int + i;
    if 'a' <= c <= 'z' { assert all[c as int - 'a' as int] == c; }
  }

  lemma UpperListed(c: char)
    ensures c in "ABCDEFGHIJKLMNOPQRSTUVWXYZ" <==> 'A' <= c <= 'Z'
  {
    var all := "ABCDEFGHIJKLMNOPQRSTUVWXYZ";
    assert forall i :: 0 <= i < 26 ==> all[i] as int == 'A' as int + i;
    if 'A' <= c <= 'Z' { assert all[c as int - 'A' as int] == c; }
  }

  lemma DigitListed(c: char)
    ensures c in "0123456789" <==> '0' <= c <= '9'
  {
    var all := "0123456789";
    assert forall i :: 0 <= i < 10 ==> all[i] as int == '0' as int + i;
    if '0' <= c <= '9' { assert all[c as int - '0' as int] == c; }
  }

  /** A token body, with or without white space around it, parses to its token and is free of braces. */
  lemma TokenBodyParses(p: Part, pre: string, post: string)
    requires p.Token? && IsName(p.name) && Strings.Blank(pre) && Strings.Blank(post)
    ensures ParseTokenBody(pre + Body(p) + post) == Some(p)
    ensures '{' !in pre + Body(p) + post && '}' !in pre + Body(p) + post
  {
    hide Strings.TrimSpace;
    var body, raw := Body(p), pre + Body(p) + post;
    forall i | 0 <= i < |body| ensures body[i] != '{' && body[i] != '}' && !Strings.IsSpace(body[i]) {
      assert i < |p.name| ==> body[i] == p.name[i];
    }
    forall i | 0 <= i < |raw| ensures raw[i] != '{' && raw[i] != '}' {
      if i < |pre| {
        assert raw[i] == pre[i];
      } else if i < |pre| + |body| {
        assert raw[i] == body[i - |pre|];
      } else {
        assert raw[i] == post[i - |pre| - |body|];
      }
    }
    assert body[|p.name| - 1] == p.name[|p.name| - 1];
    Strings.TrimSpacePadded(pre, body, post);
    if p.optional {
      assert body[..|body| - 1] == p.name;
    } else {
      assert body == p.name;
    }
  }

  lemma Slices(t: string, mid: string, after: string)
    ensures (t + mid + after)[..|t|] == t && (t + mid + after)[|t| + |mid|..] == after
  {
  }

  lemma NoBraceNoPair(s: string, c: char)
    requires c !in s
    ensures FindPair(s, c) == None && !HasPair(s, c) && (s == "" || s[|s| - 1] != c)
  {
    forall i: nat ensures !PairAt(s, c, i) {
      if i + 1 < |s| { assert s[i] in s; }
    }
  }

  /** The round that meets a text, possibly empty, followed by a token. */
  lemma RoundTextToken(t: string, p: Part, raw: string, rest: string)
    requires !HasPair(t, '{') && (t == "" || t[|t| - 1] != '{')
    requires ParseTokenBody(raw) == Some(p) && '{' !in raw && '}' !in raw
    ensures NextRound(t + ("{{" + raw + "}}") + rest) == More(TextBefore(t) + [p], |t + ("{{" + raw + "}}")|)
  {
    hide FindPair, ParseTokenBody, HasPair, PairAt, TextBefore;
    var s := t + ("{{" + raw + "}}") + rest;
    var after := raw + ['}', '}'] + rest;
    assert s == t + ['{', '{'] + after;
    FindPairAfter(t, '{', after);
    Slices(t, ['{', '{'], after);
    NoBraceNoPair(raw, '{');
    NoBraceNoPair(raw, '}');
    FindPairAfter(raw, '}', rest);
    Slices(raw, ['}', '}'], rest);
  }

  lemma ParseTextToken(t: string, p: Part, text: string, rest: string)
    requires !HasPair(t, '{') && (t == "" || t[|t| - 1] != '{')
    requires p.Token? && IsName(p.name) && IsTokenText(text, p)
    ensures Parse(t + text + rest) == Prepend(TextBefore(t) + [p], Parse(rest))
  {
    hide NextRound, HasPair, TextBefore, IsName, ParseTokenBody, Body, Strings.Blank;
    var pre, post :| Strings.Blank(pre) && Strings.Blank(post) && text == "{{" + (pre + Body(p) + post) + "}}";
    TokenBodyParses(p, pre, post);
    RoundTextToken(t, p, pre + Body(p) + post, rest);
    var s := t + text + rest;
    assert s[|t + text|..] == rest;
    assert |text| > 0;
  }

  /** The first token of a spelling, behind a text or at once. */
  lemma ReadsTextToken(parts: seq<Part>, s: string, t: string, k: nat) returns (text: string, rest: string)
    requires Reads(parts, s) && k <= 1 && k < |parts| && parts[k].Token?
    requires if k == 0 then t == "" else parts[0] == Text(t)
    ensures s == t + text + rest && IsTokenText(text, parts[k]) && Reads(parts[k + 1..], rest)
  {
    hide IsTokenText, Reads;
    if k == 0 {
      text, rest := ReadsTokenFirst(parts, s);
    } else {
      TextReadFirst(parts, s);
      text, rest := ReadsTokenFirst(parts[1..], s[|t|..]);
      assert parts[1..][1..] == parts[2..];
      assert s == s[..|t|] + s[|t|..];
    }
  }

  lemma TextReadFirst(parts: seq<Part>, s: string)
    requires parts != [] && parts[0].Text? && Reads(parts, s)
    ensures parts[0].text <= s && Reads(parts[1..], s[|parts[0].text|..])
  {
  }

  lemma ReadsTokenFirst(parts: seq<Part>, s: string) returns (text: string, rest: string)
    requires parts != [] && parts[0].Token? && Reads(parts, s)
    ensures s == text + rest && IsTokenText(text, parts[0]) && Reads(parts[1..], rest)
  {
    hide IsTokenText;
    var n: nat :| n <= |s| && IsTokenText(s[..n], parts[0]) && Reads(parts[1..], s[n..]);
    text, rest := s[..n], s[n..];
  }

  /** Every spelling of a well-formed part list parses to that list. */
  lemma {:induction false} ReadsParse(parts: seq<Part>, s: string)
    requires WellFormed(parts) && Reads(parts, s)
    ensures Parse(s) == Some(parts)
  {
    hide HasPair, Parse, IsTokenText;
    if parts == [] {
      ParseEmpty();
    } else if |parts| == 1 && parts[0].Text? {
      assert GoodPart(parts[0]);
      var t := parts[0].text;
      assert parts == [Text(t)] && parts[1..] == [];
      assert Reads(parts[1..], s[|t|..]);
      assert s == s[..|t|] + s[|t|..] == t;
      ParseTextOnly(parts[0].text);
    } else {
      var t := if parts[0].Text? then parts[0].text else "";
      var k := if parts[0].Text? then 1 else 0;
      assert GoodPart(parts[0]) && GoodPart(parts[k]);
      if k == 1 { assert GoodNeighbours(parts[0], parts[0 + 1]); }
      WellFormedRest(parts, k + 1);
      var text, rest := ReadsTextToken(parts, s, t, k);
      ReadsParse(parts[k + 1..], rest);
      NoPairInEmpty();
      ParseTextToken(t, parts[k], text, rest);
      assert TextBefore(t) + [parts[k]] + parts[k + 1..] == parts;
    }
  }

  lemma WellFormedRest(parts: seq<Part>, k: nat)
    requires WellFormed(parts) && k <= |parts|
    ensures WellFormed(parts[k..])
  {
    hide GoodPart, GoodNeighbours;
    var rest := parts[k..];
    forall i | 0 <= i < |rest| ensures GoodPart(rest[i]) { assert rest[i] == parts[i + k]; }
    forall i | 0 <= i < |rest| - 1 ensures GoodNeighbours(rest[i], rest[i + 1]) {
      assert GoodNeighbours(parts[i + k], parts[i + k + 1]);
    }
  }

  lemma NoPairInEmpty()
    ensures !HasPair("", '{')
  {
  }

  lemma ParseEmpty()
    ensures Parse("") == Some([])
  {
  }

  lemma ParseTextOnly(t: string)
    requires t != "" && !HasPair(t, '{')
    ensures Parse(t) == Some([Text(t)])
  {
  }

  /** What a successful body parse says about the body. */
  lemma BodyIsTokenText(raw: string)
    requires ParseTokenBody(raw).Some?
    ensures var p := ParseTokenBody(raw).value;
            p.Token? && IsTokenText("{{" + raw + "}}", p)
  {
    hide Strings.TrimSpace, Strings.Blank, IsName;
    var p := ParseTokenBody(raw).value;
    var body := Strings.TrimSpace(raw);
    var pre, post := Strings.TrimSpaceSpec(raw);
    if p.optional { assert body == body[..|body| - 1] + "?"; }
    assert body == Body(p);
  }

  /** A successful parse is a reading of the template. */
  lemma {:induction false} ParseReads(s: string)
    requires Parse(s).Some?
    ensures Reads(Parse(s).value, s)
    decreases |s|
  {
    hide NextRound, IsTokenText;
    if s != "" {
      var round := NextRound(s);
      if round.More? {
        ParseReads(s[round.used..]);
        RoundReads(s, Parse(s[round.used..]).value);
      } else {
        TextReads(s);
      }
    }
  }

  lemma TextReads(s: string)
    ensures Reads([Text(s)], s)
  {
    assert [Text(s)][1..] == [] && s[|s|..] == "";
  }

  lemma RoundReads(s: string, parts: seq<Part>)
    requires NextRound(s).More? && Reads(parts, s[NextRound(s).used..])
    ensures Reads(NextRound(s).parts + parts, s)
  {
    hide FindPair, ParseTokenBody, IsTokenText, Reads;
    var start := FindPair(s, '{').value;
    var rest := s[start + 2..];
    var end := FindPair(rest, '}').value;
    var raw := rest[..end];
    BodyIsTokenText(raw);
    var token := ParseTokenBody(raw).value;
    var from := s[start..];
    assert from == "{{" + raw + "}}" + s[NextRound(s).used..] by { SplitAtPairs(s, start, end); }
    var text := "{{" + raw + "}}";
    ReadsToken(token, text, s[NextRound(s).used..], parts);
    assert from == text + s[NextRound(s).used..];
    if start > 0 {
      ReadsText(s[..start], from, [token] + parts);
      assert s == s[..start] + from;
      assert TextBefore(s[..start]) + [token] + parts == [Text(s[..start])] + ([token] + parts);
    } else {
      assert TextBefore(s[..start]) + [token] + parts == [token] + parts;
      assert from == s;
    }
  }

  lemma SplitAtPairs(s: string, start: nat, end: nat)
    requires FindPair(s, '{') == Some(start) && FindPair(s[start + 2..], '}') == Some(end)
    ensures s[start..] == "{{" + s[start + 2..][..end] + "}}" + s[start + 2 + end + 2..]
  {
    hide HasPair;
    var rest := s[start + 2..];
    assert PairAt(s, '{', start) && PairAt(rest, '}', end);
    hide FindPair;
    assert s[start..] == [s[start], s[start + 1]] + rest;
    assert rest == rest[..end] + [rest[end], rest[end + 1]] + rest[end + 2..];
    assert rest[end + 2..] == s[start + 2 + end + 2..];
  }

  lemma ReadsToken(token: Part, text: string, rest: string, parts: seq<Part>)
    requires token.Token? && IsTokenText(text, token) && Reads(parts, rest)
    ensures Reads([token] + parts, text + rest)
  {
    hide IsTokenText;
    var all, s := [token] + parts, text + rest;
    assert all[0] == token && all[1..] == parts;
    assert s[..|text|] == text && s[|text|..] == rest;
  }

  lemma ReadsText(t: string, rest: string, parts: seq<Part>)
    requires Reads(parts, rest)
    ensures Reads([Text(t)] + parts, t + rest)
  {
    var all, s := [Text(t)] + parts, t + rest;
    assert all[0] == Text(t) && all[1..] == parts;
    assert s[..|t|] == t && s[|t|..] == rest;
  }

  /** Every successful parse yields a well-formed part list. */
  lemma {:induction false} ParseIsWellFormed(s: string)
    requires Parse(s).Some?
    ensures WellFormed(Parse(s).value)
    decreases |s|
  {
    hide NextRound, HasPair, WellFormed;
    if s == "" {
      EmptyIsWellFormed();
    } else {
      var round := NextRound(s);
      if round.More? {
        ParseIsWellFormed(s[round.used..]);
        RoundIsWellFormed(s, Parse(s[round.used..]).value);
      } else {
        LastRoundIsWellFormed(s);
      }
    }
  }

  lemma EmptyIsWellFormed()
    ensures WellFormed([])
  {
  }

  lemma LastRoundIsWellFormed(s: string)
    requires s != "" && NextRound(s).Rest?
    ensures WellFormed([Text(s)])
  {
  }

  lemma RoundIsWellFormed(s: string, parts: seq<Part>)
    requires NextRound(s).More? && WellFormed(parts)
    ensures WellFormed(NextRound(s).parts + parts)
  {
    hide FindPair, HasPair, ParseTokenBody, WellFormed;
    var start := FindPair(s, '{').value;
    var rest := s[start + 2..];
    var end := FindPair(rest, '}').value;
    TokenIsGood(rest[..end]);
    TextIsGood(s, start);
    ExtendWellFormed(s[..start], ParseTokenBody(rest[..end]).value, parts);
  }

  lemma TokenIsGood(raw: string)
    requires ParseTokenBody(raw).Some?
    ensures ParseTokenBody(raw).value.Token? && GoodPart(ParseTokenBody(raw).value)
  {
  }

  lemma TextIsGood(s: string, start: nat)
    requires FindPair(s, '{') == Some(start)
    ensures !HasPair(s[..start], '{') && (start > 0 ==> s[start - 1] != '{')
  {
    forall i: nat ensures !PairAt(s[..start], '{', i) {
      if i + 1 < start { assert !PairAt(s, '{', i); }
    }
    if start > 0 { assert !PairAt(s, '{', start - 1); }
  }

  lemma ExtendWellFormed(t: string, token: Part, parts: seq<Part>)
    requires WellFormed(parts) && token.Token? && GoodPart(token)
    requires !HasPair(t, '{') && (t != "" ==> t[|t| - 1] != '{')
    ensures WellFormed(TextBefore(t) + [token] + parts)
  {
    hide HasPair, IsName;
    var all := TextBefore(t) + [token] + parts;
    var k := |TextBefore(t)|;
    forall i | 0 <= i < |all| ensures GoodPart(all[i]) {
      if i > k { assert all[i] == parts[i - k - 1]; }
    }
    forall i | 0 <= i < |all| - 1 ensures GoodNeighbours(all[i], all[i + 1]) {
      if i > k {
        assert all[i] == parts[i - k - 1] && all[i + 1] == parts[i - k - 1 + 1];
        assert GoodNeighbours(parts[i - k - 1], parts[i - k - 1 + 1]);
      }
    }
  }

  /** The parser, exactly: a template parses to a part list if and only if that is well formed and spelled by it. */
  lemma ParseExactly(s: string, parts: seq<Part>)
    ensures Parse(s) == Some(parts) <==> WellFormed(parts) && Reads(parts, s)
  {
    hide Parse, WellFormed, Reads;
    if Parse(s) == Some(parts) {
      ParseIsWellFormed(s);
      ParseReads(s);
    }
    if WellFormed(parts) && Reads(parts, s) { ReadsParse(parts, s); }
  }

  lemma {:induction false} PrintReads(parts: seq<Part>)
    ensures Reads(parts, Print(parts))
  {
    hide IsTokenText, Body;
    if parts != [] {
      PrintReads(parts[1..]);
      var p := parts[0];
      assert parts == [p] + parts[1..];
      if p.Token? {
        PrintIsTokenText(p);
        ReadsToken(p, PrintPart(p), Print(parts[1..]), parts[1..]);
      } else {
        ReadsText(p.text, Print(parts[1..]), parts[1..]);
      }
    }
  }

  lemma PrintIsTokenText(p: Part)
    requires p.Token?
    ensures IsTokenText(PrintPart(p), p)
  {
    hide Body;
    assert Strings.Blank("");
    assert PrintPart(p) == "{{" + ("" + Body(p) + "") + "}}";
  }

  /** Printing a well-formed part list and parsing it again returns the list. */
  lemma ParsePrint(parts: seq<Part>)
    requires WellFormed(parts)
    ensures Parse(Print(parts)) == Some(parts)
  {
    hide Parse, WellFormed, Reads, Print;
    PrintReads(parts);
    ReadsParse(parts, Print(parts));
  }

  /** The well-formed part lists are exactly the results of parsing. */
  lemma ParsedExactlyWellFormed(parts: seq<Part>)
    ensures WellFormed(parts) <==> exists s :: Parse(s) == Some(parts)
  {
    hide Parse, WellFormed;
    if WellFormed(parts) {
      ParsePrint(parts);
      assert Parse(Print(parts)) == Some(parts);
    }
    if s :| Parse(s) == Some(parts) { ParseIsWellFormed(s); }
  }

  // ----- Expansion

  type Values = map<string, string>

  /** A required token whose value is missing or empty. */
  predicate Lacks(p: Part, values: Values) {
    p.Token? && !p.optional && (p.name !in values || values[p.name] == "")
  }

  /** What a part becomes: texts stay, tokens become their value, untouched by any further expansion. */
  function Image(p: Part, values: Values): string {
    match p
    case Text(t) => t
    case Token(name, _) => if name in values then values[name] else ""
  }

  function Images(parts: seq<Part>, values: Values): string {
    if parts == [] then "" else Images(parts[..|parts| - 1], values) + Image(parts[|parts| - 1], values)
  }

  ghost predicate FirstLacking(parts: seq<Part>, values: Values, i: int) {
    0 <= i < |parts| && Lacks(parts[i], values) && forall j :: 0 <= j < i ==> !Lacks(parts[j], values)
  }

  datatype ExpandError = InvalidTemplate | MissingParam(name: string)

  /** `ExpandTemplate`. */
  method ExpandTemplate(template: string, values: Values) returns (r: Result<string, ExpandError>)
    ensures match Parse(template)
            case None => r == Err(InvalidTemplate)
            case Some(parts) =>
              && (r.Ok? <==> forall i :: 0 <= i < |parts| ==> !Lacks(parts[i], values))
              && (r.Ok? ==> r.value == Images(parts, values))
              && (r.Err? ==> exists i :: FirstLacking(parts, values, i) && r.error == MissingParam(parts[i].name))
  {
    hide Parse;
    var parsed := ParseTemplate(template);
    if parsed.None? { return Err(InvalidTemplate); }
    var parts := parsed.value;
    var b := "";
    for i := 0 to |parts|
      invariant b == Images(parts[..i], values)
      invariant forall j :: 0 <= j < i ==> !Lacks(parts[j], values)
    {
      assert parts[..i + 1][..i] == parts[..i];
      var p := parts[i];
      if p.Text? {
        b := b + p.text;
      } else if p.name !in values || values[p.name] == "" {
        if !p.optional {
          assert FirstLacking(parts, values, i);
          return Err(MissingParam(p.name));
        }
      } else {
        b := b + values[p.name];
      }
    }
    assert parts[..|parts|] == parts;
    return Ok(b);
  }

  /** Substituting for every token its own spelling gives the template back. */
  lemma {:induction false} ExpandToItself(parts: seq<Part>, values: Values)
    requires forall i :: 0 <= i < |parts| && parts[i].Token? ==>
      parts[i].name in values && values[parts[i].name] == PrintPart(parts[i])
    ensures Images(parts, values) == Print(parts)
  {
    hide PrintPart;
    if parts != [] {
      var n := |parts| - 1;
      ExpandToItself(parts[..n], values);
      PrintSnoc(parts[..n], parts[n]);
      assert parts == parts[..n] + [parts[n]];
      if parts[n].Text? { PrintText(parts[n].text); }
    }
  }

  lemma PrintText(t: string)
    ensures PrintPart(Text(t)) == t
  {
  }

  lemma {:induction false} PrintSnoc(parts: seq<Part>, p: Part)
    ensures Print(parts + [p]) == Print(parts) + PrintPart(p)
  {
    hide PrintPart;
    if parts == [] {
      assert [p][1..] == [] && Print([p]) == PrintPart(p) + Print([]);
    } else {
      assert (parts + [p])[0] == parts[0] && (parts + [p])[1..] == parts[1..] + [p];
      PrintSnoc(parts[1..], p);
    }
  }

  /** An optional token without a value leaves nothing behind. */
  lemma {:induction false} OptionalVanishes(before: seq<Part>, p: Part, after: seq<Part>, values: Values)
    requires p.Token? && (p.name !in values || values[p.name] == "")
    ensures Images(before + [p] + after, values) == Images(before + after, values)
  {
    if after == [] {
      assert before + [p] + after == before + [p] && before + after == before;
      assert (before + [p])[..|before|] == before;
    } else {
      var n := |after| - 1;
      OptionalVanishes(before, p, after[..n], values);
      var a, b := before + [p] + after, before + after;
      assert a[..|a| - 1] == before + [p] + after[..n] && b[..|b| - 1] == before + after[..n];
    }
  }

  // ----- Extracted names

  function TokenNames(parts: seq<Part>, optional: bool): seq<string> {
    if parts == [] then []
    else
      var p := parts[|parts| - 1];
      TokenNames(parts[..|parts| - 1], optional) + if p.Token? && p.optional == optional then [p.name] else []
  }

  lemma {:induction false} TokenNamesMember(parts: seq<Part>, optional: bool, name: string)
    ensures name in TokenNames(parts, optional) <==> exists i :: 0 <= i < |parts| && parts[i] == Token(name, optional)
  {
    if parts != [] {
      var n := |parts| - 1;
      TokenNamesMember(parts[..n], optional, name);
      if i :| 0 <= i < |parts| && parts[i] == Token(name, optional) {
        if i < n { assert parts[..n][i] == Token(name, optional); }
      }
      if name in TokenNames(parts[..n], optional) {
        var i :| 0 <= i < n && parts[..n][i] == Token(name, optional);
        assert parts[i] == Token(name, optional);
      }
    }
  }

  /** The required names `ExtractTokens` returns: sorted, without repetition. */
  function RequiredNames(parts: seq<Part>): seq<string> {
    Strings.Canonical(TokenNames(parts, false))
  }

  function OptionalNames(parts: seq<Part>): seq<string> {
    Strings.Canonical(TokenNames(parts, true))
  }

  /** `setToSortedSlice`: the keys in arbitrary order, then `sort.Strings`. */
  method SetToSortedSlice(names: set<string>) returns (out: seq<string>)
    ensures StrictlySorted(Strings.Less, out) && Elements(out) == names
  {
    hide Strings.Less;
    out := [];
    var rest := names;
    while rest != {}
      invariant Distinct(out) && rest <= names
      invariant forall x :: x in out <==> x in names && x !in rest
      decreases |rest|
    {
      var name :| name in rest;
      out, rest := out + [name], rest - {name};
    }
    Strings.LessIsStrictOrder();
    SortDistinct(Strings.Less, out);
    assert Elements(out) == names;
    out := Sort(Strings.Less, out);
  }

  /** `ExtractTokens`: the required and the optional names, each sorted and without repetition. */
  method ExtractTokens(template: string) returns (r: Option<(seq<string>, seq<string>)>)
    ensures match Parse(template)
            case None => r == None
            case Some(parts) =>
              && r == Some((RequiredNames(parts), OptionalNames(parts)))
              && StrictlySorted(Strings.Less, r.value.0) && StrictlySorted(Strings.Less, r.value.1)
              && forall x ::
                   (x in r.value.0 <==> Token(x, false) in parts) && (x in r.value.1 <==> Token(x, true) in parts)
  {
    hide Parse, WellFormed, Strings.Canonical, Strings.Less;
    var parsed := ParseTemplate(template);
    if parsed.None? { return None; }
    var parts := parsed.value;
    var reqSet: set<string>, optSet: set<string> := {}, {};
    for i := 0 to |parts|
      invariant reqSet == Elements(TokenNames(parts[..i], false))
      invariant optSet == Elements(TokenNames(parts[..i], true))
    {
      assert parts[..i + 1][..i] == parts[..i];
      if parts[i].Token? {
        if parts[i].optional {
          optSet := optSet + {parts[i].name};
        } else {
          reqSet := reqSet + {parts[i].name};
        }
      }
    }
    assert parts[..|parts|] == parts;
    ParseIsWellFormed(template);
    NamesAreCanonical(parts, false);
    NamesAreCanonical(parts, true);
    var required := SetToSortedSlice(reqSet);
    var optional := SetToSortedSlice(optSet);
    Strings.LessIsStrictOrder();
    StrictlySortedUnique(Strings.Less, required, RequiredNames(parts));
    StrictlySortedUnique(Strings.Less, optional, OptionalNames(parts));
    r := Some((required, optional));
    forall x ensures (x in required <==> Token(x, false) in parts) && (x in optional <==> Token(x, true) in parts) {
      TokenNamesMember(parts, false, x);
      TokenNamesMember(parts, true, x);
      assert x in required <==> x in Elements(required);
      assert x in optional <==> x in Elements(optional);
    }
  }

  lemma NamesAreCanonical(parts: seq<Part>, optional: bool)
    requires WellFormed(parts)
    ensures var names := TokenNames(parts, optional);
            && StrictlySorted(Strings.Less, Strings.Canonical(names))
            && Elements(Strings.Canonical(names)) == Elements(names)
  {
    hide Strings.Canonical, Strings.Less, TokenNames, GoodNeighbours;
    var names := TokenNames(parts, optional);
    Strings.CanonicalSpec(names);
    TokenNamesMember(parts, optional, "");
    forall i | 0 <= i < |parts| ensures parts[i] != Token("", optional) { assert GoodPart(parts[i]); }
    assert Elements(names) - {""} == Elements(names);
  }

  /** Expansion succeeds exactly when every extracted required name has a non-empty value. */
  lemma RequiredNamesSuffice(parts: seq<Part>, values: Values)
    requires WellFormed(parts)
    ensures (forall i :: 0 <= i < |parts| ==> !Lacks(parts[i], values))
      <==> forall k :: 0 <= k < |RequiredNames(parts)| ==>
             RequiredNames(parts)[k] in values && values[RequiredNames(parts)[k]] != ""
    ensures StrictlySorted(Strings.Less, RequiredNames(parts))
  {
    hide Strings.Canonical, GoodNeighbours;
    var names := RequiredNames(parts);
    Strings.CanonicalSpec(TokenNames(parts, false));
    if forall i :: 0 <= i < |parts| ==> !Lacks(parts[i], values) {
      forall k | 0 <= k < |names| ensures names[k] in values && values[names[k]] != "" {
        assert names[k] in names;
        TokenNamesMember(parts, false, names[k]);
        var i :| 0 <= i < |parts| && parts[i] == Token(names[k], false);
        assert !Lacks(parts[i], values);
      }
    }
    if forall k :: 0 <= k < |names| ==> names[k] in values && values[names[k]] != "" {
      forall i | 0 <= i < |parts| ensures !Lacks(parts[i], values) {
        if parts[i].Token? && !parts[i].optional {
          TokenNamesMember(parts, false, parts[i].name);
          assert GoodPart(parts[i]);
          assert parts[i].name in names;
        }
      }
    }
  }
}
