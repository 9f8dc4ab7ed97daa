/** The parser-combinator runtime of pyrd.py. A parser object is a `Parser` value and
    `Run(p, s)` is what `p.parse(s)` returns; the two combinators that keep a list of
    sub-parsers and extend it in place, ParseAnd and ParseOr, are also classes whose
    `Parse` loops are proved to compute `Run`. */
module Pyrd {
  import opened Wrappers
  import opened Text
  import opened Patterns

  /** The objects that flow through `Parsed.result` in the runtime. */
  datatype Value =
    | Str(s: string)                     // the parsed text (the default result)
    | IntV(i: int)                       // ParseInt's int(...)
    | Ignored                            // PIgnore
    | Either(result: Value, index: nat)  // ParseObjectEither: the winner of a ParseOr and its index
    | Both(results: seq<Value>)          // ParseObjectBoth: the kept results of a ParseAnd

  /** Python truthiness of a result; ParseObjectBoth defines neither __bool__ nor __len__. */
  predicate Truthy(v: Value) {
    match v
    case Str(t) => t != ""
    case IntV(i) => i != 0
    case _ => true
  }

  datatype Parsed = Parsed(parsed: string, left: string, error: string, result: Value) {
    /** `__bool__` */
    predicate Ok() { error == "" }
  }

  /** The constructor `Parsed(parsed, left, error, result)`, which stores `result or parsed`. */
  function MkParsed(parsed: string, left: string, error: string, result: Option<Value>): (r: Parsed)
    ensures r.parsed == parsed && r.left == left && r.error == error
    ensures r.Ok() <==> error == ""
    ensures result.Some? && Truthy(result.value) ==> r.result == result.value
    ensures result.None? || !Truthy(result.value) ==> r.result == Str(parsed)
  {
    Parsed(parsed, left, error, if result.Some? && Truthy(result.value) then result.value else Str(parsed))
  }

  // ---- posIn ---------------------------------------------------------------------------

  datatype Position = Position(line: nat, column: nat)

  function Max(a: int, b: int): int { if a < b then b else a }

  /** The column `posIn` reports for the text before the stop: `len(consumed) -
      max(consumed.rfind('\n'), 0)`. */
  function Column(consumed: string): nat {
    |consumed| - Max(RFind(consumed, '\n'), 0)
  }

  /** After a newline the column is one more than the characters that follow it; on the first
      line, where `max(-1, 0)` is 0, it is the number of characters consumed, one less. */
  lemma ColumnMeaning(a: string, b: string)
    requires forall j :: 0 <= j < |b| ==> b[j] != '\n'
    ensures Column(a + "\n" + b) == |b| + 1
    ensures (forall j :: 0 <= j < |a| ==> a[j] != '\n') ==> Column(a) == |a|
  {
    RFindLast(a, b);
  }

  lemma {:induction false} RFindLast(a: string, b: string)
    requires forall j :: 0 <= j < |b| ==> b[j] != '\n'
    decreases |b|
    ensures RFind(a + "\n" + b, '\n') == |a|
  {
    var c := a + "\n" + b;
    if b != [] {
      var b' := b[..|b| - 1];
      assert c[|c| - 1] == b[|b| - 1];
      assert c[..|c| - 1] == a + "\n" + b';
      RFindLast(a, b');
    }
  }

  /** `posIn(string)` as written: None where it raises ValueError. It counts the newlines of
      `string[:len(left)]`, the first |left| characters of the input. */
  function PosIn(r: Parsed, base: string): (pos: Option<Position>)
    ensures pos.None? <==> !IsSuffix(r.left, base)
    ensures pos.Some? ==> pos.value.line == 1 + Count(base[..|r.left|], '\n')
  {
    if !IsSuffix(r.left, base) then None
    else
      var consumed := base[..|r.left|];
      Some(Position(Count(consumed, '\n') + 1, Column(consumed)))
  }

  /** `posIn` with the slice it evidently intends: the text consumed before `left`. */
  function PosInConsumed(r: Parsed, base: string): (pos: Option<Position>)
    ensures pos.None? <==> !IsSuffix(r.left, base)
  {
    if !IsSuffix(r.left, base) then None
    else
      var consumed := base[..|base| - |r.left|];
      Some(Position(Count(consumed, '\n') + 1, Column(consumed)))
  }

  /** The corrected position names the line on which parsing stopped: one more than the
      newlines in whatever text came before `left`. */
  lemma PosInConsumedLine(r: Parsed, before: string)
    ensures PosInConsumed(r, before + r.left).Some?
    ensures PosInConsumed(r, before + r.left).value.line == 1 + Count(before, '\n')
  {
    var base := before + r.left;
    assert base[|base| - |r.left|..] == r.left;
    assert base[..|base| - |r.left|] == before;
  }

  /** As written, a parse that stopped on line 3 of "a\nb\nc" is reported on line 1. */
  lemma PosInMiscountsLines()
    ensures PosIn(Parsed("", "c", "Expected x", Str("")), "a\nb\nc") == Some(Position(1, 1))
    ensures PosInConsumed(Parsed("", "c", "Expected x", Str("")), "a\nb\nc") == Some(Position(3, 1))
  {
    MiscountAsWritten();
    MiscountCorrected();
  }

  lemma MiscountAsWritten()
    ensures PosIn(Parsed("", "c", "Expected x", Str("")), "a\nb\nc") == Some(Position(1, 1))
  {
    var base := "a\nb\nc";
    assert base[|base| - 1..] == "c";
    assert IsSuffix("c", base);
    assert base[..1] == "a";
    assert RFind("a", '\n') == -1;
    assert Count("a", '\n') == 0;
  }

  lemma MiscountCorrected()
    ensures PosInConsumed(Parsed("", "c", "Expected x", Str("")), "a\nb\nc") == Some(Position(3, 1))
  {
    var base := "a\nb\nc";
    assert base[4..] == "c";
    assert base[..4] == "a\nb\n";
    assert RFind("a\nb\n", '\n') == 3;
    assert Count("a\nb\n", '\n') == 2;
  }

  // ---- Primitive parsers ----------------------------------------------------------------

  /** `Parser.parse`: parse nothing, successfully. */
  function ParseNothing(s: string): (r: Parsed)
    ensures r.Ok() && r.parsed == "" && r.left == s && r.result == Str("")
  {
    MkParsed("", s, "", None)
  }

  /** `ParseOne.parse`: the first character; "EOF" on empty input. */
  function ParseOne(s: string): (r: Parsed)
    ensures s == "" ==> !r.Ok() && r.error == "EOF" && r.parsed == "" && r.left == s
    ensures s != "" ==> r.Ok() && r.parsed == [s[0]] && r.parsed + r.left == s
  {
    if |s| == 0 then MkParsed("", "", "EOF", None)
    else MkParsed([s[0]], s[1..], "", None)
  }

  /** `ParseA(chars).parse`: the literal `chars` at the start of the input. */
  function ParseA(chars: string, s: string): (r: Parsed)
    ensures r.Ok() <==> chars <= s
    ensures r.Ok() ==> r.parsed == chars && r.parsed + r.left == s
    ensures !r.Ok() ==> r.parsed == "" && r.left == s && r.error == "Expected " + chars
  {
    if chars <= s then MkParsed(chars, s[|chars|..], "", None)
    else MkParsed("", s, "Expected " + chars, None)
  }

  /** The search loop of `ParseAny.parse`: the first option at index `k` or later that
      prefixes `s`. */
  function FirstPrefix(options: seq<string>, s: string, k: nat): (r: Option<nat>)
    decreases |options| - k
    ensures r.Some? ==> k <= r.value < |options| && options[r.value] <= s
    ensures r.Some? ==> forall j :: k <= j < r.value ==> !(options[j] <= s)
    ensures r.None? ==> forall j :: k <= j < |options| ==> !(options[j] <= s)
  {
    if k >= |options| then None
    else if options[k] <= s then Some(k)
    else FirstPrefix(options, s, k + 1)
  }

  /** How `"{}".format(a_list)` renders a list of strings: `str` of a list, which writes each
      element with `repr`. */
  function OptionsText(options: seq<string>): string {
    "[" + Join(", ", Reprs(options)) + "]"
  }

  function Reprs(options: seq<string>): (r: seq<string>)
    ensures |r| == |options|
    ensures forall j :: 0 <= j < |options| ==> r[j] == Repr(options[j])
  {
    if options == [] then [] else [Repr(options[0])] + Reprs(options[1..])
  }

  // ---- repr of a string ------------------------------------------------------------------

  /** The quote `repr` picks: double quotes when the text holds a single quote and no double
      quote, single quotes otherwise. */
  function ReprQuote(s: string): char {
    if '\'' in s && '"' !in s then '"' else '\''
  }

  function HexDigit(n: nat): char
    requires n < 16
  {
    if n < 10 then ('0' as int + n) as char else ('a' as int + n - 10) as char
  }

  /** How `repr` writes one character inside quotes `q`: the backslash and the quote in use are
      escaped, tab, newline and carriage return get their letter escapes, other control
      characters and DEL become `\xhh`, and everything else is kept. */
  function EscapeChar(c: char, q: char): string {
    if c == q || c == '\\' then ['\\', c]
    else if c == '\t' then "\\t"
    else if c == '\n' then "\\n"
    else if c == '\r' then "\\r"
    else if c < ' ' || c as int == 0x7f then ['\\', 'x', HexDigit(c as int / 16), HexDigit(c as int % 16)]
    else [c]
  }

  function EscapeBody(s: string, q: char): string {
    if s == [] then [] else EscapeChar(s[0], q) + EscapeBody(s[1..], q)
  }

  /** `repr(s)` for a string. */
  function Repr(s: string): string {
    [ReprQuote(s)] + EscapeBody(s, ReprQuote(s)) + [ReprQuote(s)]
  }

  predicate IsHex(c: char) { '0' <= c <= '9' || 'a' <= c <= 'f' }

  function HexValue(c: char): nat
    requires IsHex(c)
  {
    if c <= '9' then c as int - '0' as int else c as int - 'a' as int + 10
  }

  function Cons(c: char, rest: Option<string>): Option<string> {
    if rest.Some? then Some([c] + rest.value) else None
  }

  /** Reading the body of a Python string literal in quotes `q` back, for the escapes `repr`
      writes: None where the body is not such a literal's body. */
  function Unescape(t: string, q: char): Option<string>
    decreases |t|
  {
    if t == [] then Some([])
    else if t[0] == '\\' then
      if |t| < 2 then None
      else if t[1] == '\\' || t[1] == '\'' || t[1] == '"' then Cons(t[1], Unescape(t[2..], q))
      else if t[1] == 't' then Cons('\t', Unescape(t[2..], q))
      else if t[1] == 'n' then Cons('\n', Unescape(t[2..], q))
      else if t[1] == 'r' then Cons('\r', Unescape(t[2..], q))
      else if t[1] == 'x' && |t| >= 4 && IsHex(t[2]) && IsHex(t[3]) then
        Cons((HexValue(t[2]) * 16 + HexValue(t[3])) as char, Unescape(t[4..], q))
      else None
    else if t[0] == q then None
    else Cons(t[0], Unescape(t[1..], q))
  }

  /** One escaped character reads back as itself. */
  lemma UnescapeChar(c: char, q: char, u: string)
    requires q == '\'' || q == '"'
    ensures Unescape(EscapeChar(c, q) + u, q) == Cons(c, Unescape(u, q))
  {
    var e := EscapeChar(c, q);
    var t := e + u;
    if c == q || c == '\\' || c == '\t' || c == '\n' || c == '\r' {
      assert t[0] == '\\' && t[2..] == u;
    } else if c < ' ' || c as int == 0x7f {
      var hi := c as int / 16;
      var lo := c as int % 16;
      assert t[0] == '\\' && t[1] == 'x' && t[2] == HexDigit(hi) && t[3] == HexDigit(lo) && t[4..] == u;
      assert HexValue(HexDigit(hi)) == hi && HexValue(HexDigit(lo)) == lo;
      assert (hi * 16 + lo) as char == c;
    } else {
      assert t[0] == c && t[1..] == u;
    }
  }

  lemma {:induction false} UnescapeBody(s: string, q: char)
    requires q == '\'' || q == '"'
    ensures Unescape(EscapeBody(s, q), q) == Some(s)
  {
    if s != [] {
      UnescapeChar(s[0], q, EscapeBody(s[1..], q));
      UnescapeBody(s[1..], q);
      assert [s[0]] + s[1..] == s;
    }
  }

  /** `repr` is read back by Python's literal syntax: the text between its quotes decodes to
      the original string, so the error message names each option exactly. */
  lemma ReprRoundTrip(s: string)
    ensures var r := Repr(s);
            |r| >= 2 && r[0] == r[|r| - 1] == ReprQuote(s) && Unescape(r[1..|r| - 1], r[0]) == Some(s)
  {
    var q := ReprQuote(s);
    var r := Repr(s);
    assert r[1..|r| - 1] == EscapeBody(s, q);
    UnescapeBody(s, q);
  }

  /** Characters that `repr` writes as they are inside quotes `q`. */
  predicate Plain(c: char, q: char) {
    c != q && c != '\\' && ' ' <= c && c as int != 0x7f
  }

  lemma {:induction false} PlainBody(s: string, q: char)
    requires forall k :: 0 <= k < |s| ==> Plain(s[k], q)
    ensures EscapeBody(s, q) == s
  {
    if s != [] {
      PlainBody(s[1..], q);
      assert [s[0]] + s[1..] == s;
    }
  }

  /** An option holding a single quote is written in double quotes, as Python does. */
  lemma ReprQuoteExample()
    ensures OptionsText(["it's"]) == "[\"it's\"]"
  {
    var s := "it's";
    assert s[2] == '\'';
    assert s == ['i', 't', '\'', 's'];
    assert Plain(s[0], '"') && Plain(s[1], '"') && Plain(s[2], '"') && Plain(s[3], '"');
    DoubleQuoted(s);
    var r := Repr(s);
    assert Reprs([s]) == [r];
    assert Join(", ", [r]) == r;
  }

  /** Text with a single quote and nothing else to escape is written between double quotes. */
  lemma DoubleQuoted(s: string)
    requires '\'' in s && forall k :: 0 <= k < |s| ==> Plain(s[k], '"')
    ensures Repr(s) == "\"" + s + "\""
  {
    assert '"' !in s;
    PlainBody(s, '"');
  }

  /** Plain options are written in single quotes, separated by a comma and a space. */
  lemma ReprListExample()
    ensures OptionsText(["a", "b"]) == "['a', 'b']"
  {
    OneLetter('a');
    OneLetter('b');
    var ra := Repr("a");
    var rb := Repr("b");
    assert Reprs(["a", "b"]) == [ra, rb];
    assert Join(", ", [ra, rb]) == ra + ", " + rb;
  }

  lemma OneLetter(c: char)
    requires 'a' <= c <= 'z'
    ensures Repr([c]) == ['\'', c, '\'']
  {
    assert ReprQuote([c]) == '\'';
    PlainBody([c], '\'');
  }

  /** `ParseAny(options).parse`: the first listed option that prefixes the input. */
  function ParseAny(options: seq<string>, s: string): (r: Parsed)
    ensures r.Ok() <==> exists i :: 0 <= i < |options| && options[i] <= s
    ensures r.Ok() ==> exists i :: 0 <= i < |options| && options[i] <= s && r.parsed == options[i]
                                   && forall j :: 0 <= j < i ==> !(options[j] <= s)
    ensures r.Ok() ==> r.parsed + r.left == s
    ensures !r.Ok() ==> r.parsed == "" && r.left == s && r.error == "Expected one of " + OptionsText(options)
  {
    match FirstPrefix(options, s, 0)
    case Some(i) => MkParsed(options[i], s[|options[i]|..], "", None)
    case None => MkParsed("", s, "Expected one of " + OptionsText(options), None)
  }

  /** `ParseRE(pattern).parse`: an anchored match; `parsed` is the captured text and `left`
      follows the whole match. */
  function ParseRE(pat: Pattern, s: string): (r: Parsed)
    ensures r.Ok() <==> Scan(pat, s).Some?
    ensures r.Ok() ==> r.left == s[Scan(pat, s).value..] && r.parsed == Capture(pat, s[..Scan(pat, s).value])
    ensures r.Ok() && WholeMatch(pat) ==> r.parsed + r.left == s
    ensures !r.Ok() ==> r.parsed == "" && r.left == s && r.error == "Expected match of /" + Source(pat) + "/"
    ensures r.result == Str(r.parsed) && IsSuffix(r.left, s)
  {
    match Scan(pat, s)
    case Some(k) =>
      assert s[..k] + s[k..] == s;
      MkParsed(Capture(pat, s[..k]), s[k..], "", None)
    case None => MkParsed("", s, "Expected match of /" + Source(pat) + "/", None)
  }

  /** `ParseString()`: a double-quoted string; the quotes are not part of `parsed`. */
  function ParseString(): Parser { RE(Quoted) }

  /** ParseString reads a double-quoted text without inner quotes, reports what lies between
      the quotes and leaves what follows the closing quote; input not opening with a quote fails
      and is left as it was. */
  lemma ParseStringReads(x: string, rest: string)
    requires forall i :: 0 <= i < |x| ==> x[i] != '"'
    ensures var r := Run(ParseString(), "\"" + x + "\"" + rest);
            r.Ok() && r.parsed == x && r.left == rest && r.result == Str(x)
    ensures rest == [] || rest[0] != '"' ==> !Run(ParseString(), rest).Ok() && Run(ParseString(), rest).left == rest
  {
    var s := "\"" + x + "\"" + rest;
    QuotedScan(x, rest);
    assert s[..|x| + 2][1..|x| + 1] == x;
    assert s[|x| + 2..] == rest;
  }

  lemma QuotedScan(x: string, rest: string)
    requires forall i :: 0 <= i < |x| ==> x[i] != '"'
    ensures Scan(Quoted, "\"" + x + "\"" + rest) == Some(|x| + 2)
  {
    var s := "\"" + x + "\"" + rest;
    assert s[1..] == x + ("\"" + rest);
    SpanExact(x, "\"" + rest, NotQuote);
  }

  /** `int(text)` for a match of `-?[0-9]+`. */
  function IntValue(t: string): int
    requires Matches(Integer, t)
  {
    if t[0] == '-' then -(DigitsValue(t[1..]) as int) else DigitsValue(t)
  }

  /** `ParseInt.parse`: the match of `-?[0-9]+`, with its value as the result. */
  function ParseInt(s: string): (r: Parsed)
    ensures r.Ok() <==> Scan(Integer, s).Some?
    ensures r.Ok() ==> r.parsed + r.left == s && Matches(Integer, r.parsed) && r.result == IntV(IntValue(r.parsed))
    ensures !r.Ok() ==> r == ParseRE(Integer, s)
  {
    var r := ParseRE(Integer, s);
    if r.Ok() then r.(result := IntV(IntValue(r.parsed))) else r
  }

  /** `str(i)` for an int. */
  function IntToString(i: int): string {
    if i < 0 then "-" + NatToString(-i) else NatToString(i)
  }

  lemma {:induction false} SpanDigits(d: string, rest: string)
    requires AllDigits(d) && (rest == "" || !IsDigit(rest[0]))
    ensures Span(d + rest, Digit) == |d|
  {
    if d != [] {
      assert (d + rest)[1..] == d[1..] + rest;
      SpanDigits(d[1..], rest);
    }
  }

  lemma ScanIntString(i: int, rest: string)
    requires rest == "" || !IsDigit(rest[0])
    ensures Scan(Integer, IntToString(i) + rest) == Some(|IntToString(i)|)
  {
    var d := NatToString(if i < 0 then -i else i);
    var sign := if i < 0 then "-" else "";
    assert IntToString(i) == sign + d;
    ScanSignedDigits(sign, d, rest);
  }

  /** An optional minus sign and digits, followed by a non-digit or nothing, scan as one integer. */
  lemma ScanSignedDigits(sign: string, d: string, rest: string)
    requires sign == "" || sign == "-"
    requires d != "" && AllDigits(d) && (rest == "" || !IsDigit(rest[0]))
    ensures Scan(Integer, sign + d + rest) == Some(|sign| + |d|)
  {
    var s := sign + d + rest;
    var b := if |s| > 0 && s[0] == '-' then 1 else 0;
    assert b == |sign| by {
      if sign == "" {
        assert s[0] == d[0];
      } else {
        assert s[0] == '-';
      }
    }
    assert s[b..] == d + rest;
    SpanDigits(d, rest);
  }

  /** ParseInt reads back every integer `str` writes, and stops where the digits end. */
  lemma ParseIntRoundTrip(i: int, rest: string)
    requires rest == "" || !IsDigit(rest[0])
    ensures ParseInt(IntToString(i) + rest).Ok()
    ensures ParseInt(IntToString(i) + rest).result == IntV(i)
    ensures ParseInt(IntToString(i) + rest).left == rest
  {
    var t := IntToString(i);
    var s := t + rest;
    ScanIntString(i, rest);
    assert s[..|t|] == t && s[|t|..] == rest;
    var d := NatToString(if i < 0 then -i else i);
    DigitsRoundTrip(if i < 0 then -i else i);
    if i < 0 {
      assert t[1..] == d;
    } else {
      assert d[0] != '-';
    }
  }

  /** `Spaces().parse`: the longest leading run of spaces, tabs and newlines, ignored. */
  function ParseSpaces(s: string): (r: Parsed)
    ensures r.Ok() && r.parsed + r.left == s && r.result == Ignored
    ensures forall i :: 0 <= i < |r.parsed| ==> IsSpace(r.parsed[i])
    ensures r.left == "" || !IsSpace(r.left[0])
  {
    var r := ParseRE(Whitespace, s);
    var k := Scan(Whitespace, s).value;
    assert r.left == s[k..] && (k < |s| ==> r.left[0] == s[k]);
    r.(result := Ignored)
  }

  // ---- Parser objects and the interpreter ----------------------------------------------

  datatype Parser =
    | Nothing                       // Parser()
    | One                           // ParseOne()
    | A(chars: string)              // ParseA(chars)
    | AnyOf(options: seq<string>)   // ParseAny(options)
    | RE(pattern: Pattern)          // ParseRE(pattern), ParseString()
    | IntP                          // ParseInt()
    | Or(alts: seq<Parser>)         // ParseOr
    | And(parts: seq<Parser>)       // ParseAnd
    | Ignore(inner: Parser)         // Ignore(inner)
    | Spaces                        // Spaces()
    | SpacesAround(around: Parser)  // SpacesAround(around)

  /** A parser that consumes at least one character whenever it succeeds. */
  predicate Consuming(p: Parser) {
    match p
    case Nothing => false
    case One => true
    case A(chars) => chars != ""
    case AnyOf(options) => forall i :: 0 <= i < |options| ==> options[i] != ""
    case RE(pat) => NonEmptyMatch(pat)
    case IntP => true
    case Or(alts) => forall i :: 0 <= i < |alts| ==> Consuming(alts[i])
    case And(parts) => SomeConsuming(parts, 0)
    case Ignore(q) => Consuming(q)
    case Spaces => false
    case SpacesAround(q) => Consuming(q)
  }

  predicate SomeConsuming(parts: seq<Parser>, k: nat)
    decreases parts, |parts| - k
  {
    k < |parts| && (Consuming(parts[k]) || SomeConsuming(parts, k + 1))
  }

  /** ParseObjectBoth.append: PIgnore is dropped. */
  function Keep(results: seq<Value>, v: Value): seq<Value> {
    if v == Ignored then results else results + [v]
  }

  lemma KeepOne(v: Value)
    ensures Keep([], v) == if v == Ignored then [] else [v]
  {
    assert [] + [v] == [v];
  }

  /** `p.parse(s)`. */
  function Run(p: Parser, s: string): (r: Parsed)
    decreases p, 0
    ensures |r.left| <= |s|
  {
    match p
    case Nothing => ParseNothing(s)
    case One => ParseOne(s)
    case A(chars) => ParseA(chars, s)
    case AnyOf(options) => ParseAny(options, s)
    case RE(pat) => ParseRE(pat, s)
    case IntP => ParseInt(s)
    case Or(alts) => if alts == [] then MkParsed("", s, "no alternatives", None) else OrFrom(alts, 0, s)
    case And(parts) => AndFrom(parts, 0, s, [], [])
    case Ignore(q) => Run(q, s).(result := Ignored)
    case Spaces => ParseSpaces(s)
    case SpacesAround(q) => AroundRun(q, s)
  }

  /** `SpacesAround(p).parse(s)`: spaces, then p, then spaces, keeping p's result. */
  function AroundRun(q: Parser, s: string): (r: Parsed)
    decreases q, 2
    ensures |r.left| <= |s|
  {
    var a := ParseSpaces(s);
    var m := Run(q, a.left);
    if !m.Ok() then m
    else
      var b := ParseSpaces(m.left);
      MkParsed(Concat([a.parsed, m.parsed, b.parsed]), b.left, "", Some(Both(Keep([], m.result))))
  }

  /** The loop of `ParseOr.parse`, from alternative `k` on. */
  function OrFrom(alts: seq<Parser>, k: nat, s: string): (r: Parsed)
    requires k < |alts|
    decreases alts, 1, |alts| - k
    ensures |r.left| <= |s|
  {
    var r := Run(alts[k], s);
    if r.Ok() then r.(result := Either(r.result, k))
    else if k + 1 == |alts| then r
    else OrFrom(alts, k + 1, s)
  }

  /** The loop of `ParseAnd.parse` from sub-parser `k` on, with the texts and results
      collected so far. */
  function AndFrom(parts: seq<Parser>, k: nat, s: string, strings: seq<string>, results: seq<Value>): (r: Parsed)
    requires k <= |parts|
    decreases parts, 1, |parts| - k
    ensures |r.left| <= |s|
  {
    if k == |parts| then MkParsed(Concat(strings), s, "", Some(Both(results)))
    else
      var r := Run(parts[k], s);
      if !r.Ok() then r
      else
        AndFrom(parts, k + 1, r.left, strings + [r.parsed], Keep(results, r.result))
  }

  /** What a parser leaves is always the tail of what it was given. */
  lemma {:induction false} RunSuffix(p: Parser, s: string)
    decreases p, 0
    ensures IsSuffix(Run(p, s).left, s)
  {
    match p
    case Or(alts) => if alts != [] { OrFromSuffix(alts, 0, s); }
    case And(parts) => AndFromSuffix(parts, 0, s, [], []);
    case Ignore(q) => RunSuffix(q, s);
    case SpacesAround(q) =>
      var a := ParseSpaces(s);
      var m := Run(q, a.left);
      RunSuffix(q, a.left);
      assert IsSuffix(a.left, s);
      SuffixTrans(m.left, a.left, s);
      if m.Ok() {
        var b := ParseSpaces(m.left);
        assert IsSuffix(b.left, m.left);
        SuffixTrans(b.left, m.left, s);
      }
    case _ =>
  }

  lemma {:induction false} OrFromSuffix(alts: seq<Parser>, k: nat, s: string)
    requires k < |alts|
    decreases alts, 1, |alts| - k
    ensures IsSuffix(OrFrom(alts, k, s).left, s)
  {
    RunSuffix(alts[k], s);
    if !Run(alts[k], s).Ok() && k + 1 < |alts| {
      OrFromSuffix(alts, k + 1, s);
    }
  }

  lemma {:induction false} AndFromSuffix(parts: seq<Parser>, k: nat, s: string, strings: seq<string>, results: seq<Value>)
    requires k <= |parts|
    decreases parts, 1, |parts| - k
    ensures IsSuffix(AndFrom(parts, k, s, strings, results).left, s)
  {
    if k < |parts| {
      var r := Run(parts[k], s);
      RunSuffix(parts[k], s);
      if r.Ok() {
        AndFromSuffix(parts, k + 1, r.left, strings + [r.parsed], Keep(results, r.result));
        SuffixTrans(AndFrom(parts, k + 1, r.left, strings + [r.parsed], Keep(results, r.result)).left, r.left, s);
      }
    }
  }

  /** `posIn` never raises for a parser's own outcome on the same input. */
  lemma PosInDefined(p: Parser, s: string)
    ensures PosIn(Run(p, s), s).Some? && PosInConsumed(Run(p, s), s).Some?
  {
    RunSuffix(p, s);
  }

  /** A consuming parser that succeeds leaves strictly less than it was given; the grammar
      parser's recursion through its rules rests on this. */
  lemma {:induction false} RunConsumes(p: Parser, s: string)
    requires Consuming(p) && Run(p, s).Ok()
    decreases p, 0
    ensures |Run(p, s).left| < |s|
  {
    match p
    case One =>
    case A(chars) => assert ParseA(chars, s).parsed == chars;
    case AnyOf(options) =>
      var r := ParseAny(options, s);
      var i :| 0 <= i < |options| && r.parsed == options[i];
      assert |r.parsed| > 0;
    case RE(pat) => ScanNonEmpty(pat, s);
    case IntP => assert |ParseInt(s).parsed| > 0;
    case Or(alts) => OrFromConsumes(alts, 0, s);
    case And(parts) => AndFromConsumes(parts, 0, s, [], []);
    case Ignore(q) => RunConsumes(q, s);
    case SpacesAround(q) =>
      var a := ParseSpaces(s);
      RunConsumes(q, a.left);
  }

  lemma {:induction false} OrFromConsumes(alts: seq<Parser>, k: nat, s: string)
    requires k < |alts| && (forall i :: k <= i < |alts| ==> Consuming(alts[i])) && OrFrom(alts, k, s).Ok()
    decreases alts, 1, |alts| - k
    ensures |OrFrom(alts, k, s).left| < |s|
  {
    if Run(alts[k], s).Ok() {
      RunConsumes(alts[k], s);
    } else {
      OrFromConsumes(alts, k + 1, s);
    }
  }

  lemma {:induction false} AndFromConsumes(parts: seq<Parser>, k: nat, s: string, strings: seq<string>, results: seq<Value>)
    requires k <= |parts| && SomeConsuming(parts, k) && AndFrom(parts, k, s, strings, results).Ok()
    decreases parts, 1, |parts| - k
    ensures |AndFrom(parts, k, s, strings, results).left| < |s|
  {
    var r := Run(parts[k], s);
    var next := AndFrom(parts, k + 1, r.left, strings + [r.parsed], Keep(results, r.result));
    if Consuming(parts[k]) {
      RunConsumes(parts[k], s);
    } else {
      AndFromConsumes(parts, k + 1, r.left, strings + [r.parsed], Keep(results, r.result));
    }
  }

  // ---- What ParseAnd and ParseOr compute ------------------------------------------------

  /** The sub-parsers of a ParseAnd from index `k` on, each run on the previous one's `left`,
      up to and including the first that fails. */
  function Runs(parts: seq<Parser>, k: nat, s: string): (rs: seq<Parsed>)
    requires k <= |parts|
    decreases |parts| - k
    ensures |rs| <= |parts| - k && (k < |parts| ==> rs != [])
  {
    if k == |parts| then []
    else
      var r := Run(parts[k], s);
      if !r.Ok() then [r] else [r] + Runs(parts, k + 1, r.left)
  }

  function Parseds(rs: seq<Parsed>): seq<string> {
    if rs == [] then [] else [rs[0].parsed] + Parseds(rs[1..])
  }

  /** The results ParseObjectBoth keeps, in order. */
  function Kept(rs: seq<Parsed>): seq<Value> {
    if rs == [] then [] else (if rs[0].result == Ignored then [] else [rs[0].result]) + Kept(rs[1..])
  }

  predicate AllOk(rs: seq<Parsed>) { forall i :: 0 <= i < |rs| ==> rs[i].Ok() }

  /** Where the sequence stopped: the input when there was nothing to run. */
  function LastLeft(rs: seq<Parsed>, s: string): string {
    if rs == [] then s else rs[|rs| - 1].left
  }

  /** Runs stops at the first failure: every run but the last succeeded, and all of them did
      exactly when every sub-parser was run and the last one succeeded too. */
  lemma {:induction false} RunsShape(parts: seq<Parser>, k: nat, s: string)
    requires k <= |parts|
    decreases |parts| - k, 1
    ensures var rs := Runs(parts, k, s);
            && (forall i :: 0 <= i < |rs| - 1 ==> rs[i].Ok())
            && (AllOk(rs) <==> rs == [] || rs[|rs| - 1].Ok())
            && (AllOk(rs) ==> |rs| == |parts| - k)
  {
    if k < |parts| && Run(parts[k], s).Ok() {
      RunsShapePass(parts, k, s);
    }
  }

  /** RunsShape when the parser at `k` succeeds. */
  lemma {:induction false} RunsShapePass(parts: seq<Parser>, k: nat, s: string)
    requires k < |parts| && Run(parts[k], s).Ok()
    decreases |parts| - k, 0
    ensures var rs := Runs(parts, k, s);
            && (forall i :: 0 <= i < |rs| - 1 ==> rs[i].Ok())
            && (AllOk(rs) <==> rs == [] || rs[|rs| - 1].Ok())
            && (AllOk(rs) ==> |rs| == |parts| - k)
  {
    var r := Run(parts[k], s);
    RunsShape(parts, k + 1, r.left);
    var rest := Runs(parts, k + 1, r.left);
    var rs := [r] + rest;
    assert Runs(parts, k, s) == rs;
    assert forall i :: 1 <= i < |rs| ==> rs[i] == rest[i - 1];
  }

  /** One turn of the ParseAnd loop. */
  lemma AndFromStep(parts: seq<Parser>, k: nat, s: string, strings: seq<string>, results: seq<Value>)
    requires k < |parts|
    ensures var r := Run(parts[k], s);
            AndFrom(parts, k, s, strings, results)
            == if !r.Ok() then r else AndFrom(parts, k + 1, r.left, strings + [r.parsed], Keep(results, r.result))
  {
  }

  /** The ParseAnd loop after its last parser. */
  lemma AndFromEnd(parts: seq<Parser>, s: string, strings: seq<string>, results: seq<Value>)
    ensures AndFrom(parts, |parts|, s, strings, results) == MkParsed(Concat(strings), s, "", Some(Both(results)))
  {
  }

  /** The bookkeeping step of AndFromRuns, free of any parser: how the texts, the kept results,
      the rest and the last outcome of a run list extend by one successful run in front. */
  lemma RunsCons(r: Parsed, rest: seq<Parsed>, s: string, strings: seq<string>, results: seq<Value>)
    requires r.Ok()
    ensures var rs := [r] + rest;
            && strings + Parseds(rs) == strings + [r.parsed] + Parseds(rest)
            && results + Kept(rs) == Keep(results, r.result) + Kept(rest)
            && LastLeft(rs, s) == LastLeft(rest, r.left)
            && (rs[|rs| - 1].Ok() <==> rest == [] || rest[|rest| - 1].Ok())
            && (rest != [] ==> rs[|rs| - 1] == rest[|rest| - 1])
  {
    var rs := [r] + rest;
    assert rs[0] == r && rs[1..] == rest;
    assert Parseds(rs) == [r.parsed] + Parseds(rest);
    assert strings + ([r.parsed] + Parseds(rest)) == strings + [r.parsed] + Parseds(rest);
    var head := if r.result == Ignored then [] else [r.result];
    assert Kept(rs) == head + Kept(rest);
    assert results + (head + Kept(rest)) == (results + head) + Kept(rest);
    assert results + head == Keep(results, r.result);
  }

  lemma {:induction false} AndFromRuns(parts: seq<Parser>, k: nat, s: string, strings: seq<string>, results: seq<Value>)
    requires k <= |parts|
    decreases |parts| - k, 1
    ensures var rs := Runs(parts, k, s);
            var r := AndFrom(parts, k, s, strings, results);
            if rs == [] || rs[|rs| - 1].Ok()
            then r == MkParsed(Concat(strings + Parseds(rs)), LastLeft(rs, s), "", Some(Both(results + Kept(rs))))
            else r == rs[|rs| - 1]
  {
    if k < |parts| {
      if Run(parts[k], s).Ok() {
        AndFromRunsPass(parts, k, s, strings, results);
      } else {
        AndFromStep(parts, k, s, strings, results);
      }
    } else {
      AndFromEnd(parts, s, strings, results);
      assert strings + [] == strings && results + [] == results;
    }
  }

  /** AndFromRuns when the parser at `k` succeeds: the loop goes on from what it left. */
  lemma {:induction false} AndFromRunsPass(parts: seq<Parser>, k: nat, s: string, strings: seq<string>, results: seq<Value>)
    requires k < |parts| && Run(parts[k], s).Ok()
    decreases |parts| - k, 0
    ensures var rs := Runs(parts, k, s);
            var r := AndFrom(parts, k, s, strings, results);
            if rs == [] || rs[|rs| - 1].Ok()
            then r == MkParsed(Concat(strings + Parseds(rs)), LastLeft(rs, s), "", Some(Both(results + Kept(rs))))
            else r == rs[|rs| - 1]
  {
    var r := Run(parts[k], s);
    AndFromStep(parts, k, s, strings, results);
    var rest := Runs(parts, k + 1, r.left);
    assert Runs(parts, k, s) == [r] + rest;
    AndFromRuns(parts, k + 1, r.left, strings + [r.parsed], Keep(results, r.result));
    RunsCons(r, rest, s, strings, results);
  }

  /** ParseAnd succeeds iff every one of its parsers succeeds, each run on the previous one's
      `left`. */
  lemma AndSucceedsIff(parts: seq<Parser>, s: string)
    ensures Run(And(parts), s).Ok() <==> AllOk(Runs(parts, 0, s)) && |Runs(parts, 0, s)| == |parts|
  {
    AndFromRuns(parts, 0, s, [], []);
    RunsShape(parts, 0, s);
  }

  /** On success, ParseAnd's `parsed` is the concatenation of its parsers', its `left` the last
      one's and its result their results in order with PIgnore dropped. */
  lemma AndSuccess(parts: seq<Parser>, s: string)
    requires Run(And(parts), s).Ok()
    ensures var rs := Runs(parts, 0, s);
            var r := Run(And(parts), s);
            r.parsed == Concat(Parseds(rs)) && r.left == LastLeft(rs, s) && r.result == Both(Kept(rs))
  {
    AndFromRuns(parts, 0, s, [], []);
    var rs := Runs(parts, 0, s);
    assert [] + Parseds(rs) == Parseds(rs) && [] + Kept(rs) == Kept(rs);
  }

  /** On failure, ParseAnd hands back the first failing parser's outcome unchanged. */
  lemma AndFailure(parts: seq<Parser>, s: string)
    requires !Run(And(parts), s).Ok()
    ensures var rs := Runs(parts, 0, s);
            rs != [] && !rs[|rs| - 1].Ok() && Run(And(parts), s) == rs[|rs| - 1]
            && forall i :: 0 <= i < |rs| - 1 ==> rs[i].Ok()
  {
    AndFromRuns(parts, 0, s, [], []);
    RunsShape(parts, 0, s);
  }

  /** Two parsers in sequence: `a & b` succeeds iff `a` does and `b` does on what `a` left,
      and then consumes what both consumed; when `a` fails, its failure is the outcome. */
  lemma SequencingIdentity(a: Parser, b: Parser, s: string)
    ensures var ra := Run(a, s);
            Run(And([a, b]), s).Ok() <==> ra.Ok() && Run(b, ra.left).Ok()
    ensures var ra := Run(a, s);
            var r := Run(And([a, b]), s);
            r.Ok() ==> r.parsed == ra.parsed + Run(b, ra.left).parsed && r.left == Run(b, ra.left).left
    ensures !Run(a, s).Ok() ==> Run(And([a, b]), s) == Run(a, s)
  {
    var parts := [a, b];
    assert parts[0] == a && parts[1] == b;
    var ra := Run(a, s);
    if !ra.Ok() {
      AndFirstFails(parts, s);
    } else {
      AndFirstPasses(parts, s);
      AndSecondTurn(parts, ra.left, ra.parsed, Keep([], ra.result));
      ConcatPair(ra.parsed, Run(b, ra.left).parsed);
    }
  }

  /** A sequence whose first parser fails has that failure as its outcome. */
  lemma AndFirstFails(parts: seq<Parser>, s: string)
    requires parts != [] && !Run(parts[0], s).Ok()
    ensures Run(And(parts), s) == Run(parts[0], s)
  {
    AndFromStep(parts, 0, s, [], []);
  }

  /** After its first parser succeeds, a sequence goes on with the rest of its loop. */
  lemma AndFirstPasses(parts: seq<Parser>, s: string)
    requires parts != [] && Run(parts[0], s).Ok()
    ensures var ra := Run(parts[0], s);
            Run(And(parts), s) == AndFrom(parts, 1, ra.left, [ra.parsed], Keep([], ra.result))
  {
    var ra := Run(parts[0], s);
    AndFromStep(parts, 0, s, [], []);
    assert [] + [ra.parsed] == [ra.parsed];
  }

  /** The second and last turn of a two-parser loop: its failure, or the joined outcome. */
  lemma AndSecondTurn(parts: seq<Parser>, t: string, x: string, k1: seq<Value>)
    requires |parts| == 2
    ensures var rb := Run(parts[1], t);
            AndFrom(parts, 1, t, [x], k1)
            == if !rb.Ok() then rb
               else MkParsed(Concat([x, rb.parsed]), rb.left, "", Some(Both(Keep(k1, rb.result))))
  {
    var rb := Run(parts[1], t);
    AndFromStep(parts, 1, t, [x], k1);
    if rb.Ok() {
      assert [x] + [rb.parsed] == [x, rb.parsed];
      AndFromEnd(parts, rb.left, [x, rb.parsed], Keep(k1, rb.result));
    }
  }

  /** The ParseOr loop from `k` on succeeds iff one of the parsers from `k` on does. */
  lemma {:induction false} OrFromSucceeds(alts: seq<Parser>, k: nat, s: string)
    requires k < |alts|
    decreases |alts| - k
    ensures OrFrom(alts, k, s).Ok() <==> exists i :: k <= i < |alts| && Run(alts[i], s).Ok()
  {
    if !Run(alts[k], s).Ok() && k + 1 < |alts| {
      OrFromSucceeds(alts, k + 1, s);
    }
  }

  /** On success, the loop from `k` returns the first parser from `k` on that succeeds, with
      its result tagged by its index. */
  lemma {:induction false} OrFromWinner(alts: seq<Parser>, k: nat, s: string)
    requires k < |alts| && OrFrom(alts, k, s).Ok()
    decreases |alts| - k
    ensures var r := OrFrom(alts, k, s);
            && r.result.Either? && k <= r.result.index < |alts|
            && Run(alts[r.result.index], s).Ok()
            && r == Run(alts[r.result.index], s).(result := Either(Run(alts[r.result.index], s).result, r.result.index))
            && forall j :: k <= j < r.result.index ==> !Run(alts[j], s).Ok()
  {
    if !Run(alts[k], s).Ok() {
      assert k + 1 < |alts|;
      OrFromWinner(alts, k + 1, s);
    }
  }

  /** On failure, the loop from `k` returns the last parser's failure. */
  lemma {:induction false} OrFromLastFailure(alts: seq<Parser>, k: nat, s: string)
    requires k < |alts| && !OrFrom(alts, k, s).Ok()
    decreases |alts| - k
    ensures OrFrom(alts, k, s) == Run(alts[|alts| - 1], s)
  {
    if k + 1 < |alts| {
      OrFromLastFailure(alts, k + 1, s);
    }
  }

  /** ParseOr tries its parsers in order on the same input: the first success is returned with
      its result wrapped as (result, index); when all fail, the last failure is returned. */
  lemma OrSemantics(alts: seq<Parser>, s: string)
    requires alts != []
    ensures var r := Run(Or(alts), s);
            && (r.Ok() <==> exists i :: 0 <= i < |alts| && Run(alts[i], s).Ok())
            && (r.Ok() ==> r.result.Either? && r.result.index < |alts|
                           && r == Run(alts[r.result.index], s).(result := Either(Run(alts[r.result.index], s).result, r.result.index))
                           && forall j :: 0 <= j < r.result.index ==> !Run(alts[j], s).Ok())
            && (!r.Ok() ==> r == Run(alts[|alts| - 1], s))
  {
    assert Run(Or(alts), s) == OrFrom(alts, 0, s);
    OrFromSucceeds(alts, 0, s);
    if OrFrom(alts, 0, s).Ok() {
      OrFromWinner(alts, 0, s);
    } else {
      OrFromLastFailure(alts, 0, s);
    }
  }





  /** One step of the interpreter on SpacesAround. */
  lemma UnfoldSpacesAround(q: Parser, s: string)
    ensures var a := ParseSpaces(s);
            var m := Run(q, a.left);
            var b := ParseSpaces(m.left);
            Run(SpacesAround(q), s)
            == if !m.Ok() then m
               else MkParsed(Concat([a.parsed, m.parsed, b.parsed]), b.left, "", Some(Both(Keep([], m.result))))
  {
  }

  /** SpacesAround(p) is `Spaces() & p & Spaces()`. */
  lemma SpacesAroundIsAnd(q: Parser, s: string)
    ensures Run(SpacesAround(q), s) == Run(And([Spaces, q, Spaces]), s)
  {
    var parts := [Spaces, q, Spaces];
    assert parts[0] == Spaces && parts[1] == q && parts[2] == Spaces;
    var a := ParseSpaces(s);
    assert Run(parts[0], s) == a;
    AndFirstPasses(parts, s);
    assert Keep([], a.result) == [];
    UnfoldSpacesAround(q, s);
    if Run(q, a.left).Ok() {
      AroundStep(parts, a.left, a.parsed);
    } else {
      AroundStop(parts, a.left, a.parsed);
    }
  }

  /** `Spaces() & p & Spaces()` after the leading spaces, when p fails: p's outcome. */
  lemma AroundStop(parts: seq<Parser>, t: string, x: string)
    requires |parts| == 3 && !Run(parts[1], t).Ok()
    ensures AndFrom(parts, 1, t, [x], []) == Run(parts[1], t)
  {
    AndFromStep(parts, 1, t, [x], []);
  }

  /** `Spaces() & p & Spaces()` after the leading spaces, when p succeeds: the three texts
      joined, and p's result alone unless it is ignored. */
  lemma AroundStep(parts: seq<Parser>, t: string, x: string)
    requires |parts| == 3 && parts[2] == Spaces && Run(parts[1], t).Ok()
    ensures var m := Run(parts[1], t);
            var b := ParseSpaces(m.left);
            AndFrom(parts, 1, t, [x], [])
            == MkParsed(Concat([x, m.parsed, b.parsed]), b.left, "", Some(Both(Keep([], m.result))))
  {
    var m := Run(parts[1], t);
    var b := ParseSpaces(m.left);
    AndFromStep(parts, 1, t, [x], []);
    assert [x] + [m.parsed] == [x, m.parsed];
    AroundLast(parts, m.left, [x, m.parsed], Keep([], m.result));
    assert [x, m.parsed] + [b.parsed] == [x, m.parsed, b.parsed];
  }

  lemma AroundLast(parts: seq<Parser>, rest: string, strings: seq<string>, kept: seq<Value>)
    requires |parts| == 3 && parts[2] == Spaces
    ensures var b := ParseSpaces(rest);
            AndFrom(parts, 2, rest, strings, kept) == MkParsed(Concat(strings + [b.parsed]), b.left, "", Some(Both(kept)))
  {
    var b := ParseSpaces(rest);
    assert Run(Spaces, rest) == b;
    AndFromStep(parts, 2, rest, strings, kept);
    assert Keep(kept, b.result) == kept;
    AndFromEnd(parts, b.left, strings + [b.parsed], kept);
  }

  /** SpacesAround(p) fails exactly when p fails after the leading spaces, with p's outcome. */
  lemma SpacesAroundFailure(q: Parser, s: string)
    ensures var m := Run(q, ParseSpaces(s).left);
            Run(SpacesAround(q), s).Ok() <==> m.Ok()
    ensures var m := Run(q, ParseSpaces(s).left);
            !m.Ok() ==> Run(SpacesAround(q), s) == m
  {
    UnfoldSpacesAround(q, s);
  }

  /** On success the result list of SpacesAround(p) holds p's result alone, or nothing when p's
      result is ignored. */
  lemma SpacesAroundResult(q: Parser, s: string)
    requires Run(SpacesAround(q), s).Ok()
    ensures var m := Run(q, ParseSpaces(s).left);
            Run(SpacesAround(q), s).result == Both(if m.result == Ignored then [] else [m.result])
  {
    var m := Run(q, ParseSpaces(s).left);
    SpacesAroundFailure(q, s);
    SpacesAroundSuccess(q, s);
    KeepOne(m.result);
  }

  /** When p succeeds after the leading spaces, SpacesAround(p) reports p's kept result. */
  lemma SpacesAroundSuccess(q: Parser, s: string)
    requires Run(q, ParseSpaces(s).left).Ok()
    ensures Run(SpacesAround(q), s).result == Both(Keep([], Run(q, ParseSpaces(s).left).result))
  {
    var a := ParseSpaces(s);
    var m := Run(q, a.left);
    var b := ParseSpaces(m.left);
    UnfoldSpacesAround(q, s);
    var kept := Keep([], m.result);
    assert Truthy(Both(kept));
    assert Run(SpacesAround(q), s) == MkParsed(Concat([a.parsed, m.parsed, b.parsed]), b.left, "", Some(Both(kept)));
  }

  /** On success SpacesAround(p) consumes the spaces on both sides of p as well. */
  lemma SpacesAroundText(q: Parser, s: string)
    requires Run(SpacesAround(q), s).Ok()
    ensures var a := ParseSpaces(s);
            var m := Run(q, a.left);
            var r := Run(SpacesAround(q), s);
            r.parsed == a.parsed + m.parsed + ParseSpaces(m.left).parsed && r.left == ParseSpaces(m.left).left
  {
    UnfoldSpacesAround(q, s);
    var a := ParseSpaces(s);
    var m := Run(q, a.left);
    ConcatTriple(a.parsed, m.parsed, ParseSpaces(m.left).parsed);
  }

  // ---- `&` and `|` ----------------------------------------------------------------------

  /** `a & b`: a ParseAnd extends its own list; any other parser starts a new one. */
  function AndOp(a: Parser, b: Parser): Parser {
    if a.And? then And(a.parts + [b]) else And([a, b])
  }

  /** `a | b`: a ParseOr extends its own list; any other parser starts a new one. */
  function OrOp(a: Parser, b: Parser): Parser {
    if a.Or? then Or(a.alts + [b]) else Or([a, b])
  }

  /** `ps[0] & ps[1] & ... & ps[n-1]`, evaluated left to right. */
  function ChainAnd(ps: seq<Parser>): Parser
    requires ps != []
  {
    if |ps| == 1 then ps[0] else AndOp(ChainAnd(ps[..|ps| - 1]), ps[|ps| - 1])
  }

  /** `ps[0] | ps[1] | ... | ps[n-1]`, evaluated left to right. */
  function ChainOr(ps: seq<Parser>): Parser
    requires ps != []
  {
    if |ps| == 1 then ps[0] else OrOp(ChainOr(ps[..|ps| - 1]), ps[|ps| - 1])
  }

  /** A chain `a & b & c` is one n-ary ParseAnd, not a nest of binary ones. */
  lemma {:induction false} ChainAndFlat(ps: seq<Parser>)
    requires |ps| >= 2 && !ps[0].And?
    ensures ChainAnd(ps) == And(ps)
  {
    if |ps| > 2 {
      ChainAndFlat(ps[..|ps| - 1]);
      assert ps[..|ps| - 1] + [ps[|ps| - 1]] == ps;
    } else {
      assert ps[..1] == [ps[0]];
    }
  }

  /** A chain `a | b | c` is one n-ary ParseOr, not a nest of binary ones. */
  lemma {:induction false} ChainOrFlat(ps: seq<Parser>)
    requires |ps| >= 2 && !ps[0].Or?
    ensures ChainOr(ps) == Or(ps)
  {
    if |ps| > 2 {
      ChainOrFlat(ps[..|ps| - 1]);
      assert ps[..|ps| - 1] + [ps[|ps| - 1]] == ps;
    } else {
      assert ps[..1] == [ps[0]];
    }
  }

  /** Flattening shows in the result: `a & b & c` keeps three results side by side, where a
      ParseAnd nested inside another adds a level. */
  lemma FlatAndResults()
    ensures Run(ChainAnd([A("a"), A("b"), A("c")]), "abc").result == Both([Str("a"), Str("b"), Str("c")])
    ensures Run(And([And([A("a"), A("b")]), A("c")]), "abc").result == Both([Both([Str("a"), Str("b")]), Str("c")])
  {
    FlatThree();
    NestedThree();
  }

  lemma FlatThree()
    ensures Run(ChainAnd([A("a"), A("b"), A("c")]), "abc").result == Both([Str("a"), Str("b"), Str("c")])
  {
    var flat := [A("a"), A("b"), A("c")];
    ChainAndFlat(flat);
    AndFromStep(flat, 0, "abc", [], []);
    AndFromStep(flat, 1, "bc", [] + ["a"], [] + [Str("a")]);
    AndFromStep(flat, 2, "c", [] + ["a"] + ["b"], [] + [Str("a")] + [Str("b")]);
    AndFromEnd(flat, "", [] + ["a"] + ["b"] + ["c"], [] + [Str("a")] + [Str("b")] + [Str("c")]);
    assert [] + [Str("a")] + [Str("b")] + [Str("c")] == [Str("a"), Str("b"), Str("c")];
  }

  lemma NestedThree()
    ensures Run(And([And([A("a"), A("b")]), A("c")]), "abc").result == Both([Both([Str("a"), Str("b")]), Str("c")])
  {
    var ab := And([A("a"), A("b")]);
    InnerPair();
    var rab := Run(ab, "abc");
    LiteralStep("c", "");
    assert "c" + "" == "c";
    AndPairResult(ab, A("c"), "abc");
    KeepOne(rab.result);
    assert Keep([rab.result], Str("c")) == [rab.result, Str("c")];
  }

  lemma InnerPair()
    ensures var r := Run(And([A("a"), A("b")]), "abc");
            r.Ok() && r.left == "c" && r.result == Both([Str("a"), Str("b")])
  {
    LiteralStep("a", "bc");
    assert "a" + "bc" == "abc";
    LiteralStep("b", "c");
    AndPairResult(A("a"), A("b"), "abc");
    KeepOne(Str("a"));
    assert Keep([Str("a")], Str("b")) == [Str("a"), Str("b")];
  }

  /** A literal at the front of the input: it is consumed and its text is the result. */
  lemma LiteralStep(t: string, rest: string)
    ensures var r := Run(A(t), t + rest);
            r.Ok() && r.left == rest && r.result == Str(t)
  {
    assert (t + rest)[..|t|] == t && (t + rest)[|t|..] == rest;
  }

  /** `x & y` when both succeed in turn: the result list holds both kept results. */
  lemma AndPairResult(x: Parser, y: Parser, s: string)
    requires Run(x, s).Ok() && Run(y, Run(x, s).left).Ok()
    ensures var rx := Run(x, s);
            var ry := Run(y, rx.left);
            var r := Run(And([x, y]), s);
            r.Ok() && r.left == ry.left && r.result == Both(Keep(Keep([], rx.result), ry.result))
  {
    var parts := [x, y];
    assert parts[0] == x && parts[1] == y;
    var rx := Run(x, s);
    AndFirstPasses(parts, s);
    AndSecondTurn(parts, rx.left, rx.parsed, Keep([], rx.result));
  }

  // ---- The two combinator classes -------------------------------------------------------

  /** ParseAnd: `_parsers` is extended in place by `&`. */
  class ParseAnd {
    var parsers: seq<Parser>

    constructor (p1: Parser, p2: Parser)
      ensures parsers == [p1, p2]
    {
      parsers := [p1, p2];
    }

    /** `self & other`: append to this object's own list and return it. */
    method AndWith(other: Parser) returns (self: ParseAnd)
      modifies this
      ensures self == this && parsers == old(parsers) + [other]
      ensures And(parsers) == AndOp(And(old(parsers)), other)
    {
      parsers := parsers + [other];
      self := this;
    }

    /** `parse(string)`: the loop over `_parsers`. */
    method Parse(s: string) returns (r: Parsed)
      ensures r == Run(And(parsers), s)
    {
      var strings: seq<string> := [];
      var results: seq<Value> := [];
      var rest := s;
      var i := 0;
      while i < |parsers|
        invariant 0 <= i <= |parsers|
        invariant AndFrom(parsers, i, rest, strings, results) == Run(And(parsers), s)
      {
        var sub := Run(parsers[i], rest);
        if !sub.Ok() {
          return sub;
        }
        strings := strings + [sub.parsed];
        results := Keep(results, sub.result);
        rest := sub.left;
        i := i + 1;
      }
      r := MkParsed(Concat(strings), rest, "", Some(Both(results)));
    }
  }

  /** ParseOr: `_parsers` is extended in place by `|`. */
  class ParseOr {
    var parsers: seq<Parser>

    /** Built from two parsers and only ever extended. */
    ghost predicate Valid()
      reads this
    {
      |parsers| >= 2
    }

    constructor (p1: Parser, p2: Parser)
      ensures Valid() && parsers == [p1, p2]
    {
      parsers := [p1, p2];
    }

    /** `self | other`: append to this object's own list and return it. */
    method OrWith(other: Parser) returns (self: ParseOr)
      requires Valid()
      modifies this
      ensures Valid() && self == this && parsers == old(parsers) + [other]
      ensures Or(parsers) == OrOp(Or(old(parsers)), other)
    {
      parsers := parsers + [other];
      self := this;
    }

    /** `parse(string)`: the loop over `_parsers`. */
    method Parse(s: string) returns (r: Parsed)
      requires Valid()
      ensures r == Run(Or(parsers), s)
    {
      var parsed := Run(parsers[0], s);
      var i := 0;
      while i < |parsers|
        invariant 0 <= i <= |parsers|
        invariant i < |parsers| ==> OrFrom(parsers, i, s) == Run(Or(parsers), s)
        invariant i == |parsers| ==> parsed == Run(Or(parsers), s)
      {
        parsed := Run(parsers[i], s);
        if parsed.Ok() {
          return parsed.(result := Either(parsed.result, i));
        }
        i := i + 1;
      }
      r := parsed;
    }
  }
}
