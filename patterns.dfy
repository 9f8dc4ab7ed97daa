/** The fixed regular expressions the runtime and the grammar parser hand to `re.match`,
    each as an anchored scanner. `Scan(p, s)` is the length of the match Python's
    backtracking engine finds at the start of `s`, or None; `Matches(p, m)` says
    declaratively which texts the pattern describes. */
module Patterns {
  import opened Wrappers
  import opened Text

  datatype Pattern =
    | Whitespace      // [ \t\n]*                   Spaces
    | Identifier      // [a-zA-Z_][a-zA-Z0-9_]*     Id
    | NoBraces        // [^{}]*                     PyStr
    | Quoted          // "([^"]*)"                  ParseString
    | Slashed         // /([^/]*)/                  Regex, top-level grammar
    | EscapedSlashed  // /(\\/|[^/])*/              Regex, package grammar
    | Integer         // -?[0-9]+                   ParseInt
    | Everything      // (\n|[^\n])*                PySuffix

  /** The pattern as written in the source, which `ParseRE` quotes in its error message. */
  function Source(p: Pattern): string {
    match p
    case Whitespace => "[ \\t\\n]*"
    case Identifier => "[a-zA-Z_][a-zA-Z0-9_]*"
    case NoBraces => "[^{}]*"
    case Quoted => "\"([^\"]*)\""
    case Slashed => "/([^/]*)/"
    case EscapedSlashed => "/(\\\\/|[^/])*/"
    case Integer => "-?[0-9]+"
    case Everything => "(\\n|[^\\n])*"
  }

  predicate IsSpace(c: char) { c == ' ' || c == '\t' || c == '\n' }
  predicate IsIdStart(c: char) { 'a' <= c <= 'z' || 'A' <= c <= 'Z' || c == '_' }
  predicate IsIdChar(c: char) { IsIdStart(c) || IsDigit(c) }

  datatype CharClass = Space | IdChar | NotBrace | NotQuote | NotSlash | Digit

  predicate InClass(c: char, k: CharClass) {
    match k
    case Space => IsSpace(c)
    case IdChar => IsIdChar(c)
    case NotBrace => c != '{' && c != '}'
    case NotQuote => c != '"'
    case NotSlash => c != '/'
    case Digit => IsDigit(c)
  }

  /** The longest prefix of `s` whose characters all lie in class `k` (a greedy `[...]*`). */
  function Span(s: string, k: CharClass): (n: nat)
    ensures n <= |s|
    ensures forall i :: 0 <= i < n ==> InClass(s[i], k)
    ensures n < |s| ==> !InClass(s[n], k)
  {
    if s == [] || !InClass(s[0], k) then 0 else 1 + Span(s[1..], k)
  }

  /** A run of class-`k` characters followed by one outside the class is exactly what Span
      measures. */
  lemma {:induction false} SpanExact(x: string, u: string, k: CharClass)
    requires forall i :: 0 <= i < |x| ==> InClass(x[i], k)
    requires u == "" || !InClass(u[0], k)
    ensures Span(x + u, k) == |x|
  {
    if x != [] {
      assert (x + u)[1..] == x[1..] + u;
      SpanExact(x[1..], u, k);
    } else {
      assert x + u == u;
    }
  }

  /** The body language of `(\\/|[^/])*`: escaped slashes and non-slash characters. */
  predicate InEscBody(t: string)
    decreases |t|
  {
    || t == []
    || (|t| >= 2 && t[0] == '\\' && t[1] == '/' && InEscBody(t[2..]))
    || (t[0] != '/' && InEscBody(t[1..]))
  }

  /** Where the package grammar's Regex pattern ends its match when started at `i`: the index of the closing slash.
      The cases follow the backtracking order: take `\/` as one item first, and when the rest
      fails, take the backslash alone so that its slash closes the match. */
  function EscClose(s: string, i: nat): (r: Option<nat>)
    decreases |s| - i
    ensures r.Some? ==> i <= r.value < |s| && s[r.value] == '/' && InEscBody(s[i..r.value])
  {
    if i >= |s| then None
    else if s[i] == '/' then Some(i)
    else if s[i] == '\\' && i + 1 < |s| && s[i + 1] == '/' then
      match EscClose(s, i + 2)
      case Some(q) =>
        assert s[i..q] == ['\\', '/'] + s[i + 2..q];
        Some(q)
      case None =>
        assert InEscBody(s[i..i + 1][1..]);
        Some(i + 1)
    else
      var r := EscClose(s, i + 1);
      if r.Some? then assert s[i..r.value] == [s[i]] + s[i + 1..r.value]; r else r
  }

  /** Which texts each pattern describes. */
  predicate Matches(p: Pattern, m: string) {
    match p
    case Whitespace => forall i :: 0 <= i < |m| ==> IsSpace(m[i])
    case Identifier => |m| >= 1 && IsIdStart(m[0]) && forall i :: 1 <= i < |m| ==> IsIdChar(m[i])
    case NoBraces => forall i :: 0 <= i < |m| ==> m[i] != '{' && m[i] != '}'
    case Quoted =>
      |m| >= 2 && m[0] == '"' && m[|m| - 1] == '"' && forall i :: 1 <= i < |m| - 1 ==> m[i] != '"'
    case Slashed =>
      |m| >= 2 && m[0] == '/' && m[|m| - 1] == '/' && forall i :: 1 <= i < |m| - 1 ==> m[i] != '/'
    case EscapedSlashed =>
      |m| >= 2 && m[0] == '/' && m[|m| - 1] == '/' && InEscBody(m[1..|m| - 1])
    case Integer =>
      var b := if |m| > 0 && m[0] == '-' then 1 else 0;
      |m| > b && AllDigits(m[b..])
    case Everything => true
  }

  /** `re.match(p, s)`: the length of the match at the start of `s`, if any. */
  function Scan(p: Pattern, s: string): (r: Option<nat>)
    ensures r.Some? ==> r.value <= |s| && Matches(p, s[..r.value])
  {
    match p
    case Whitespace => Some(Span(s, Space))
    case Identifier => ScanIdentifier(s)
    case NoBraces => Some(Span(s, NotBrace))
    case Quoted => ScanQuoted(s)
    case Slashed => ScanSlashed(s)
    case EscapedSlashed => ScanEscapedSlashed(s)
    case Integer => ScanInteger(s)
    case Everything =>
      assert s[..|s|] == s;
      Some(|s|)
  }

  /** `[a-zA-Z_][a-zA-Z0-9_]*`: a start character, then the longest run of identifier characters. */
  function ScanIdentifier(s: string): (r: Option<nat>)
    ensures r.Some? ==> r.value <= |s| && Matches(Identifier, s[..r.value])
  {
    if |s| > 0 && IsIdStart(s[0]) then
      var n := Span(s[1..], IdChar);
      assert forall i :: 1 <= i < n + 1 ==> s[i] == s[1..][i - 1];
      Some(1 + n)
    else None
  }

  /** `"([^"]*)"`: a quote, the longest run of non-quotes, and the closing quote. */
  function ScanQuoted(s: string): (r: Option<nat>)
    ensures r.Some? ==> r.value <= |s| && Matches(Quoted, s[..r.value])
  {
    if |s| > 0 && s[0] == '"' then
      var n := Span(s[1..], NotQuote);
      if n + 1 < |s| then
        assert forall i :: 1 <= i < n + 1 ==> s[i] == s[1..][i - 1];
        Some(n + 2)
      else None
    else None
  }

  /** `/([^/]*)/`: a slash, the longest run of non-slashes, and the closing slash. */
  function ScanSlashed(s: string): (r: Option<nat>)
    ensures r.Some? ==> r.value <= |s| && Matches(Slashed, s[..r.value])
  {
    if |s| > 0 && s[0] == '/' then
      var n := Span(s[1..], NotSlash);
      if n + 1 < |s| then
        assert forall i :: 1 <= i < n + 1 ==> s[i] == s[1..][i - 1];
        Some(n + 2)
      else None
    else None
  }

  // `/(\\/|[^/])*/`: a slash, then the body up to the closing slash backtracking settles on.
  function ScanEscapedSlashed(s: string): (r: Option<nat>)
    ensures r.Some? ==> r.value <= |s| && Matches(EscapedSlashed, s[..r.value])
  {
    if |s| > 0 && s[0] == '/' then
      match EscClose(s, 1)
      case Some(q) =>
        assert s[..q + 1][1..q] == s[1..q];
        Some(q + 1)
      case None => None
    else None
  }

  /** `-?[0-9]+`: an optional minus sign and the longest run of digits, at least one. */
  function ScanInteger(s: string): (r: Option<nat>)
    ensures r.Some? ==> r.value <= |s| && Matches(Integer, s[..r.value])
  {
    var b := if |s| > 0 && s[0] == '-' then 1 else 0;
    var n := Span(s[b..], Digit);
    if n > 0 then
      assert s[..b + n][b..] == s[b..][..n];
      Some(b + n)
    else None
  }

  /** The text `ParseRE` reports as parsed for a match `m`: capture group 1 for `"..."` and
      `/.../`, the `slice(1, -1)` the package grammar's Regex declares, and the whole match
      otherwise. */
  function Capture(p: Pattern, m: string): string {
    if p == Quoted || p == Slashed || p == EscapedSlashed then
      (if |m| >= 2 then m[1..|m| - 1] else [])
    else m
  }

  /** `match.group(1)` of a PySuffix match `(\n|[^\n])*` as written: the group sits under
      `*`, so Python keeps only its last repetition, one character, and None when the match is
      empty. */
  function SuffixGroupAsWritten(m: string): (r: Option<string>)
    ensures r.Some? <==> m != []
    ensures r.Some? ==> |r.value| == 1 && r.value[0] == m[|m| - 1]
  {
    if m == [] then None else Some([m[|m| - 1]])
  }

  /** `match.group(1)` of a package Regex match, the group `(\\/|[^/])` repeated between two
      slashes, as written: the last item of the body, an escaped slash when the body ends with
      one, else its last character; None for `//`. A slash in a body always follows a
      backslash. */
  function RegexGroupAsWritten(m: string): (r: Option<string>)
    requires Matches(EscapedSlashed, m)
    ensures r.Some? <==> |m| > 2
    ensures r.Some? ==> 1 <= |r.value| <= 2 && r.value[|r.value| - 1] == m[|m| - 2]
  {
    var body := m[1..|m| - 1];
    if body == [] then None
    else if body[|body| - 1] == '/' && |body| >= 2 then Some(body[|body| - 2..])
    else Some([body[|body| - 1]])
  }

  /** Kept as written, group 1 of PySuffix loses all but the last character of every suffix
      longer than one character, where the whole text is meant. */
  lemma SuffixGroupLoses(m: string)
    requires |m| >= 2
    ensures SuffixGroupAsWritten(m) != Some(Capture(Everything, m))
  {
  }

  /** Kept as written, the package Regex would report `b` for `/ab/`, whose body is `ab`. */
  lemma RegexGroupLoses()
    ensures Matches(EscapedSlashed, "/ab/")
    ensures RegexGroupAsWritten("/ab/") == Some("b") && Capture(EscapedSlashed, "/ab/") == "ab"
  {
    var m := "/ab/";
    assert m[1..|m| - 1] == "ab";
    assert InEscBody("b"[1..]);
    assert InEscBody("ab"[1..]);
  }

  /** A regex token's match is its reported body between two slashes. */
  lemma FramedMatch(p: Pattern, m: string)
    requires (p == Slashed || p == EscapedSlashed) && Matches(p, m)
    ensures m == "/" + Capture(p, m) + "/"
  {
    assert m == [m[0]] + m[1..|m| - 1] + [m[|m| - 1]];
  }

  /** Patterns without a capture group report the whole match. */
  predicate WholeMatch(p: Pattern) {
    !(p == Quoted || p == Slashed || p == EscapedSlashed)
  }

  /** Every pattern but `Whitespace`, `NoBraces` and `Everything` needs at least one character. */
  predicate NonEmptyMatch(p: Pattern) {
    p == Identifier || p == Quoted || p == Slashed || p == EscapedSlashed || p == Integer
  }

  lemma ScanNonEmpty(p: Pattern, s: string)
    requires NonEmptyMatch(p) && Scan(p, s).Some?
    ensures Scan(p, s).value > 0
  {
  }

  // ---- EscClose finds the last closing slash a body can reach --------------------------

  lemma {:induction false} EscCloseIsLast(s: string, i: nat, j: nat)
    requires i <= j < |s| && s[j] == '/' && InEscBody(s[i..j])
    ensures EscClose(s, i).Some? && j <= EscClose(s, i).value
    decreases |s| - i
  {
    if s[i] == '/' {
      assert i == j;
    } else if s[i] == '\\' && i + 1 < |s| && s[i + 1] == '/' {
      var t := s[i..j];
      if j >= i + 2 && InEscBody(t[2..]) {
        assert t[2..] == s[i + 2..j];
        EscCloseIsLast(s, i + 2, j);
      } else {
        assert t[1..] == s[i + 1..j];
        assert j == i + 1;
      }
    } else {
      var t := s[i..j];
      assert t[1..] == s[i + 1..j];
      EscCloseIsLast(s, i + 1, j);
    }
  }

  // ---- The match found is the longest prefix the pattern describes ----------------------

  /** Spaces, identifiers, brace-free text, integers and the suffix match greedily: no longer
      prefix is described by the pattern. */
  lemma ScanGreedy(p: Pattern, s: string, j: nat)
    requires Scan(p, s).Some? && Scan(p, s).value < j <= |s|
    ensures !Matches(p, s[..j])
  {
    var k := Scan(p, s).value;
    var m := s[..j];
    match p
    case Whitespace => assert !IsSpace(m[k]);
    case Identifier => IdentifierGreedy(s, j);
    case NoBraces => assert !(m[k] != '{' && m[k] != '}');
    case Quoted => assert m[k - 1] == '"';
    case Slashed => assert m[k - 1] == '/';
    case EscapedSlashed =>
      if Matches(p, m) {
        assert m[1..j - 1] == s[1..j - 1];
        EscCloseIsLast(s, 1, j - 1);
      }
    case Integer => IntegerGreedy(s, j);
    case Everything =>
  }

  /** When the scanner finds nothing, no prefix of the input is described by the pattern. */
  lemma ScanComplete(p: Pattern, s: string, j: nat)
    requires Scan(p, s).None? && j <= |s|
    ensures !Matches(p, s[..j])
  {
    var m := s[..j];
    match p
    case Identifier =>
    case Quoted =>
    case Slashed =>
    case EscapedSlashed =>
      if Matches(p, m) {
        assert m[1..j - 1] == s[1..j - 1];
        EscCloseIsLast(s, 1, j - 1);
      }
    case Integer => IntegerComplete(s, j);
    case Whitespace =>
    case NoBraces =>
    case Everything =>
  }

  lemma IdentifierGreedy(s: string, j: nat)
    requires ScanIdentifier(s).Some? && ScanIdentifier(s).value < j <= |s|
    ensures !Matches(Identifier, s[..j])
  {
    var k := ScanIdentifier(s).value;
    var n := Span(s[1..], IdChar);
    assert k == 1 + n && n < |s[1..]|;
    assert s[1..][n] == s[..j][k];
  }

  lemma IntegerGreedy(s: string, j: nat)
    requires ScanInteger(s).Some? && ScanInteger(s).value < j <= |s|
    ensures !Matches(Integer, s[..j])
  {
    var m := s[..j];
    var b := if |s| > 0 && s[0] == '-' then 1 else 0;
    var n := Span(s[b..], Digit);
    assert ScanInteger(s).value == b + n && n < |s[b..]|;
    assert s[b..][n] == m[b + n];
    assert m[b..][n] == m[b + n];
  }

  lemma IntegerComplete(s: string, j: nat)
    requires ScanInteger(s).None? && j <= |s|
    ensures !Matches(Integer, s[..j])
  {
    var m := s[..j];
    var b := if |s| > 0 && s[0] == '-' then 1 else 0;
    var c := if |m| > 0 && m[0] == '-' then 1 else 0;
    assert Span(s[b..], Digit) == 0;
    assert j > 0 ==> m[0] == s[0] && c == b;
    assert j > b ==> m[b] == s[b..][0] && !IsDigit(s[b..][0]);
    assert |m| > c ==> m[c..][0] == m[c];
  }

  /** An escaped slash stays inside a package-grammar regex: `/a\/b/` is one token. */
  lemma EscapedSlashExample()
    ensures Scan(EscapedSlashed, "/a\\/b/ x") == Some(6)
    ensures Capture(EscapedSlashed, "/a\\/b/") == "a\\/b"
  {
    var s := "/a\\/b/ x";
    assert EscClose(s, 5) == Some(5);
    assert EscClose(s, 4) == Some(5);
    assert EscClose(s, 2) == Some(5);
    assert EscClose(s, 1) == Some(5);
  }

  /** With no slash after an escape, the backslash alone is the last body character. */
  lemma EscapedSlashBacktracks()
    ensures Scan(EscapedSlashed, "/a\\/") == Some(4)
  {
    var s := "/a\\/";
    assert EscClose(s, 4) == None;
    assert EscClose(s, 2) == Some(3);
    assert EscClose(s, 1) == Some(3);
  }
}
