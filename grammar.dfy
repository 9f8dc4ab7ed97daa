/** The hand-written recursive-descent parser for the pyrd grammar language: the rules the
    top-level and the package grammar files share (Rules, Rule, Sequences, Sequence, Function,
    PyLit, PyBrack, Lexers, Lexer). Each rule's `&`/`|` expression is unfolded into the steps the
    runtime takes: ParseOr tries its alternatives in order and reports the last failure,
    ParseAnd stops at its first failure and returns it unchanged. Tokens are runtime parsers
    run through `Pyrd.Run`. The two files differ only in the Regex token, which `Dialect`
    selects. */
module GrammarRules {
  import opened Wrappers
  import opened Text
  import opened Patterns
  import opened Pyrd
  import opened Ast

  /** Which grammar file's Regex token is in use. */
  datatype Dialect = TopLevel | Package

  // The Regex token: Slashed in the top-level file, EscapedSlashed in the package.
  function RegexPattern(d: Dialect): Pattern {
    match d
    case TopLevel => Slashed
    case Package => EscapedSlashed
  }

  /** What a grammar rule's `parse` returns: the runtime's Parsed, with the result replaced by a
      typed value on success. */
  datatype Reply<+T> =
    | Success(parsed: string, left: string, value: T)
    | Failure(parsed: string, left: string, error: string)

  /** A failed runtime parse, passed on unchanged. */
  function Lost<T>(p: Parsed): Reply<T> {
    Failure(p.parsed, p.left, p.error)
  }

  /** A failed rule, passed on unchanged by the rule that called it. */
  function Passed<T, U>(r: Reply<T>): Reply<U>
    requires r.Failure?
  {
    Failure(r.parsed, r.left, r.error)
  }

  // ---- Tokens ---------------------------------------------------------------------------

  /** `Delim(t)`: the literal t with the blank space around it, result ignored. */
  function Delim(t: string): Parser {
    Ignore(SpacesAround(A(t)))
  }

  /** `Id() | String() | Regex()` surrounded by blank space. */
  function LexerParser(d: Dialect): Parser {
    SpacesAround(Or([RE(Identifier), ParseString(), RE(RegexPattern(d))]))
  }

  /** The pattern of the token a lexer item of kind `k` was read with. */
  function TokenPattern(d: Dialect, k: TokenKind): Pattern {
    match k
    case IdRef => Identifier
    case StringLit => Quoted
    case RegexLit => RegexPattern(d)
  }

  /** `Delim(t)` succeeds exactly when t follows the blank space, and then also consumes the blank
      space after t; the result is ignored. */
  lemma DelimMeaning(t: string, s: string)
    ensures Run(Delim(t), s).Ok() <==> t <= ParseSpaces(s).left
    ensures var a := ParseSpaces(s).left;
            t <= a ==> Run(Delim(t), s).left == ParseSpaces(a[|t|..]).left
    ensures Run(Delim(t), s).result == Ignored
  {
    var a := ParseSpaces(s).left;
    var inner := Run(SpacesAround(A(t)), s);
    assert Run(Delim(t), s) == inner.(result := Ignored);
    var m := Run(A(t), a);
    assert m == ParseA(t, a);
    SpacesAroundFailure(A(t), s);
    if t <= a {
      SpacesAroundText(A(t), s);
      assert m.left == a[|t|..];
    }
  }

  lemma DelimShrinks(t: string, s: string)
    requires t != "" && Run(Delim(t), s).Ok()
    ensures |Run(Delim(t), s).left| < |s|
  {
    RunConsumes(Delim(t), s);
  }

  lemma LexerShrinks(d: Dialect, s: string)
    requires Run(LexerParser(d), s).Ok()
    ensures |Run(LexerParser(d), s).left| < |s|
  {
    var alts := [RE(Identifier), ParseString(), RE(RegexPattern(d))];
    assert NonEmptyMatch(RegexPattern(d));
    assert Consuming(alts[0]) && Consuming(alts[1]) && Consuming(alts[2]);
    assert Consuming(Or(alts));
    RunConsumes(LexerParser(d), s);
  }

  /** A successful choice among regex tokens is tagged with the winner's index and carries the
      text that token reported. */
  lemma OrOfTokens(alts: seq<Parser>, a: string)
    requires alts != [] && forall j :: 0 <= j < |alts| ==> alts[j].RE?
    requires Run(Or(alts), a).Ok()
    ensures var m := Run(Or(alts), a);
            m.result.Either? && m.result.index < |alts|
            && m.result == Either(Str(Run(alts[m.result.index], a).parsed), m.result.index)
  {
    OrSemantics(alts, a);
    var m := Run(Or(alts), a);
    var w := Run(alts[m.result.index], a);
    assert w.result == Str(w.parsed);
  }

  /** Around blank space, the same holds, wrapped in a one-element result list. */
  lemma SpacedTokens(alts: seq<Parser>, s: string)
    requires alts != [] && forall j :: 0 <= j < |alts| ==> alts[j].RE?
    requires Run(SpacesAround(Or(alts)), s).Ok()
    ensures Run(Or(alts), ParseSpaces(s).left).result.Either?
    ensures var a := ParseSpaces(s).left;
            var i := Run(Or(alts), a).result.index;
            i < |alts| && Run(SpacesAround(Or(alts)), s).result == Both([Either(Str(Run(alts[i], a).parsed), i)])
  {
    var a := ParseSpaces(s).left;
    SpacesAroundFailure(Or(alts), s);
    OrOfTokens(alts, a);
    SpacesAroundResult(Or(alts), s);
  }

  /** The result list of the lexer token holds one (result, index) pair whose result is the text
      the winning token reported. */
  lemma LexerShape(d: Dialect, s: string)
    requires Run(LexerParser(d), s).Ok()
    ensures Run(Or([RE(Identifier), ParseString(), RE(RegexPattern(d))]), ParseSpaces(s).left).result.Either?
    ensures var a := ParseSpaces(s).left;
            var alts := [RE(Identifier), ParseString(), RE(RegexPattern(d))];
            var i := Run(Or(alts), a).result.index;
            i < 3 && Run(LexerParser(d), s).result == Both([Either(Str(Run(alts[i], a).parsed), i)])
  {
    SpacedTokens([RE(Identifier), ParseString(), RE(RegexPattern(d))], s);
  }

  /** `LexResult(results[0])`: the kind and text of the winning token. */
  function LexOf(v: Value): LexResult
    requires v.Both? && |v.results| >= 1 && v.results[0].Either? && v.results[0].index < 3
    requires v.results[0].result.Str?
  {
    LexResult(KindOf(v.results[0].index), v.results[0].result.s)
  }

  // ---- Rules ----------------------------------------------------------------------------

  /** `Rule() & Delim(";") & Rules() | Rule() & Delim(";")`, the rules collected last first. */
  function Rules(d: Dialect, s: string): (r: Reply<seq<RuleResult>>)
    decreases |s|
    ensures |r.left| <= |s|
    ensures r.Success? ==> |r.left| < |s| && r.value != []
  {
    var rule := Rule(d, s);
    if rule.Failure? then Passed(rule)
    else
      var semi := Run(Delim(";"), rule.left);
      if !semi.Ok() then Lost(semi)
      else
        var rest := Rules(d, semi.left);
        if rest.Success? then Success(rule.parsed + semi.parsed + rest.parsed, rest.left, rest.value + [rule.value])
        else Success(rule.parsed + semi.parsed, semi.left, [rule.value])
  }

  /** `Id() & Delim("::") & Sequences()`, with the alternatives put back in order. */
  function Rule(d: Dialect, s: string): (r: Reply<RuleResult>)
    ensures |r.left| <= |s|
    ensures r.Success? ==> |r.left| < |s| && Matches(Identifier, r.value.id) && r.value.sequences != []
  {
    var id := Run(RE(Identifier), s);
    if !id.Ok() then Lost(id)
    else
      var colons := Run(Delim("::"), id.left);
      if !colons.Ok() then Lost(colons)
      else
        var seqs := Sequences(d, colons.left);
        if seqs.Failure? then Passed(seqs)
        else Success(id.parsed + colons.parsed + seqs.parsed, seqs.left, RuleResult(id.parsed, Reverse(seqs.value)))
  }

  /** `Sequence() & Delim('|') & Sequences() | Sequence()`, collected last first. */
  function Sequences(d: Dialect, s: string): (r: Reply<seq<SeqResult>>)
    decreases |s|
    ensures |r.left| <= |s|
    ensures r.Success? ==> |r.left| < |s| && r.value != []
  {
    var sq := Sequence(d, s);
    if sq.Failure? then Passed(sq)
    else
      var bar := Run(Delim("|"), sq.left);
      if !bar.Ok() then Success(sq.parsed, sq.left, [sq.value])
      else
        var rest := Sequences(d, bar.left);
        if rest.Success? then Success(sq.parsed + bar.parsed + rest.parsed, rest.left, rest.value + [sq.value])
        else Success(sq.parsed, sq.left, [sq.value])
  }

  /** `Lexers() & Function() | Lexers()`, with the lexer items put back in order. */
  function Sequence(d: Dialect, s: string): (r: Reply<SeqResult>)
    ensures |r.left| <= |s|
    ensures r.Success? ==> |r.left| < |s| && r.value.lexers != []
    ensures r.Success? && r.value.action.Some? ==> Balanced(r.value.action.value)
  {
    var lexers := Lexers(d, s);
    if lexers.Failure? then Passed(lexers)
    else
      var f := Function(lexers.left);
      if f.Success? then Success(lexers.parsed + f.parsed, f.left, SeqResult(Reverse(lexers.value), Some(f.value)))
      else Success(lexers.parsed, lexers.left, SeqResult(Reverse(lexers.value), None))
  }

  /** `Delim('{') & PyLit() & Delim('}')`: the action text between the outer braces. */
  function Function(s: string): (r: Reply<string>)
    ensures |r.left| <= |s|
    ensures r.Success? ==> |r.left| < |s| && Balanced(r.value)
  {
    var open := Run(Delim("{"), s);
    if !open.Ok() then Lost(open)
    else
      DelimShrinks("{", s);
      var body := PyLit(open.left);
      var close := Run(Delim("}"), body.left);
      if !close.Ok() then Lost(close)
      else Success(open.parsed + body.parsed + close.parsed, close.left, body.value)
  }

  /** `PyStr() & PyBrack() & PyLit() | PyStr()`: brace-free text with balanced brace groups. */
  function PyLit(s: string): (r: Reply<string>)
    decreases |s|, 1
    ensures r.Success? && |r.left| <= |s| && Balanced(r.value)
  {
    var text := Run(RE(NoBraces), s);
    NoBracesBalanced(text.parsed);
    var brack := PyBrack(text.left);
    if brack.Success? then
      var rest := PyLit(brack.left);
      BalancedConcat(text.parsed, brack.value);
      BalancedConcat(text.parsed + brack.value, rest.value);
      Success(text.parsed + brack.parsed + rest.parsed, rest.left, text.parsed + brack.value + rest.value)
    else Success(text.parsed, text.left, text.parsed)
  }

  /** `Delim('{') & PyLit() & Delim('}')`, its text put back between braces. */
  function PyBrack(s: string): (r: Reply<string>)
    decreases |s|, 0
    ensures |r.left| <= |s|
    ensures r.Success? ==> |r.left| < |s| && Balanced(r.value)
  {
    var open := Run(Delim("{"), s);
    if !open.Ok() then Lost(open)
    else
      DelimShrinks("{", s);
      var body := PyLit(open.left);
      var close := Run(Delim("}"), body.left);
      if !close.Ok() then Lost(close)
      else
        BalancedWrap(body.value);
        Success(open.parsed + body.parsed + close.parsed, close.left, "{" + body.value + "}")
  }

  /** `Lexer() & Lexers() | Lexer()`, collected last first. */
  function Lexers(d: Dialect, s: string): (r: Reply<seq<LexResult>>)
    decreases |s|
    ensures |r.left| <= |s|
    ensures r.Success? ==> |r.left| < |s| && r.value != []
  {
    var lexer := Lexer(d, s);
    if lexer.Failure? then Passed(lexer)
    else
      var rest := Lexers(d, lexer.left);
      if rest.Success? then Success(lexer.parsed + rest.parsed, rest.left, rest.value + [lexer.value])
      else Success(lexer.parsed, lexer.left, [lexer.value])
  }

  /** `SpacesAround(Id() | String() | Regex())`: one lexer item. */
  function Lexer(d: Dialect, s: string): (r: Reply<LexResult>)
    ensures |r.left| <= |s|
    ensures r.Success? ==> |r.left| < |s|
  {
    var p := Run(LexerParser(d), s);
    if !p.Ok() then Lost(p)
    else
      LexerShape(d, s);
      LexerShrinks(d, s);
      Success(p.parsed, p.left, LexOf(p.result))
  }

  // ---- Declaration order ---------------------------------------------------------------

  /** Reversing the collected rules gives them in the order they are written: the first rule
      of the text, then the rules read after its `;`. */
  lemma RulesInOrder(d: Dialect, s: string)
    requires Rules(d, s).Success?
    ensures var rule := Rule(d, s);
            var semi := Run(Delim(";"), rule.left);
            var rest := Rules(d, semi.left);
            && rule.Success? && semi.Ok()
            && Reverse(Rules(d, s).value) == [rule.value] + (if rest.Success? then Reverse(rest.value) else [])
  {
    var rule := Rule(d, s);
    var semi := Run(Delim(";"), rule.left);
    var rest := Rules(d, semi.left);
    if rest.Success? {
      ReverseCons(rule.value, Reverse(rest.value));
      ReverseReverse(rest.value);
      assert Reverse(Rules(d, s).value) == Reverse(Reverse([rule.value] + Reverse(rest.value)));
      ReverseReverse([rule.value] + Reverse(rest.value));
    }
  }

  /** The same for the alternatives of a rule, separated by `|`. */
  lemma SequencesInOrder(d: Dialect, s: string)
    requires Sequences(d, s).Success?
    ensures var sq := Sequence(d, s);
            var bar := Run(Delim("|"), sq.left);
            var rest := Sequences(d, bar.left);
            && sq.Success?
            && Reverse(Sequences(d, s).value)
               == [sq.value] + (if bar.Ok() && rest.Success? then Reverse(rest.value) else [])
  {
    var sq := Sequence(d, s);
    var bar := Run(Delim("|"), sq.left);
    var rest := Sequences(d, bar.left);
    if bar.Ok() && rest.Success? {
      ReverseCons(sq.value, Reverse(rest.value));
      ReverseReverse(rest.value);
      assert Reverse(Sequences(d, s).value) == Reverse(Reverse([sq.value] + Reverse(rest.value)));
      ReverseReverse([sq.value] + Reverse(rest.value));
    }
  }

  /** The same for the lexer items of a sequence, which are only separated by blank space. */
  lemma LexersInOrder(d: Dialect, s: string)
    requires Lexers(d, s).Success?
    ensures var lexer := Lexer(d, s);
            var rest := Lexers(d, lexer.left);
            && lexer.Success?
            && Reverse(Lexers(d, s).value) == [lexer.value] + (if rest.Success? then Reverse(rest.value) else [])
  {
    var lexer := Lexer(d, s);
    var rest := Lexers(d, lexer.left);
    if rest.Success? {
      ReverseCons(lexer.value, Reverse(rest.value));
      ReverseReverse(rest.value);
      assert Reverse(Lexers(d, s).value) == Reverse(Reverse([lexer.value] + Reverse(rest.value)));
      ReverseReverse([lexer.value] + Reverse(rest.value));
    }
  }

  // ---- The repetitions read as far as they can ------------------------------------------

  /** Rules stops only where no further `rule ;` can be read. */
  lemma {:induction false} RulesMaximal(d: Dialect, s: string)
    requires Rules(d, s).Success?
    ensures Rules(d, Rules(d, s).left).Failure?
    decreases |s|
  {
    var rule := Rule(d, s);
    var semi := Run(Delim(";"), rule.left);
    if Rules(d, semi.left).Success? {
      RulesMaximal(d, semi.left);
    }
  }

  /** Sequences stops only where no `| sequence` follows. */
  lemma {:induction false} SequencesMaximal(d: Dialect, s: string)
    requires Sequences(d, s).Success?
    ensures var r := Sequences(d, s);
            var bar := Run(Delim("|"), r.left);
            !bar.Ok() || Sequences(d, bar.left).Failure?
    decreases |s|
  {
    var sq := Sequence(d, s);
    var bar := Run(Delim("|"), sq.left);
    if bar.Ok() && Sequences(d, bar.left).Success? {
      SequencesMaximal(d, bar.left);
    }
  }

  /** Lexers stops only where no further lexer item can be read. */
  lemma {:induction false} LexersMaximal(d: Dialect, s: string)
    requires Lexers(d, s).Success?
    ensures Lexer(d, Lexers(d, s).left).Failure?
    decreases |s|
  {
    var lexer := Lexer(d, s);
    if Lexers(d, lexer.left).Success? {
      LexersMaximal(d, lexer.left);
    }
  }

  /** PyLit stops only where no brace group follows: at the end, at a `}` or at an unclosed `{`. */
  lemma {:induction false} PyLitMaximal(s: string)
    ensures PyBrack(PyLit(s).left).Failure?
    decreases |s|
  {
    var text := Run(RE(NoBraces), s);
    var brack := PyBrack(text.left);
    if brack.Success? {
      PyLitMaximal(brack.left);
    }
  }

  // ---- Which token a lexer item is -------------------------------------------------------

  /** The token a choice among regex tokens picks: the first whose pattern matches. */
  lemma TokenWinner(alts: seq<Parser>, a: string)
    requires alts != [] && forall j :: 0 <= j < |alts| ==> alts[j].RE?
    requires Run(Or(alts), a).Ok()
    ensures Run(Or(alts), a).result.Either?
    ensures var i := Run(Or(alts), a).result.index;
            && i < |alts| && Scan(alts[i].pattern, a).Some?
            && Run(alts[i], a).parsed == Capture(alts[i].pattern, a[..Scan(alts[i].pattern, a).value])
            && forall j :: 0 <= j < i ==> Scan(alts[j].pattern, a).None?
  {
    OrSemantics(alts, a);
    var i := Run(Or(alts), a).result.index;
    forall j | 0 <= j < i ensures Scan(alts[j].pattern, a).None? {
      assert !Run(alts[j], a).Ok();
    }
  }

  /** A lexer item can be read exactly when, after the leading blank space, an identifier, a
      string literal or a regex can. */
  lemma LexerSucceeds(d: Dialect, s: string)
    ensures var a := ParseSpaces(s).left;
            Lexer(d, s).Success?
            <==> Scan(Identifier, a).Some? || Scan(Quoted, a).Some? || Scan(RegexPattern(d), a).Some?
  {
    var a := ParseSpaces(s).left;
    var alts := [RE(Identifier), ParseString(), RE(RegexPattern(d))];
    assert Lexer(d, s).Success? <==> Run(SpacesAround(Or(alts)), s).Ok();
    SpacesAroundFailure(Or(alts), s);
    OrOfThree(RE(Identifier), ParseString(), RE(RegexPattern(d)), a);
    TokenOk(Identifier, a);
    TokenOk(Quoted, a);
    TokenOk(RegexPattern(d), a);
  }

  lemma TokenOk(p: Pattern, a: string)
    ensures Run(RE(p), a).Ok() <==> Scan(p, a).Some?
  {
  }

  /** A choice of three succeeds exactly when one of the three does. */
  lemma OrOfThree(x: Parser, y: Parser, z: Parser, a: string)
    ensures Run(Or([x, y, z]), a).Ok() <==> Run(x, a).Ok() || Run(y, a).Ok() || Run(z, a).Ok()
  {
    var alts := [x, y, z];
    assert alts[0] == x && alts[1] == y && alts[2] == z;
    assert Run(Or(alts), a) == OrFrom(alts, 0, a);
    OrFromSucceeds(alts, 0, a);
    if Run(Or(alts), a).Ok() {
      var i :| 0 <= i < |alts| && Run(alts[i], a).Ok();
      assert i == 0 || i == 1 || i == 2;
    }
  }

  /** A lexer item is an identifier when one can be read after the blank space, otherwise a
      string literal when one can be read, otherwise a regex; its text is what that token
      captured. */
  lemma LexerKinds(d: Dialect, s: string)
    requires Lexer(d, s).Success?
    ensures var a := ParseSpaces(s).left;
            var k := Lexer(d, s).value.kind;
            && (k == IdRef <==> Scan(Identifier, a).Some?)
            && (k == StringLit <==> Scan(Identifier, a).None? && Scan(Quoted, a).Some?)
            && Scan(TokenPattern(d, k), a).Some?
            && Lexer(d, s).value.choice == Capture(TokenPattern(d, k), a[..Scan(TokenPattern(d, k), a).value])
  {
    var a := ParseSpaces(s).left;
    var alts := [RE(Identifier), ParseString(), RE(RegexPattern(d))];
    assert alts[0].pattern == Identifier && alts[1].pattern == Quoted && alts[2].pattern == RegexPattern(d);
    SpacesAroundFailure(Or(alts), s);
    LexerShape(d, s);
    TokenWinner(alts, a);
    var i := Run(Or(alts), a).result.index;
    var l := Lexer(d, s).value;
    assert l.kind == KindOf(i) && l.choice == Run(alts[i], a).parsed;
    assert alts[i].pattern == TokenPattern(d, KindOf(i));
    if i == 1 {
      assert Scan(alts[0].pattern, a).None?;
    } else if i == 2 {
      assert Scan(alts[0].pattern, a).None? && Scan(alts[1].pattern, a).None?;
    }
  }

  // ---- Actions and regex bodies ---------------------------------------------------------



  /** An alternative's first item is the first lexer item of its text. */
  lemma SequenceFirstItem(d: Dialect, s: string)
    requires Sequence(d, s).Success?
    ensures Lexer(d, s).Success? && Sequence(d, s).value.lexers[0] == Lexer(d, s).value
  {
    LexersInOrder(d, s);
  }

  /** When a brace-balanced action `{` t `}` follows an alternative's items, the alternative
      carries t as its action, and the blank space after the closing brace is consumed. */
  lemma SequenceReadsAction(d: Dialect, s: string, t: string, rest: string)
    requires Lexers(d, s).Success? && Lexers(d, s).left == "{" + t + "}" + rest
    requires Balanced(t) && NoLead(t) && NoBlankAfterBrace(t)
    ensures var r := Sequence(d, s);
            r.Success? && r.value.action == Some(t) && r.left == ParseSpaces(rest).left
  {
    FunctionReadsBalanced(t, rest);
  }

  /** An action is read exactly when `{` follows the blank space, and after the brace-balanced
      text behind it, `}` follows the blank space. */
  lemma FunctionFramed(s: string)
    ensures var open := Run(Delim("{"), s);
            Function(s).Success?
            <==> "{" <= ParseSpaces(s).left && "}" <= ParseSpaces(PyLit(open.left).left).left
  {
    var open := Run(Delim("{"), s);
    DelimMeaning("{", s);
    DelimMeaning("}", PyLit(open.left).left);
  }

  /** The regex token reads a slash, a body and a slash, and reports the body: one with no
      slash in the top-level file, one where `\/` may stand for a slash in the package. */
  lemma RegexToken(d: Dialect, s: string)
    requires Run(RE(RegexPattern(d)), s).Ok()
    ensures var r := Run(RE(RegexPattern(d)), s);
            && s == "/" + r.parsed + "/" + r.left
            && (d == TopLevel ==> forall i :: 0 <= i < |r.parsed| ==> r.parsed[i] != '/')
            && (d == Package ==> InEscBody(r.parsed))
  {
    var p := RegexPattern(d);
    var r := Run(RE(p), s);
    assert r == ParseRE(p, s);
    FramedToken(p, s);
    var m := "/" + r.parsed + "/";
    if d == TopLevel {
      forall i | 0 <= i < |r.parsed| ensures r.parsed[i] != '/' {
        assert r.parsed[i] == m[i + 1];
      }
    } else {
      assert m[1..|m| - 1] == r.parsed;
    }
  }

  /** A slash-delimited token is its reported body between the two slashes it matched. */
  lemma FramedToken(p: Pattern, s: string)
    requires (p == Slashed || p == EscapedSlashed) && ParseRE(p, s).Ok()
    ensures var r := ParseRE(p, s);
            s == "/" + r.parsed + "/" + r.left && Matches(p, "/" + r.parsed + "/")
  {
    var n := Scan(p, s).value;
    var m := s[..n];
    FramedMatch(p, m);
    assert s == m + s[n..];
  }

  // ---- Brace balance of action text -----------------------------------------------------

  function Step(c: char): int {
    if c == '{' then 1 else if c == '}' then -1 else 0
  }

  /** Open braces minus closing braces among the first i characters of t. */
  function Depth(t: string, i: nat): int
    requires i <= |t|
  {
    if i == 0 then 0 else Depth(t, i - 1) + Step(t[i - 1])
  }

  /** Every closing brace matches an earlier opening one, and all are closed. */
  predicate Balanced(t: string) {
    Depth(t, |t|) == 0 && forall i :: 0 <= i <= |t| ==> Depth(t, i) >= 0
  }

  /** The depth after i characters depends on those characters only. */
  lemma {:induction false} DepthPrefix(t: string, u: string, i: nat)
    requires i <= |t| && i <= |u| && forall j :: 0 <= j < i ==> t[j] == u[j]
    ensures Depth(t, i) == Depth(u, i)
  {
    if i > 0 {
      DepthPrefix(t, u, i - 1);
    }
  }

  /** Counting past position a adds the depth of what follows a. */
  lemma {:induction false} DepthFrom(t: string, a: nat, j: nat)
    requires a + j <= |t|
    ensures Depth(t, a + j) == Depth(t, a) + Depth(t[a..], j)
  {
    if j > 0 {
      DepthFrom(t, a, j - 1);
      assert t[a..][j - 1] == t[a + j - 1];
    }
  }

  lemma DepthConcat(a: string, b: string, j: nat)
    requires j <= |b|
    ensures Depth(a + b, |a| + j) == Depth(a, |a|) + Depth(b, j)
  {
    DepthFrom(a + b, |a|, j);
    DepthPrefix(a + b, a, |a|);
    assert (a + b)[|a|..] == b;
  }

  lemma {:induction false} NoBracesDepth(t: string, i: nat)
    requires Matches(NoBraces, t) && i <= |t|
    ensures Depth(t, i) == 0
  {
    if i > 0 {
      NoBracesDepth(t, i - 1);
    }
  }

  lemma NoBracesBalanced(t: string)
    requires Matches(NoBraces, t)
    ensures Balanced(t)
  {
    forall i | 0 <= i <= |t| ensures Depth(t, i) == 0 {
      NoBracesDepth(t, i);
    }
  }

  lemma BalancedConcat(a: string, b: string)
    requires Balanced(a) && Balanced(b)
    ensures Balanced(a + b)
  {
    forall i | 0 <= i <= |a + b|
      ensures Depth(a + b, i) >= 0 && (i == |a + b| ==> Depth(a + b, i) == 0)
    {
      if i <= |a| {
        DepthPrefix(a + b, a, i);
      } else {
        DepthConcat(a, b, i - |a|);
      }
    }
  }

  lemma BalancedWrap(a: string)
    requires Balanced(a)
    ensures Balanced("{" + a + "}")
  {
    var w := "{" + a + "}";
    assert Depth(w, 1) == 1;
    forall i | 1 <= i <= |a| + 1 ensures Depth(w, i) == 1 + Depth(a, i - 1) {
      DepthFrom(w, 1, i - 1);
      DepthPrefix(w[1..], a, i - 1);
    }
    assert Depth(w, |w|) == Depth(w, |a| + 1) - 1;
    forall i | 0 <= i <= |w| ensures Depth(w, i) >= 0 {
      if 1 <= i <= |a| + 1 {
        assert Depth(a, i - 1) >= 0;
      }
    }
  }

  // ---- Reading action text back ---------------------------------------------------------

  /** Action text in the shape PyLit reads it: brace-free text, then either nothing more or a
      brace group followed by more action text. */
  datatype Lit = Plain(text: string) | Group(text: string, inner: Lit, rest: Lit)

  function LitText(l: Lit): string {
    match l
    case Plain(x) => x
    case Group(x, inner, rest) => x + "{" + LitText(inner) + "}" + LitText(rest)
  }

  /** Text that does not start with blank space. */
  predicate NoLead(s: string) {
    s == "" || !IsSpace(s[0])
  }

  /** Action text PyLit gives back unchanged: its plain pieces have no braces, and no blank
      space follows a brace, since the `Delim` around a brace group skips it. */
  predicate Tidy(l: Lit) {
    match l
    case Plain(x) => Matches(NoBraces, x)
    case Group(x, inner, rest) =>
      Matches(NoBraces, x) && Tidy(inner) && Tidy(rest) && NoLead(LitText(inner)) && NoLead(LitText(rest))
  }

  /** PyStr reads brace-free text up to the next brace or the end. */
  lemma {:induction false} PyStrReads(x: string, u: string)
    requires Matches(NoBraces, x) && (u == "" || u[0] == '{' || u[0] == '}')
    ensures Run(RE(NoBraces), x + u).parsed == x && Run(RE(NoBraces), x + u).left == u
  {
    SpanExact(x, u, NotBrace);
    assert (x + u)[..|x|] == x && (x + u)[|x|..] == u;
  }

  /** Spaces() reads nothing from text that does not start with blank space. */
  lemma {:induction false} SpacesNone(v: string)
    requires NoLead(v)
    ensures ParseSpaces(v).left == v
  {
  }

  /** `Delim(t)` in front of text v reads t and the blank space after it. */
  lemma {:induction false} DelimReads(t: string, v: string)
    requires t != "" && !IsSpace(t[0])
    ensures Run(Delim(t), t + v).Ok() && Run(Delim(t), t + v).left == ParseSpaces(v).left
  {
    SpacesNone(t + v);
    DelimMeaning(t, t + v);
    assert (t + v)[|t|..] == v;
  }

  /** `Delim('{')` reads the brace in front of text that does not start with blank space. */
  lemma {:induction false} BraceOpen(v: string)
    requires NoLead(v)
    ensures Run(Delim("{"), "{" + v).Ok() && Run(Delim("{"), "{" + v).left == v
  {
    DelimReads("{", v);
    SpacesNone(v);
  }

  /** `Delim('}')` reads the brace and the blank space after it. */
  lemma {:induction false} BraceClose(w: string)
    ensures Run(Delim("}"), "}" + w).Ok() && Run(Delim("}"), "}" + w).left == ParseSpaces(w).left
  {
    DelimReads("}", w);
  }

  lemma {:induction false} NoLeadConcat(x: string, y: string)
    requires NoLead(x) && NoLead(y)
    ensures NoLead(x + y)
  {
    if x != "" {
      assert (x + y)[0] == x[0];
    } else {
      assert x + y == y;
    }
  }

  lemma {:induction false} Regroup(a: string, b: string, c: string, d: string)
    ensures a + b + c + d == a + (b + (c + d))
  {
  }

  /** Function's steps: the opening delimiter, the action text, the closing delimiter. */
  lemma {:induction false} FunctionSteps(s: string, v: string)
    requires Run(Delim("{"), s).Ok() && Run(Delim("{"), s).left == v
    requires Run(Delim("}"), PyLit(v).left).Ok()
    ensures Function(s).Success? && Function(s).value == PyLit(v).value
    ensures Function(s).left == Run(Delim("}"), PyLit(v).left).left
  {
  }

  /** PyBrack's steps, the same as Function's with the braces put back around the text. */
  lemma {:induction false} PyBrackSteps(s: string, v: string)
    requires Run(Delim("{"), s).Ok() && Run(Delim("{"), s).left == v
    requires Run(Delim("}"), PyLit(v).left).Ok()
    ensures PyBrack(s).Success? && PyBrack(s).value == "{" + PyLit(v).value + "}"
    ensures PyBrack(s).left == Run(Delim("}"), PyLit(v).left).left
  {
  }

  /** A brace group keeps its braces: PyBrack reads a group of tidy action text and gives it
      back with the braces around it. */
  lemma {:induction false} PyBrackReads(inner: Lit, w: string)
    requires Tidy(inner) && NoLead(LitText(inner)) && NoLead(w)
    decreases inner, 2
    ensures var r := PyBrack("{" + LitText(inner) + "}" + w);
            r.Success? && r.value == "{" + LitText(inner) + "}" && r.left == w
  {
    var i := LitText(inner);
    var v := i + ("}" + w);
    Regroup("{", i, "}", w);
    NoLeadConcat(i, "}" + w);
    BraceOpen(v);
    PyLitReads(inner, "}" + w);
    BraceClose(w);
    SpacesNone(w);
    PyBrackSteps("{" + v, v);
  }

  /** PyLit reads tidy action text back unchanged, stopping at the end or at a closing brace. */
  lemma {:induction false} PyLitReads(l: Lit, u: string)
    requires Tidy(l) && (u == "" || u[0] == '}')
    decreases l, 1
    ensures PyLit(LitText(l) + u).value == LitText(l) && PyLit(LitText(l) + u).left == u
  {
    match l
    case Plain(x) =>
      PlainReads(x, u);
    case Group(x, inner, rest) =>
      var w := LitText(rest) + u;
      NoLeadConcat(LitText(rest), u);
      PyBrackReads(inner, w);
      PyLitReads(rest, u);
      GroupText(x, inner, rest, u);
      GroupStep(x, "{" + LitText(inner) + "}" + w);
  }

  /** Brace-free text followed by the end or a closing brace is all PyLit reads. */
  lemma {:induction false} PlainReads(x: string, u: string)
    requires Matches(NoBraces, x) && (u == "" || u[0] == '}')
    ensures PyLit(x + u).value == x && PyLit(x + u).left == u
  {
    NoGroupAt(u);
    PyStrReads(x, u);
  }

  /** No brace group starts at the end or at a closing brace. */
  lemma {:induction false} NoGroupAt(u: string)
    requires u == "" || u[0] == '}'
    ensures PyBrack(u).Failure?
  {
    SpacesNone(u);
    DelimMeaning("{", u);
  }

  /** Brace-free text, then a group PyBrack reads: PyLit reads the text, the group and then
      what follows. */
  lemma {:induction false} GroupStep(x: string, b: string)
    requires Matches(NoBraces, x) && |b| > 0 && b[0] == '{' && PyBrack(b).Success?
    ensures PyLit(x + b).value == x + PyBrack(b).value + PyLit(PyBrack(b).left).value
    ensures PyLit(x + b).left == PyLit(PyBrack(b).left).left
  {
    PyStrReads(x, b);
  }

  lemma {:induction false} GroupText(x: string, inner: Lit, rest: Lit, u: string)
    ensures var b := "{" + LitText(inner) + "}" + (LitText(rest) + u);
            LitText(Group(x, inner, rest)) + u == x + b
    ensures LitText(Group(x, inner, rest)) == x + ("{" + LitText(inner) + "}") + LitText(rest)
  {
  }

  /** An action written as `{`, tidy action text and `}` is read back as that text, and
      reading stops after the blank space behind the closing brace. */
  lemma {:induction false} FunctionReads(l: Lit, rest: string)
    requires Tidy(l) && NoLead(LitText(l))
    ensures var r := Function("{" + LitText(l) + "}" + rest);
            r.Success? && r.value == LitText(l) && r.left == ParseSpaces(rest).left
  {
    var t := LitText(l);
    var v := t + ("}" + rest);
    Regroup("{", t, "}", rest);
    NoLeadConcat(t, "}" + rest);
    BraceOpen(v);
    PyLitReads(l, "}" + rest);
    BraceClose(rest);
    FunctionSteps("{" + v, v);
  }

  // ---- Every balanced action text has that shape ----------------------------------------

  /** No blank space right after a brace. */
  predicate NoBlankAfterBrace(t: string) {
    forall j :: 0 <= j < |t| - 1 ==> !BlankAfterBrace(t, j)
  }

  predicate BlankAfterBrace(t: string, j: nat)
    requires j + 1 < |t|
  {
    (t[j] == '{' || t[j] == '}') && IsSpace(t[j + 1])
  }

  /** The closing brace that matches an opening one: the first position after it where the
      depth falls back to that before it. */
  function FindClose(t: string, k: nat, j: nat): (m: nat)
    requires Balanced(t) && k < j <= |t| && Depth(t, k) == 0
    requires forall i :: k < i <= j ==> Depth(t, i) >= 1
    decreases |t| - j
    ensures j <= m < |t| && Depth(t, m + 1) == 0
    ensures forall i :: k < i <= m ==> Depth(t, i) >= 1
  {
    if Depth(t, j + 1) == 0 then j
    else FindClose(t, k, j + 1)
  }

  /** Where the first brace group of a balanced text opens and closes: the depth is one inside
      it and falls back to zero after it. */
  lemma GroupBounds(t: string) returns (k: nat, m: nat)
    requires Balanced(t) && Span(t, NotBrace) < |t|
    ensures k == Span(t, NotBrace) && k < m < |t| && t[k] == '{' && t[m] == '}'
    ensures Depth(t, k + 1) == 1 && Depth(t, m) == 1 && Depth(t, m + 1) == 0
    ensures forall i :: k < i <= m ==> Depth(t, i) >= 1
  {
    k := Span(t, NotBrace);
    NoBracesPrefix(t, k);
    OpensAt(t, k);
    m := FindClose(t, k, k + 1);
    ClosesAt(t, m);
  }

  /** The text before the first group has no braces, and the texts inside it and after it are
      balanced again, again without blank space right after a brace. */
  lemma GroupParts(t: string, k: nat, m: nat)
    requires Balanced(t) && NoBlankAfterBrace(t) && k == Span(t, NotBrace) && k < m < |t|
    requires Depth(t, k + 1) == 1 && Depth(t, m) == 1 && Depth(t, m + 1) == 0
    requires forall i :: k < i <= m ==> Depth(t, i) >= 1
    ensures Matches(NoBraces, t[..k])
    ensures Balanced(t[k + 1..m]) && NoBlankAfterBrace(t[k + 1..m])
    ensures Balanced(t[m + 1..]) && NoBlankAfterBrace(t[m + 1..])
  {
    NoBracesPrefix(t, k);
    InnerBalanced(t, k, m);
    RestBalanced(t, m);
    SliceNoBlank(t, k + 1, m);
    SuffixNoBlank(t, m + 1);
  }

  lemma SplitText(t: string, k: nat, m: nat)
    requires k < m < |t| && t[k] == '{' && t[m] == '}'
    ensures t == t[..k] + "{" + t[k + 1..m] + "}" + t[m + 1..]
  {
    assert t[..m] == t[..k] + "{" + t[k + 1..m];
    assert t == t[..m] + "}" + t[m + 1..];
  }

  lemma NoBracesPrefix(t: string, k: nat)
    requires k == Span(t, NotBrace)
    ensures Matches(NoBraces, t[..k]) && Depth(t, k) == 0
  {
    NoBracesDepth(t[..k], k);
    DepthPrefix(t, t[..k], k);
  }

  /** The first brace of a balanced text opens a group. */
  lemma OpensAt(t: string, k: nat)
    requires Balanced(t) && k < |t| && k == Span(t, NotBrace) && Depth(t, k) == 0
    ensures t[k] == '{' && Depth(t, k + 1) == 1
  {
    assert Depth(t, k + 1) >= 0;
  }

  /** The brace that brings the depth back to zero is a closing one. */
  lemma ClosesAt(t: string, m: nat)
    requires m < |t| && Depth(t, m + 1) == 0 && Depth(t, m) >= 1
    ensures t[m] == '}' && Depth(t, m) == 1
  {
  }

  /** The text inside a group is balanced. */
  lemma InnerBalanced(t: string, k: nat, m: nat)
    requires k < m < |t| && Depth(t, k + 1) == 1 && Depth(t, m) == 1
    requires forall i :: k < i <= m ==> Depth(t, i) >= 1
    ensures Balanced(t[k + 1..m])
  {
    var inner := t[k + 1..m];
    forall i | 0 <= i <= |inner| ensures Depth(inner, i) == Depth(t, k + 1 + i) - 1 {
      DepthFrom(t, k + 1, i);
      DepthPrefix(inner, t[k + 1..], i);
    }
  }

  /** The text after a group that closes at depth zero is balanced. */
  lemma RestBalanced(t: string, m: nat)
    requires Balanced(t) && m < |t| && Depth(t, m + 1) == 0
    ensures Balanced(t[m + 1..])
  {
    var rest := t[m + 1..];
    forall i | 0 <= i <= |rest| ensures Depth(rest, i) == Depth(t, m + 1 + i) {
      DepthFrom(t, m + 1, i);
    }
  }

  lemma SliceNoBlank(t: string, a: nat, b: nat)
    requires a <= b <= |t| && NoBlankAfterBrace(t)
    ensures NoBlankAfterBrace(t[a..b])
  {
    var w := t[a..b];
    forall j | 0 <= j < |w| - 1 ensures !BlankAfterBrace(w, j) {
      assert !BlankAfterBrace(t, a + j);
    }
  }

  lemma SuffixNoBlank(t: string, a: nat)
    requires a <= |t| && NoBlankAfterBrace(t)
    ensures NoBlankAfterBrace(t[a..])
  {
    var w := t[a..];
    forall j | 0 <= j < |w| - 1 ensures !BlankAfterBrace(w, j) {
      assert !BlankAfterBrace(t, a + j);
    }
  }

  /** A balanced text without blank space right after a brace has the shape PyLit reads
      back unchanged. */
  lemma {:induction false} BalancedShape(t: string) returns (l: Lit)
    requires Balanced(t) && NoBlankAfterBrace(t)
    decreases |t|
    ensures LitText(l) == t && Tidy(l)
  {
    if Span(t, NotBrace) == |t| {
      NoBracesPrefix(t, |t|);
      assert t[..|t|] == t;
      l := Plain(t);
    } else {
      var k, m := GroupBounds(t);
      GroupParts(t, k, m);
      var inner := BalancedShape(t[k + 1..m]);
      var rest := BalancedShape(t[m + 1..]);
      l := ShapeGroup(t, k, m, inner, rest);
    }
  }

  /** A brace group between brace-free text and a tidy rest is tidy. */
  lemma ShapeGroup(t: string, k: nat, m: nat, inner: Lit, rest: Lit) returns (l: Lit)
    requires k < m < |t| && t[k] == '{' && t[m] == '}' && NoBlankAfterBrace(t)
    requires Matches(NoBraces, t[..k]) && Tidy(inner) && Tidy(rest)
    requires LitText(inner) == t[k + 1..m] && LitText(rest) == t[m + 1..]
    ensures LitText(l) == t && Tidy(l)
  {
    AfterBrace(t, k, m);
    AfterBrace(t, m, |t|);
    assert t[m + 1..|t|] == t[m + 1..];
    SplitText(t, k, m);
    l := Group(t[..k], inner, rest);
  }

  /** The text right after a brace does not start with blank space. */
  lemma AfterBrace(t: string, j: nat, e: nat)
    requires j < e <= |t| && (t[j] == '{' || t[j] == '}') && NoBlankAfterBrace(t)
    ensures NoLead(t[j + 1..e])
  {
    if j + 1 < e {
      assert !BlankAfterBrace(t, j);
      assert t[j + 1..e][0] == t[j + 1];
    }
  }

  /** PyLit reads every balanced text without blank space right after a brace back
      unchanged, up to the end or a closing brace. */
  lemma PyLitReadsBalanced(t: string, u: string)
    requires Balanced(t) && NoBlankAfterBrace(t) && (u == "" || u[0] == '}')
    ensures PyLit(t + u).value == t && PyLit(t + u).left == u
  {
    var l := BalancedShape(t);
    PyLitReads(l, u);
  }

  /** An action `{t}`, with t balanced, not starting with blank space and with none right
      after a brace, is read back as t; with `Function`'s own guarantee that what it reads is
      balanced, these are exactly the action texts that survive reading. */
  lemma FunctionReadsBalanced(t: string, rest: string)
    requires Balanced(t) && NoLead(t) && NoBlankAfterBrace(t)
    ensures var r := Function("{" + t + "}" + rest);
            r.Success? && r.value == t && r.left == ParseSpaces(rest).left
  {
    var l := BalancedShape(t);
    FunctionReads(l, rest);
  }

  /** An action that is one brace group around brace-free text, such as `{{'a': 1}}`, is
      accepted, and its text keeps the inner braces. */
  lemma BracedActionRead(x: string, rest: string)
    requires Matches(NoBraces, x) && NoLead(x)
    ensures var r := Function("{" + ("{" + x + "}") + "}" + rest);
            r.Success? && r.value == "{" + x + "}" && r.left == ParseSpaces(rest).left
  {
    WrappedPlain(x);
    FunctionReadsBalanced("{" + x + "}", rest);
  }

  lemma WrappedPlain(x: string)
    requires Matches(NoBraces, x) && NoLead(x)
    ensures var t := "{" + x + "}"; Balanced(t) && NoLead(t) && NoBlankAfterBrace(t)
  {
    NoBracesBalanced(x);
    BalancedWrap(x);
    var t := "{" + x + "}";
    forall j | 0 <= j < |t| - 1 ensures !BlankAfterBrace(t, j) {
      if j > 0 {
        assert t[j] == x[j - 1];
      } else if x != [] {
        assert t[1] == x[0];
      }
    }
  }




}
