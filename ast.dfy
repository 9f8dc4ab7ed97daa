/** The storage classes the grammar parser builds and the emitter walks: LexResult,
    SeqResult, RuleResult and GrammarResult. */
module Ast {
  import opened Wrappers

  /** Which alternative of `Id() | String() | Regex()` a lexer item came from. */
  datatype TokenKind = IdRef | StringLit | RegexLit

  /** The `index` of a LexResult: the position of the winning alternative. */
  function Index(k: TokenKind): (i: nat)
    ensures i < 3
    ensures KindOf(i) == k
  {
    match k
    case IdRef => 0
    case StringLit => 1
    case RegexLit => 2
  }

  /** The alternative an Or index stands for; ParseOr over three parsers only yields 0, 1, 2. */
  function KindOf(i: nat): TokenKind
    requires i < 3
  {
    if i == 0 then IdRef else if i == 1 then StringLit else RegexLit
  }

  /** One lexer item: an identifier naming another rule, a string literal or a regex body. */
  datatype LexResult = LexResult(kind: TokenKind, choice: string)

  /** One alternative of a rule: its lexer items and the optional action text. */
  datatype SeqResult = SeqResult(lexers: seq<LexResult>, action: Option<string>)

  /** A rule: its name and its alternatives. */
  datatype RuleResult = RuleResult(id: string, sequences: seq<SeqResult>)

  /** The package grammar's result: the rules and the verbatim text after `%%`. */
  datatype GrammarResult = GrammarResult(rules: seq<RuleResult>, suffix: string)
}
