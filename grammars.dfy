/** The entry rule of the top-level grammar file: a rule list framed by `%%` on both sides. */
module TopGrammar {
  import opened Text
  import opened Pyrd
  import opened Ast
  import opened GrammarRules

  /** The top-level file's own GrammarResult, which holds the rules only. */
  datatype TopGrammarResult = TopGrammarResult(rules: seq<RuleResult>)

  /** `Delim("%%") & Rules() & Delim("%%")`, with the rules put back in order. */
  function Grammar(s: string): (r: Reply<TopGrammarResult>)
    ensures r.Success? ==> r.value.rules != []
  {
    var open := Run(Delim("%%"), s);
    if !open.Ok() then Lost(open)
    else
      var rules := Rules(TopLevel, open.left);
      if rules.Failure? then Passed(rules)
      else
        var close := Run(Delim("%%"), rules.left);
        if !close.Ok() then Lost(close)
        else Success(open.parsed + rules.parsed + close.parsed, close.left, TopGrammarResult(Reverse(rules.value)))
  }

  /** A grammar is read exactly when `%%` opens it after blank space, rules follow, and `%%`
      follows them; its first rule is the first one written. */
  lemma GrammarFramed(s: string)
    ensures var open := Run(Delim("%%"), s);
            var rules := Rules(TopLevel, open.left);
            Grammar(s).Success?
            <==> "%%" <= ParseSpaces(s).left && rules.Success? && "%%" <= ParseSpaces(rules.left).left
    ensures Grammar(s).Success? ==>
              Grammar(s).value.rules[0] == Rule(TopLevel, Run(Delim("%%"), s).left).value
  {
    var open := Run(Delim("%%"), s);
    var rules := Rules(TopLevel, open.left);
    DelimMeaning("%%", s);
    DelimMeaning("%%", rules.left);
    if Grammar(s).Success? {
      RulesInOrder(TopLevel, open.left);
    }
  }
}

/** The entry rule of the package's grammar module: a rule list, `%%`, and the Python text that
    follows, which is kept verbatim. */
module PackageGrammar {
  import opened Wrappers
  import opened Text
  import opened Patterns
  import opened Pyrd
  import opened Ast
  import opened GrammarRules

  /** `PySuffix()`: everything that is left. */
  function PySuffix(): Parser { RE(Everything) }

  /** PySuffix never fails and takes the whole rest of the text as it is. */
  lemma PySuffixTakesAll(x: string)
    ensures Run(PySuffix(), x).Ok() && Run(PySuffix(), x).parsed == x && Run(PySuffix(), x).left == ""
  {
    assert Scan(Everything, x) == Some(|x|);
    assert x[..|x|] == x;
    assert Run(PySuffix(), x) == ParseRE(Everything, x);
  }

  /** `Rules() & Delim("%%") & PySuffix()`, with the rules put back in order. */
  function Grammar(s: string): (r: Reply<GrammarResult>)
    ensures r.Success? ==> r.left == "" && r.value.rules != []
  {
    var rules := Rules(Package, s);
    if rules.Failure? then Passed(rules)
    else
      var sep := Run(Delim("%%"), rules.left);
      if !sep.Ok() then Lost(sep)
      else
        var suffix := Run(PySuffix(), sep.left);
        PySuffixTakesAll(sep.left);
        Success(rules.parsed + sep.parsed + suffix.parsed, suffix.left, GrammarResult(Reverse(rules.value), suffix.parsed))
  }

  /** A grammar is read exactly when rules are followed by `%%`; the suffix is the text after
      `%%` and the blank space behind it, unchanged, and the first rule is the first one
      written. */
  lemma GrammarSuffix(s: string)
    ensures var rules := Rules(Package, s);
            Grammar(s).Success? <==> rules.Success? && "%%" <= ParseSpaces(rules.left).left
    ensures var rules := Rules(Package, s);
            var after := ParseSpaces(rules.left).left;
            Grammar(s).Success? ==>
              && Grammar(s).value.suffix == ParseSpaces(after[2..]).left
              && Grammar(s).value.rules[0] == Rule(Package, s).value
  {
    var rules := Rules(Package, s);
    DelimMeaning("%%", rules.left);
    if rules.Success? && "%%" <= ParseSpaces(rules.left).left {
      PySuffixTakesAll(Run(Delim("%%"), rules.left).left);
      RulesInOrder(Package, s);
    }
  }
}
