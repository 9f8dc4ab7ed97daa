/** From grammar text to generated module: whatever the package grammar parser reads, the
    generator can emit. Identifier items and rule names are identifiers, so they are non-empty
    and free of braces. */
module Pipeline {
  import opened Wrappers
  import opened Text
  import opened Patterns
  import opened Pyrd
  import opened Ast
  import opened GrammarRules
  import PackageGrammar
  import opened Gen

  /** An identifier item's text is an identifier. */
  predicate NamedItem(l: LexResult) {
    l.kind == IdRef ==> Matches(Identifier, l.choice)
  }

  lemma NamedItemEmittable(l: LexResult)
    requires NamedItem(l)
    ensures Emittable(l)
    ensures l.kind == IdRef ==> forall j :: 0 <= j < |l.choice| ==> l.choice[j] != '('
  {
  }

  lemma LexerNamed(d: Dialect, s: string)
    requires Lexer(d, s).Success?
    ensures NamedItem(Lexer(d, s).value)
  {
    LexerKinds(d, s);
  }

  lemma {:induction false} LexersNamed(d: Dialect, s: string)
    requires Lexers(d, s).Success?
    ensures forall l :: l in Lexers(d, s).value ==> NamedItem(l)
    decreases |s|
  {
    var lexer := Lexer(d, s);
    LexerNamed(d, s);
    if Lexers(d, lexer.left).Success? {
      LexersNamed(d, lexer.left);
    }
  }

  lemma SequenceEmittable(d: Dialect, s: string)
    requires Sequence(d, s).Success?
    ensures SeqEmittable(Sequence(d, s).value)
  {
    var lexers := Lexers(d, s);
    LexersNamed(d, s);
    ReverseMembers(lexers.value);
    var ls := Sequence(d, s).value.lexers;
    assert ls == Reverse(lexers.value);
    forall j | 0 <= j < |ls| ensures Emittable(ls[j]) {
      assert ls[j] in ls;
      NamedItemEmittable(ls[j]);
    }
  }

  lemma {:induction false} SequencesEmittable(d: Dialect, s: string)
    requires Sequences(d, s).Success?
    ensures forall sq :: sq in Sequences(d, s).value ==> SeqEmittable(sq)
    decreases |s|
  {
    var sq := Sequence(d, s);
    SequenceEmittable(d, s);
    var bar := Run(Delim("|"), sq.left);
    if bar.Ok() && Sequences(d, bar.left).Success? {
      SequencesEmittable(d, bar.left);
    }
  }

  lemma RuleReadEmittable(d: Dialect, s: string)
    requires Rule(d, s).Success?
    ensures RuleEmittable(Rule(d, s).value)
  {
    var r := Rule(d, s).value;
    var id := Run(RE(Identifier), s);
    var colons := Run(Delim("::"), id.left);
    var seqs := Sequences(d, colons.left);
    SequencesEmittable(d, colons.left);
    ReverseMembers(seqs.value);
    assert r.sequences == Reverse(seqs.value);
    forall j | 0 <= j < |r.sequences| ensures SeqEmittable(r.sequences[j]) {
      assert r.sequences[j] in r.sequences;
    }
  }

  lemma {:induction false} RulesEmittable(d: Dialect, s: string)
    requires Rules(d, s).Success?
    ensures forall r :: r in Rules(d, s).value ==> RuleEmittable(r)
    decreases |s|
  {
    var rule := Rule(d, s);
    RuleReadEmittable(d, s);
    var semi := Run(Delim(";"), rule.left);
    if semi.Ok() && Rules(d, semi.left).Success? {
      RulesEmittable(d, semi.left);
    }
  }

  /** Every grammar the package parser reads meets what the generator requires. */
  lemma GrammarEmittableWhenRead(s: string)
    requires PackageGrammar.Grammar(s).Success?
    ensures GrammarEmittable(PackageGrammar.Grammar(s).value)
  {
    var rules := Rules(Package, s);
    RulesEmittable(Package, s);
    ReverseMembers(rules.value);
    var g := PackageGrammar.Grammar(s).value;
    assert g.rules == Reverse(rules.value);
    forall j | 0 <= j < |g.rules| ensures RuleEmittable(g.rules[j]) {
      assert g.rules[j] in g.rules;
    }
  }
}
