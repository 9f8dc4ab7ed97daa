/** The code generator: each storage class renders itself as Python source. The templates it
    fills (PREFIX, CHOICE_TEMPLATE, PARSE_TEMPLATE, HANDLER_TEMPLATE, CLASS_TEMPLATE) come from
    a module that is not part of this model, so `Templates` carries PREFIX as text, the
    choice template as the pieces its keyword fields split it into, and each other
    `.format(...)` of a template as a function of its arguments. */
module Gen {
  import opened Wrappers
  import opened Text
  import opened Ast
  import opened PyFormat

  /** A piece of CHOICE_TEMPLATE as `.format(IDS=, FUNCTION=)` sees it: text it copies (with
      `{{` and `}}` already halved), the two keyword fields, and a `{{}}` pair, which comes
      out as the `{}` placeholder the alternative's position is meant to fill. */
  datatype Segment = Literal(text: string) | IdsField | FunctionField | IndexField

  datatype Templates = Templates(
    prefix: string,                               // PREFIX
    choice: seq<Segment>,                         // CHOICE_TEMPLATE
    parse: string -> string,                      // PARSE_TEMPLATE.format(PARSERS=)
    handler: string -> string,                    // HANDLER_TEMPLATE.format(CODE=)
    classCode: (string, string, string) -> string // CLASS_TEMPLATE.format(ID=, HANDLER=, PARSER=)
  )

  // ---- id2class ------------------------------------------------------------------------

  /** `c.upper()` for the ASCII characters identifiers are made of. */
  function Upper(c: char): char {
    if 'a' <= c <= 'z' then (c as int - 32) as char else c
  }

  /** `id2class(id_)`: the rule name with its first letter upper-cased, naming its class. */
  function Id2Class(id: string): (r: string)
    requires id != []
    ensures |r| == |id| && r[1..] == id[1..]
    ensures !('a' <= r[0] <= 'z')
    ensures 'a' <= id[0] <= 'z' ==> r[0] as int == id[0] as int - 32
    ensures !('a' <= id[0] <= 'z') ==> r == id
  {
    [Upper(id[0])] + id[1..]
  }

  /** Naming a class twice changes nothing more. */
  lemma Id2ClassIdempotent(id: string)
    requires id != []
    ensures Id2Class(Id2Class(id)) == Id2Class(id)
  {
  }

  /** Two rules whose names differ only in the case of the first letter get the same class. */
  lemma Id2ClassMerges()
    ensures Id2Class("expr") == Id2Class("Expr") == "Expr"
  {
    assert Upper('e') == 'E';
  }

  // ---- LexResult -----------------------------------------------------------------------

  /** What the emitter needs of a lexer item: an identifier names a rule, so it is non-empty,
      and it has no braces, since its binding line goes through `str.format`. */
  predicate Emittable(l: LexResult) {
    l.kind == IdRef ==> l.choice != [] && BraceFree(l.choice)
  }

  const StrOpen: string := "ParseStr(\"\"\""
  const ReOpen: string := "ParseRE(r\"\"\""
  const TripleClose: string := "\"\"\")"

  /** `LexResult.gen_parser`: a call of the rule's class, or a literal or regex parser over the
      item's text. */
  function LexGenParser(l: LexResult): string
    requires Emittable(l)
  {
    match l.kind
    case IdRef => Id2Class(l.choice) + "()"
    case StringLit => StrOpen + l.choice + TripleClose
    case RegexLit => ReOpen + l.choice + TripleClose
  }

  /** Reads a generated parser expression back into the lexer item it stands for. */
  function ReadFragment(f: string): Option<LexResult> {
    if |f| >= |StrOpen| + |TripleClose| && f[..|StrOpen|] == StrOpen && f[|f| - |TripleClose|..] == TripleClose then
      Some(LexResult(StringLit, f[|StrOpen|..|f| - |TripleClose|]))
    else if |f| >= |ReOpen| + |TripleClose| && f[..|ReOpen|] == ReOpen && f[|f| - |TripleClose|..] == TripleClose then
      Some(LexResult(RegexLit, f[|ReOpen|..|f| - |TripleClose|]))
    else if |f| >= 3 && f[|f| - 2..] == "()" then
      Some(LexResult(IdRef, f[..|f| - 2]))
    else None
  }

  /** The generated expression keeps the item's text verbatim: reading it back gives the item,
      with a rule name turned into its class name. */
  lemma LexGenParserRoundTrip(l: LexResult)
    requires Emittable(l)
    requires l.kind == IdRef ==> forall j :: 0 <= j < |l.choice| ==> l.choice[j] != '('
    ensures ReadFragment(LexGenParser(l))
            == Some(if l.kind == IdRef then LexResult(IdRef, Id2Class(l.choice)) else l)
  {
    var f := LexGenParser(l);
    match l.kind
    case StringLit =>
      assert f[..|StrOpen|] == StrOpen;
      assert f[|f| - |TripleClose|..] == TripleClose;
      assert f[|StrOpen|..|f| - |TripleClose|] == l.choice;
    case RegexLit =>
      assert f[..|StrOpen|] != StrOpen by { assert f[6] != StrOpen[6]; }
      assert f[..|ReOpen|] == ReOpen;
      assert f[|f| - |TripleClose|..] == TripleClose;
      assert f[|ReOpen|..|f| - |TripleClose|] == l.choice;
    case IdRef =>
      var c := Id2Class(l.choice);
      assert f == c + "()";
      if |f| >= |StrOpen| + |TripleClose| {
        assert f[8] == c[8] == l.choice[8];
        assert f[..|StrOpen|] != StrOpen by { assert StrOpen[8] == '('; }
      }
      if |f| >= |ReOpen| + |TripleClose| {
        assert f[7] == c[7] == l.choice[7];
        assert f[..|ReOpen|] != ReOpen by { assert ReOpen[7] == '('; }
      }
      assert f[|f| - 2..] == "()";
      assert f[..|f| - 2] == c;
  }

  /** `LexResult.gen_handler`, before its `.format(i)`: a binding line for an identifier item. */
  function LexGenHandler(l: LexResult): (r: Option<string>)
    ensures r.Some? <==> l.kind == IdRef
  {
    if l.kind == IdRef then Some(l.choice + " = parsed_choice.choice[{}]") else None
  }

  /** The binding line the handler text gets for the identifier item at position i. */
  function Binding(name: string, i: nat): string {
    name + " = parsed_choice.choice[" + NatToString(i) + "]"
  }

  /** `line.format(i)` on an identifier item's line gives its binding line. */
  lemma FormatBinding(l: LexResult, i: nat)
    requires Emittable(l) && l.kind == IdRef
    ensures Format(LexGenHandler(l).value, i) == Some(Binding(l.choice, i))
  {
    var front := l.choice + " = parsed_choice.choice[";
    assert LexGenHandler(l).value == front + ("{}" + "]");
    FmtPlain(front, i, Unnumbered);
    FmtConcat(front, "{}" + "]", i, Unnumbered);
    FmtPlaceholder(i);
    FmtConcat("{}", "]", i, Unnumbered);
    FmtPlain("]", i, Automatic);
    assert front + (NatToString(i) + "]") == Binding(l.choice, i);
  }

  /** A binding line has no braces left. */
  lemma BindingBraceFree(name: string, i: nat)
    requires BraceFree(name)
    ensures BraceFree(Binding(name, i))
  {
    var n := NatToString(i);
    assert forall j :: 0 <= j < |n| ==> IsDigit(n[j]);
  }

  // ---- SeqResult -----------------------------------------------------------------------

  predicate SeqEmittable(sq: SeqResult) {
    forall j :: 0 <= j < |sq.lexers| ==> Emittable(sq.lexers[j])
  }

  function LexParsers(ls: seq<LexResult>): (r: seq<string>)
    requires forall j :: 0 <= j < |ls| ==> Emittable(ls[j])
    ensures |r| == |ls|
    ensures forall j :: 0 <= j < |ls| ==> r[j] == LexGenParser(ls[j])
  {
    if ls == [] then [] else [LexGenParser(ls[0])] + LexParsers(ls[1..])
  }

  /** `SeqResult.gen_parser`: the items' expressions joined by ` & `. */
  function SeqGenParser(sq: SeqResult): string
    requires SeqEmittable(sq)
  {
    Join(" & ", LexParsers(sq.lexers))
  }

  /** One more item adds ` & ` and its expression at the end. */
  lemma SeqGenParserSnoc(ls: seq<LexResult>, l: LexResult, action: Option<string>)
    requires ls != [] && SeqEmittable(SeqResult(ls, action)) && Emittable(l)
    ensures SeqGenParser(SeqResult(ls + [l], action)) == SeqGenParser(SeqResult(ls, action)) + " & " + LexGenParser(l)
  {
    var ls2 := ls + [l];
    assert forall j :: 0 <= j < |ls2| ==> Emittable(ls2[j]);
    assert LexParsers(ls2) == LexParsers(ls) + [LexGenParser(l)];
    JoinSnoc(" & ", LexParsers(ls), LexGenParser(l));
  }

  /** n items give n - 1 separators. */
  lemma SeqGenParserLength(sq: SeqResult)
    requires SeqEmittable(sq) && sq.lexers != []
    ensures |SeqGenParser(sq)| == SumLengths(LexParsers(sq.lexers)) + 3 * (|sq.lexers| - 1)
  {
    JoinLength(" & ", LexParsers(sq.lexers));
  }

  /** The binding lines for the first n items: identifier items only, each with its position
      among all items. */
  function Bindings(ls: seq<LexResult>, n: nat): seq<string>
    requires n <= |ls|
  {
    if n == 0 then []
    else Bindings(ls, n - 1) + (if ls[n - 1].kind == IdRef then [Binding(ls[n - 1].choice, n - 1)] else [])
  }

  /** Every identifier item gets its binding line, and every line binds an identifier item at
      its own position. */
  lemma {:induction false} BindingsExact(ls: seq<LexResult>, n: nat)
    requires n <= |ls|
    ensures forall p :: 0 <= p < n && ls[p].kind == IdRef ==> Binding(ls[p].choice, p) in Bindings(ls, n)
    ensures forall x :: x in Bindings(ls, n) ==>
              exists p :: 0 <= p < n && ls[p].kind == IdRef && x == Binding(ls[p].choice, p)
  {
    if n > 0 {
      BindingsExact(ls, n - 1);
    }
  }

  /** A sequence without identifier items binds nothing. */
  lemma {:induction false} BindingsNone(ls: seq<LexResult>, n: nat)
    requires n <= |ls| && forall j :: 0 <= j < |ls| ==> ls[j].kind != IdRef
    ensures Bindings(ls, n) == []
  {
    if n > 0 {
      BindingsNone(ls, n - 1);
    }
  }

  function IdSep(): string { "\n" + "            " }

  /** The binding lines joined into the IDS text. */
  function SeqIds(sq: SeqResult): string {
    Join(IdSep(), Bindings(sq.lexers, |sq.lexers|))
  }

  /** `str(self.function)`: the action's text, or `None` for an alternative without one. */
  function FunctionText(action: Option<string>): string {
    if action.Some? then action.value else "None"
  }

  /** One template piece filled in, with `index` standing where the template has `{}`. */
  function Piece(s: Segment, ids: string, f: string, index: string): string {
    match s
    case Literal(x) => x
    case IdsField => ids
    case FunctionField => f
    case IndexField => index
  }

  /** The template filled in with IDS `ids`, FUNCTION `f`, and `index` at every `{}`. */
  function Fill(segs: seq<Segment>, ids: string, f: string, index: string): string {
    if segs == [] then "" else Piece(segs[0], ids, f, index) + Fill(segs[1..], ids, f, index)
  }

  /** The text `SeqResult.gen_handler` returns: the keyword fields filled and the `{}`
      placeholder left for the caller. */
  function SeqHandlerText(t: Templates, sq: SeqResult): string {
    Fill(t.choice, SeqIds(sq), FunctionText(sq.action), "{}")
  }

  /** `sequence.gen_handler().format(i)` as written: a second `str.format` over text that
      already holds the action, None where Python raises. */
  function HandlerAsWritten(t: Templates, sq: SeqResult, i: nat): Option<string> {
    Format(SeqHandlerText(t, sq), i)
  }

  /** The handler piece evidently intended for the alternative at position i: the template
      with its `{}` placeholder replaced by `str(i)` and the action copied verbatim. */
  function HandlerAt(t: Templates, sq: SeqResult, i: nat): string {
    Fill(t.choice, SeqIds(sq), FunctionText(sq.action), NatToString(i))
  }

  /** The `ids` loop of `SeqResult.gen_handler`. */
  method GenBindings(sq: SeqResult) returns (ids: seq<string>)
    requires SeqEmittable(sq)
    ensures ids == Bindings(sq.lexers, |sq.lexers|)
  {
    ids := [];
    var i := 0;
    while i < |sq.lexers|
      invariant 0 <= i <= |sq.lexers|
      invariant ids == Bindings(sq.lexers, i)
    {
      var line := LexGenHandler(sq.lexers[i]);
      if line.Some? {
        FormatBinding(sq.lexers[i], i);
        ids := ids + [Format(line.value, i).value];
      }
      i := i + 1;
    }
  }

  /** `SeqResult.gen_handler`. */
  method SeqGenHandler(t: Templates, sq: SeqResult) returns (code: string)
    requires SeqEmittable(sq)
    ensures code == SeqHandlerText(t, sq)
  {
    var ids := GenBindings(sq);
    code := Fill(t.choice, Join(IdSep(), ids), FunctionText(sq.action), "{}");
  }

  /** `SeqResult.gen_handler` with the position filled in together with the keyword fields,
      as the handler loop of `RuleResult.gen_handler` evidently intends. */
  method SeqGenHandlerAt(t: Templates, sq: SeqResult, i: nat) returns (code: string)
    requires SeqEmittable(sq)
    ensures code == HandlerAt(t, sq, i)
  {
    var ids := GenBindings(sq);
    code := Fill(t.choice, Join(IdSep(), ids), FunctionText(sq.action), NatToString(i));
  }

  // ---- the second `.format(i)` ---------------------------------------------------------

  /** How many `{}` placeholders the template leaves. */
  function IndexCount(segs: seq<Segment>): nat {
    if segs == [] then 0 else (if segs[0] == IndexField then 1 else 0) + IndexCount(segs[1..])
  }

  /** A choice template that survives a second `.format(i)` when nothing braced is put
      into it: its text has no braces and it leaves at most one `{}`. */
  predicate TemplateOk(segs: seq<Segment>) {
    (forall j :: 0 <= j < |segs| ==> segs[j].Literal? ==> BraceFree(segs[j].text)) && IndexCount(segs) <= 1
  }

  lemma {:induction false} FillConcat(x: seq<Segment>, y: seq<Segment>, ids: string, f: string, index: string)
    ensures Fill(x + y, ids, f, index) == Fill(x, ids, f, index) + Fill(y, ids, f, index)
  {
    if x == [] {
      assert x + y == y;
    } else {
      assert (x + y)[1..] == x[1..] + y;
      FillConcat(x[1..], y, ids, f, index);
    }
  }

  /** With brace-free text in the fields, the second `.format(i)` turns the one `{}` into
      `str(i)` and copies everything else. */
  lemma {:induction false} FmtFill(segs: seq<Segment>, ids: string, f: string, i: nat, n: Numbering)
    requires TemplateOk(segs) && BraceFree(ids) && BraceFree(f)
    requires IndexCount(segs) == 1 ==> n == Unnumbered
    ensures Fmt(Fill(segs, ids, f, "{}"), i, n)
            == Some((Fill(segs, ids, f, NatToString(i)), if IndexCount(segs) == 1 then Automatic else n))
  {
    if segs != [] {
      var s := segs[0];
      var rest := segs[1..];
      assert TemplateOk(rest) by {
        forall j | 0 <= j < |rest| && rest[j].Literal? ensures BraceFree(rest[j].text) {
          assert rest[j] == segs[j + 1];
        }
      }
      if s == IndexField {
        FmtPlaceholder(i);
        FmtConcat("{}", Fill(rest, ids, f, "{}"), i, n);
        FmtFill(rest, ids, f, i, Automatic);
      } else {
        assert s.Literal? ==> BraceFree(segs[0].text);
        FmtPlain(Piece(s, ids, f, "{}"), i, n);
        FmtConcat(Piece(s, ids, f, "{}"), Fill(rest, ids, f, "{}"), i, n);
        FmtFill(rest, ids, f, i, n);
      }
    }
  }

  /** The binding lines, and so the IDS text, have no braces. */
  lemma {:induction false} BindingsBraceFree(ls: seq<LexResult>, n: nat)
    requires n <= |ls| && forall j :: 0 <= j < |ls| ==> Emittable(ls[j])
    ensures forall j :: 0 <= j < |Bindings(ls, n)| ==> BraceFree(Bindings(ls, n)[j])
  {
    if n > 0 {
      BindingsBraceFree(ls, n - 1);
      if ls[n - 1].kind == IdRef {
        BindingBraceFree(ls[n - 1].choice, n - 1);
      }
    }
  }

  lemma SeqIdsBraceFree(sq: SeqResult)
    requires SeqEmittable(sq)
    ensures BraceFree(SeqIds(sq))
  {
    BindingsBraceFree(sq.lexers, |sq.lexers|);
    JoinBraceFree(IdSep(), Bindings(sq.lexers, |sq.lexers|));
  }

  /** The handler loop as written gives the intended piece whenever the template is tidy and
      the action has no braces. */
  lemma HandlerAsWrittenAgrees(t: Templates, sq: SeqResult, i: nat)
    requires TemplateOk(t.choice) && SeqEmittable(sq) && BraceFree(FunctionText(sq.action))
    ensures HandlerAsWritten(t, sq, i) == Some(HandlerAt(t, sq, i))
  {
    SeqIdsBraceFree(sq);
    FmtFill(t.choice, SeqIds(sq), FunctionText(sq.action), i, Unnumbered);
  }

  /** An action the grammar accepts, `{'a': 1}` followed by anything, makes the handler loop as
      written raise, while the intended piece holds the action verbatim; `pre` is the template
      up to its first FUNCTION field. */
  lemma BracedActionRaises(t: Templates, sq: SeqResult, i: nat, pre: seq<Segment>, post: seq<Segment>, tail: string)
    requires t.choice == pre + ([FunctionField] + post) && TemplateOk(t.choice) && SeqEmittable(sq)
    requires forall j :: 0 <= j < |pre| ==> pre[j] != FunctionField
    requires sq.action == Some("{'a': 1}" + tail)
    ensures HandlerAsWritten(t, sq, i) == None
    ensures var f := sq.action.value;
            HandlerAt(t, sq, i) == Fill(pre, SeqIds(sq), f, NatToString(i)) + (f + Fill(post, SeqIds(sq), f, NatToString(i)))
  {
    var f := sq.action.value;
    var ids := SeqIds(sq);
    SeqIdsBraceFree(sq);
    BracedExample(tail);
    BracedTemplateRaises(t.choice, pre, post, ids, f, i);
    FillAround(pre, post, ids, f, NatToString(i));
  }

  /** The template filled as written, with an action that opens a field other than `{}` and
      `{0}`, raises at the second `.format(i)`. */
  lemma BracedTemplateRaises(segs: seq<Segment>, pre: seq<Segment>, post: seq<Segment>, ids: string, f: string, i: nat)
    requires segs == pre + ([FunctionField] + post) && TemplateOk(segs) && BraceFree(ids)
    requires forall j :: 0 <= j < |pre| ==> pre[j] != FunctionField
    requires BadField(f)
    ensures Format(Fill(segs, ids, f, "{}"), i) == None
  {
    FillAround(pre, post, ids, f, "{}");
    PrefixOk(pre, [FunctionField] + post);
    FmtFillSome(pre, ids, f, i);
    BadFieldExtends(f, Fill(post, ids, f, "{}"));
    PrefixThenBad(Fill(pre, ids, f, "{}"), f + Fill(post, ids, f, "{}"), i);
  }

  lemma FillAround(pre: seq<Segment>, post: seq<Segment>, ids: string, f: string, index: string)
    ensures Fill(pre + ([FunctionField] + post), ids, f, index)
            == Fill(pre, ids, f, index) + (f + Fill(post, ids, f, index))
  {
    FillConcat(pre, [FunctionField] + post, ids, f, index);
    assert ([FunctionField] + post)[1..] == post;
  }

  /** A prefix of a tidy template is tidy. */
  lemma PrefixOk(x: seq<Segment>, y: seq<Segment>)
    requires TemplateOk(x + y)
    ensures TemplateOk(x)
  {
    assert forall j :: 0 <= j < |x| ==> x[j] == (x + y)[j];
    FillCountConcat(x, y);
  }

  lemma {:induction false} FillCountConcat(x: seq<Segment>, y: seq<Segment>)
    ensures IndexCount(x + y) == IndexCount(x) + IndexCount(y)
  {
    if x == [] {
      assert x + y == y;
    } else {
      assert (x + y)[1..] == x[1..] + y;
      FillCountConcat(x[1..], y);
    }
  }

  /** A tidy template's prefix formats without raising, whatever the placeholder count. */
  lemma FmtFillSome(segs: seq<Segment>, ids: string, f: string, i: nat)
    requires TemplateOk(segs) && BraceFree(ids)
    requires forall j :: 0 <= j < |segs| ==> segs[j] != FunctionField
    ensures Fmt(Fill(segs, ids, f, "{}"), i, Unnumbered).Some?
  {
    FillWithout(segs, ids, f, "{}");
    FmtFill(segs, ids, "", i, Unnumbered);
  }

  /** Without a FUNCTION field, the action does not matter. */
  lemma {:induction false} FillWithout(segs: seq<Segment>, ids: string, f: string, index: string)
    requires forall j :: 0 <= j < |segs| ==> segs[j] != FunctionField
    ensures Fill(segs, ids, f, index) == Fill(segs, ids, "", index)
  {
    if segs != [] {
      FillWithout(segs[1..], ids, f, index);
    }
  }

  /** Text that starts with a replacement field `str.format` cannot fill from one positional
      argument: a field whose name is neither empty nor a run of zeros. */
  predicate BadField(s: string) {
    |s| >= 2 && s[0] == '{' && s[1] != '{' && FindFrom(s, '}', 1).Some?
    && s[1..FindFrom(s, '}', 1).value] != "" && !ZeroName(s[1..FindFrom(s, '}', 1).value])
  }

  /** Whatever formats cleanly, followed by a bad field, raises. */
  lemma PrefixThenBad(front: string, back: string, i: nat)
    requires Fmt(front, i, Unnumbered).Some? && BadField(back)
    ensures Format(front + back, i) == None
  {
    FmtConcat(front, back, i, Unnumbered);
    BadFieldRaises(back, i, Fmt(front, i, Unnumbered).value.1);
  }

  lemma BadFieldRaises(s: string, i: nat, n: Numbering)
    requires BadField(s)
    ensures Fmt(s, i, n) == None
  {
  }

  lemma BadFieldExtends(s: string, y: string)
    requires BadField(s)
    ensures BadField(s + y)
  {
    FindPrefix(s, y, '}', 1);
    var k := FindFrom(s, '}', 1).value;
    assert (s + y)[1..k] == s[1..k];
  }

  /** `{'a': 1}` opens such a field. */
  lemma BracedExample(tail: string)
    ensures BadField("{'a': 1}" + tail)
  {
    var s := "{'a': 1}" + tail;
    assert forall j :: 1 <= j < 7 ==> s[j] == "{'a': 1}"[j];
    FindFromIs(s, '}', 1, 7);
    assert s[1..7] == "'a': 1";
  }

  // ---- RuleResult ----------------------------------------------------------------------

  predicate RuleEmittable(r: RuleResult) {
    r.id != [] && forall j :: 0 <= j < |r.sequences| ==> SeqEmittable(r.sequences[j])
  }

  function SeqParsers(sqs: seq<SeqResult>): (r: seq<string>)
    requires forall j :: 0 <= j < |sqs| ==> SeqEmittable(sqs[j])
    ensures |r| == |sqs|
    ensures forall j :: 0 <= j < |sqs| ==> r[j] == SeqGenParser(sqs[j])
  {
    if sqs == [] then [] else [SeqGenParser(sqs[0])] + SeqParsers(sqs[1..])
  }

  function RuleSep(): string { "|\n" + "        " }

  /** `RuleResult.gen_parser`: the alternatives' expressions joined by `|` and a line break. */
  function RuleGenParser(t: Templates, r: RuleResult): string
    requires RuleEmittable(r)
  {
    t.parse(Join(RuleSep(), SeqParsers(r.sequences)))
  }

  /** One more alternative adds the separator and its expression at the end. */
  lemma RuleGenParserSnoc(t: Templates, id: string, sqs: seq<SeqResult>, sq: SeqResult)
    requires sqs != [] && RuleEmittable(RuleResult(id, sqs)) && SeqEmittable(sq)
    ensures RuleEmittable(RuleResult(id, sqs + [sq]))
    ensures RuleGenParser(t, RuleResult(id, sqs + [sq]))
            == t.parse(Join(RuleSep(), SeqParsers(sqs)) + RuleSep() + SeqGenParser(sq))
  {
    var sqs2 := sqs + [sq];
    assert forall j :: 0 <= j < |sqs2| ==> SeqEmittable(sqs2[j]);
    assert SeqParsers(sqs2) == SeqParsers(sqs) + [SeqGenParser(sq)];
    JoinSnoc(RuleSep(), SeqParsers(sqs), SeqGenParser(sq));
  }

  /** The first n values of `f`, in order. */
  function Tabulate(n: nat, f: nat -> string): (r: seq<string>)
    ensures |r| == n
  {
    if n == 0 then [] else Tabulate(n - 1, f) + [f(n - 1)]
  }

  lemma {:induction false} TabulateAt(n: nat, f: nat -> string, j: nat)
    requires j < n
    ensures Tabulate(n, f)[j] == f(j)
  {
    if j < n - 1 {
      TabulateAt(n - 1, f, j);
    }
  }

  /** Functions that agree on the first n values tabulate alike. */
  lemma {:induction false} TabulateSame(n: nat, f: nat -> string, h: nat -> string)
    requires forall j :: 0 <= j < n ==> f(j) == h(j)
    ensures Tabulate(n, f) == Tabulate(n, h)
  {
    if n > 0 {
      TabulateSame(n - 1, f, h);
    }
  }

  /** Alternative j's handler piece, holding its position j. */
  function PieceAt(t: Templates, sqs: seq<SeqResult>): nat -> string {
    (j: nat) => if j < |sqs| then HandlerAt(t, sqs[j], j) else ""
  }

  /** The handler pieces of the first n alternatives. */
  function HandlerParts(t: Templates, sqs: seq<SeqResult>, n: nat): (r: seq<string>)
    requires n <= |sqs|
    ensures |r| == n
  {
    Tabulate(n, PieceAt(t, sqs))
  }

  /** Piece j is alternative j's handler with its index filled in as j. */
  lemma HandlerPartsAt(t: Templates, sqs: seq<SeqResult>, n: nat, j: nat)
    requires j < n <= |sqs|
    ensures HandlerParts(t, sqs, n)[j] == HandlerAt(t, sqs[j], j)
  {
    TabulateAt(n, PieceAt(t, sqs), j);
  }

  function RuleHandlerText(t: Templates, r: RuleResult): string {
    t.handler(Concat(HandlerParts(t, r.sequences, |r.sequences|)))
  }

  /** `RuleResult.gen_handler`, with each alternative's piece formatted as intended. */
  method RuleGenHandler(t: Templates, r: RuleResult) returns (code: string)
    requires RuleEmittable(r)
    ensures code == RuleHandlerText(t, r)
  {
    var parsers: seq<string> := [];
    var i := 0;
    while i < |r.sequences|
      invariant 0 <= i <= |r.sequences|
      invariant parsers == HandlerParts(t, r.sequences, i)
    {
      var h := SeqGenHandlerAt(t, r.sequences[i], i);
      parsers := parsers + [h];
      i := i + 1;
    }
    code := t.handler(Concat(parsers));
  }

  /** The class text `RuleResult.gen_code` returns. */
  function RuleCode(t: Templates, r: RuleResult): string
    requires RuleEmittable(r)
  {
    t.classCode(Id2Class(r.id), RuleHandlerText(t, r), RuleGenParser(t, r))
  }

  /** `RuleResult.gen_code`. */
  method RuleGenCode(t: Templates, r: RuleResult) returns (code: string)
    requires RuleEmittable(r)
    ensures code == RuleCode(t, r)
  {
    var parser := RuleGenParser(t, r);
    var handler := RuleGenHandler(t, r);
    code := t.classCode(Id2Class(r.id), handler, parser);
  }

  // ---- GrammarResult -------------------------------------------------------------------

  predicate GrammarEmittable(g: GrammarResult) {
    forall j :: 0 <= j < |g.rules| ==> RuleEmittable(g.rules[j])
  }

  /** Rule j's class text. */
  function ClassOf(t: Templates, rules: seq<RuleResult>): nat -> string {
    (j: nat) => if j < |rules| && RuleEmittable(rules[j]) then RuleCode(t, rules[j]) else ""
  }

  /** The class texts of the rules, in rule order. */
  function Classes(t: Templates, rules: seq<RuleResult>): (r: seq<string>)
    ensures |r| == |rules|
  {
    Tabulate(|rules|, ClassOf(t, rules))
  }

  lemma ClassesAt(t: Templates, rules: seq<RuleResult>, j: nat)
    requires j < |rules| && RuleEmittable(rules[j])
    ensures Classes(t, rules)[j] == RuleCode(t, rules[j])
  {
    TabulateAt(|rules|, ClassOf(t, rules), j);
  }

  /** `GrammarResult.gen_parser`: one parser text per rule; `ModuleFromLists` says what each
      one is for. */
  function GrammarGenParser(t: Templates, g: GrammarResult): (r: seq<string>)
    requires GrammarEmittable(g)
    ensures |r| == |g.rules|
  {
    seq(|g.rules|, j requires 0 <= j < |g.rules| => RuleGenParser(t, g.rules[j]))
  }

  /** Rule j's handler text. */
  function HandlerOf(t: Templates, rules: seq<RuleResult>): nat -> string {
    (j: nat) => if j < |rules| then RuleHandlerText(t, rules[j]) else ""
  }

  /** `GrammarResult.gen_handler`: one handler text per rule; `ModuleFromLists` says what
      each one is for. */
  function GrammarGenHandler(t: Templates, g: GrammarResult): (r: seq<string>)
    ensures |r| == |g.rules|
  {
    Tabulate(|g.rules|, HandlerOf(t, g.rules))
  }

  /** The lists `gen_parser` and `gen_handler` return are the parts of the classes `gen_code`
      writes: rule j's class is the class template filled with its class name, entry j of the
      handler list and entry j of the parser list. */
  lemma ModuleFromLists(t: Templates, g: GrammarResult, j: nat)
    requires GrammarEmittable(g) && j < |g.rules|
    ensures Classes(t, g.rules)[j]
            == t.classCode(Id2Class(g.rules[j].id), GrammarGenHandler(t, g)[j], GrammarGenParser(t, g)[j])
  {
    TabulateAt(|g.rules|, HandlerOf(t, g.rules), j);
    ClassesAt(t, g.rules, j);
  }

  /** The file `gen_code` opens for writing: it starts empty and each write appends. */
  class OutFile {
    var written: string

    constructor ()
      ensures written == ""
    {
      written := "";
    }

    method Write(text: string)
      modifies this
      ensures written == old(written) + text
    {
      written := written + text;
    }
  }

  /** The whole generated module: PREFIX, one class per rule in rule order, then the suffix. */
  function ModuleText(t: Templates, g: GrammarResult): string
    requires GrammarEmittable(g)
  {
    t.prefix + Concat(Classes(t, g.rules)) + g.suffix
  }

  /** `[r.gen_code() for r in self.rules]` */
  method GenClasses(t: Templates, rules: seq<RuleResult>) returns (classes: seq<string>)
    requires forall j :: 0 <= j < |rules| ==> RuleEmittable(rules[j])
    ensures classes == Classes(t, rules)
  {
    classes := [];
    var i := 0;
    while i < |rules|
      invariant 0 <= i <= |rules|
      invariant classes == Tabulate(i, ClassOf(t, rules))
    {
      var c := RuleGenCode(t, rules[i]);
      classes := classes + [c];
      i := i + 1;
    }
  }

  /** `for class_ in classes: outpy.write(class_)` */
  method WriteAll(out: OutFile, parts: seq<string>)
    modifies out
    ensures out.written == old(out.written) + Concat(parts)
  {
    var k := 0;
    while k < |parts|
      invariant 0 <= k <= |parts|
      invariant out.written == old(out.written) + Concat(parts[..k])
    {
      assert parts[..k + 1] == parts[..k] + [parts[k]];
      ConcatSnoc(parts[..k], parts[k]);
      out.Write(parts[k]);
      k := k + 1;
    }
    assert parts[..k] == parts;
  }

  /** `GrammarResult.gen_code`: writes PREFIX, then every rule's class, then the suffix. */
  method GrammarGenCode(t: Templates, g: GrammarResult) returns (out: OutFile)
    requires GrammarEmittable(g)
    ensures fresh(out)
    ensures out.written == ModuleText(t, g)
  {
    out := new OutFile();
    out.Write(t.prefix);
    assert out.written == t.prefix;
    var classes := GenClasses(t, g.rules);
    WriteAll(out, classes);
    assert out.written == t.prefix + Concat(Classes(t, g.rules));
    out.Write(g.suffix);
  }

  /** Adding a rule adds its class right before the suffix. */
  lemma ModuleTextSnoc(t: Templates, g: GrammarResult, r: RuleResult)
    requires GrammarEmittable(g) && RuleEmittable(r)
    ensures GrammarEmittable(GrammarResult(g.rules + [r], g.suffix))
    ensures ModuleText(t, GrammarResult(g.rules + [r], g.suffix))
            == t.prefix + Concat(Classes(t, g.rules)) + RuleCode(t, r) + g.suffix
  {
    EmittableSnoc(g, r);
    var cs := Classes(t, g.rules);
    var c := RuleCode(t, r);
    ClassesSnoc(t, g.rules, r);
    ConcatSnoc(cs, c);
    Regroup4(t.prefix, Concat(cs), c, g.suffix);
  }

  lemma Regroup4(a: string, b: string, c: string, d: string)
    ensures a + (b + c) + d == a + b + c + d
  {
  }

  lemma EmittableSnoc(g: GrammarResult, r: RuleResult)
    requires GrammarEmittable(g) && RuleEmittable(r)
    ensures GrammarEmittable(GrammarResult(g.rules + [r], g.suffix))
  {
    var rules := g.rules + [r];
    forall j | 0 <= j < |rules| ensures RuleEmittable(rules[j]) {
      if j < |g.rules| {
        assert rules[j] == g.rules[j];
      }
    }
  }

  lemma ClassesSnoc(t: Templates, rules: seq<RuleResult>, r: RuleResult)
    requires RuleEmittable(r)
    ensures Classes(t, rules + [r]) == Classes(t, rules) + [RuleCode(t, r)]
  {
    var f, h := ClassOf(t, rules + [r]), ClassOf(t, rules);
    forall j | 0 <= j < |rules| ensures f(j) == h(j) {
      assert (rules + [r])[j] == rules[j];
    }
    TabulateSame(|rules|, f, h);
  }
}
