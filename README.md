# PyRD in Dafny

PyRD is a small recursive-descent parser-combinator runtime for Python, together with a
compiler that turns a PyRD grammar file into Python parser classes. This project models its
core and proves properties of that model:

- **The runtime** (`pyrd.py`, module `Pyrd` in `pyrd.dfy`):
  - `Parsed`, the outcome record. It is truthy when it has no error, and its result falls back
    to the parsed text when the given result is falsy.
  - `posIn`, the position of an outcome in its input.
  - The primitive parsers: the base `Parser`, `ParseOne`, `ParseA`, `ParseAny`, `ParseRE`,
    `ParseString`, `ParseInt` and `Spaces`.
  - The combinators: `ParseOr`, `ParseAnd`, `Ignore` and `SpacesAround`.
  - Parsers are values of the `Parser` datatype, interpreted by `Run`. `ParseAnd` and `ParseOr`
    are also classes whose `&`/`|` overloads extend their parser list in place, as the source
    does.
  - The fixed regular expressions the system uses are in `patterns.dfy`, with a matcher that
    is proved greedy and complete for each of them.
- **The grammar parser**, in both copies:
  - The top-level `pyrd_grammar.py` is modelled as `TopGrammar` and the package
    `pyrd/pyrd_grammar.py` as `PackageGrammar`, in `grammars.dfy`.
  - Their shared rules are in `GrammarRules` (`grammar.dfy`): `Rules`, `Rule`, `Sequences`,
    `Sequence`, `Function`, `PyLit`, `PyBrack`, `Lexers` and `Lexer`. A `Dialect` selects the
    one point where the copies differ, the `Regex` token.
  - Each rule is a function over the input that returns the value the Python class builds
    (a `LexResult`, `SeqResult`, `RuleResult` or grammar result).
  - The lemmas connect each rule to the combinator semantics it is written in: order of
    results, maximal munch, which token kind wins, and balanced braces in action code.
- **The code generator** (`pyrd_gen.py`, module `Gen` in `gen.dfy`):
  - `id2class`.
  - The `gen_parser`, `gen_handler` and `gen_code` methods of the four result classes.
  - Writing the module to a file, modelled as an `OutFile` object that accumulates text.
  - The loops of the source are methods proved against functions that give the text they
    build.
  - The template strings are parameters (`Templates`), so the emitted structure is stated
    independently of their contents. `CHOICE_TEMPLATE` is a sequence of literal text and its
    `{IDS}`, `{FUNCTION}` and `{}` fields, because the handler text is formatted a second
    time.
  - Python's `str.format` with one positional argument is modelled in `format.dfy`
    (`PyFormat`): doubled braces, `{}` and `{0}`, and None wherever Python raises.
- **The pipeline** (`pipeline.dfy`): every grammar that the package grammar parser accepts
  satisfies the emitter's preconditions.

`ast.dfy` holds the storage classes shared by the parser and the emitter. `text.dfy` holds
the Python string and list operations used throughout (`[::-1]`, `join`, `count`, `rfind`,
`int`, `str`).

The source needs some reading before it can be modelled. These readings are what the model
follows:

- `ParseObjectEither` stores `result` and `index`. The grammar parsers read `.choice` on it;
  that is read as the stored `result`.
- `Id`, `PyStr`, `Regex` and `PySuffix` subclass `ParseRE` and set only a class attribute
  `regex`, while `ParseRE.parse` uses `_regex`. They are read as `ParseRE` over that pattern.
- The package `Regex` and `PySuffix` patterns put their capture group under `*`, so
  `match.group(1)` holds only the last repetition. Both halves are modelled: the text as
  written in `Patterns.RegexGroupAsWritten` and `Patterns.SuffixGroupAsWritten`, and the
  evident intent (the body between the slashes, the whole remaining text) in `Patterns.Capture`,
  which `Pyrd.ParseRE` uses for the text it reports. See "## Findings".
- `Delim` is not defined in the runtime. It is modelled as `IgnoreSp` of `pyrd_json.py`:
  `Ignore(SpacesAround(ParseA(t)))`. `String` is read as `ParseString`.
- The top-level `Lexer` calls `LexResult(result)` with one argument, as `pyrd_gen.py` defines
  it (pyrd_gen.py:11-13). The package `Lexer` imports a `pyrd_gen` of its own package, which is
  not part of this model, and calls `LexResult(index, choice)` with two; against the one-argument
  constructor that call would raise TypeError. It is read as a constructor taking the index and
  the choice. Both are modelled as a `LexResult` holding the token kind and its text.
- The top-level `GrammarResult` holds only the rules (`TopGrammar.TopGrammarResult`). The
  package grammar builds the two-field `GrammarResult(rules, suffix)` that `pyrd_gen.py`
  defines (`Ast.GrammarResult`).
- The Python lists that the rules append to in place are freshly built by each call and are
  not shared, so the model builds them as sequence values.

## Model

| member | source | states |
|---|---|---|
| Pyrd.MkParsed | pyrd.py:20-29 | the outcome keeps parsed/left/error; it is truthy iff the error is empty; a falsy or missing result falls back to the parsed text |
| Pyrd.PosIn | pyrd.py:38-46 | posIn as written: undefined (ValueError) exactly when `left` is not a suffix of the input; the line counts newlines in the first \|left\| characters; the column is left to Pyrd.ColumnMeaning |
| Pyrd.ColumnMeaning | pyrd.py:45 | after a newline the column is one more than the characters behind it; on the first line it is the number of characters, one less, because `max(-1, 0)` is 0 |
| Pyrd.PosInConsumed | pyrd.py:38-46 | posIn with the consumed prefix: undefined exactly when `left` is not a suffix of the input |
| Pyrd.PosInConsumedLine | pyrd.py:43-44 | for input `before + left`, the corrected line is one more than the newlines in `before` |
| Pyrd.PosInMiscountsLines | pyrd.py:43-44 | on "a\nb\nc" with "c" left, posIn as written reports line 1, while the consumed text puts the stop on line 3 |
| Pyrd.PosInDefined | pyrd.py:38-46 | posIn, both as written and with the consumed prefix, never raises on the outcome of any parser run on the same input |
| Pyrd.ParseNothing | pyrd.py:55-58 | the base parser succeeds, consumes nothing and leaves its input |
| Pyrd.ParseOne | pyrd.py:70-74 | fails with "EOF" on empty input; otherwise it takes exactly the first character |
| Pyrd.ParseA | pyrd.py:81-86 | succeeds iff the input starts with the characters; then it consumes exactly them; otherwise "Expected chars" with nothing consumed |
| Pyrd.FirstPrefix | pyrd.py:92-94 | finds the first option that prefixes the input, and none before it does |
| Pyrd.ParseAny | pyrd.py:90-95 | succeeds iff some option prefixes the input, consuming the first such option; otherwise the error is "Expected one of " followed by Python's text of the option list, with nothing consumed |
| Pyrd.Reprs | pyrd.py:95 | the option list is shown by the repr of each option, in order |
| Pyrd.ReprRoundTrip | pyrd.py:95 | every string's repr is quoted with the quote Python chooses, and its body unescapes back to the string |
| Pyrd.ReprQuoteExample | pyrd.py:95 | an option holding a single quote is shown in double quotes: `["it's"]` |
| Pyrd.ReprListExample | pyrd.py:95 | two options are shown as `['a', 'b']` |
| Pyrd.ParseRE | pyrd.py:102-109 | succeeds iff the pattern matches a prefix; leaves the text after the whole match; reports group 1 for the quoted and slashed patterns, the whole match for patterns without a group, and for the two patterns with a group under `*` the intended text recorded under Findings; otherwise "Expected match of /pattern/" |
| Pyrd.ParseStringReads | pyrd.py:200-203 | a double-quoted text without inner quotes is read whole; parsed text and result are what lies between the quotes, and the rest is left; input not opening with a quote fails and is left as it was |
| Pyrd.ParseInt | pyrd.py:205-214 | succeeds iff an optionally signed digit run starts the input; its result is that integer; a failure is ParseRE's failure |
| Pyrd.ParseIntRoundTrip | pyrd.py:205-214 | parsing the decimal text of any integer, followed by a non-digit, gives back the integer and leaves the rest |
| Pyrd.ParseSpaces | pyrd.py:232-236 | Spaces always succeeds, consumes the longest run of space, tab and newline, and its result is ignored |
| Pyrd.Run | pyrd.py:187-245 | running any parser never leaves more than its input |
| Pyrd.RunSuffix | pyrd.py:41 | what any parser leaves is a suffix of its input |
| Pyrd.RunConsumes | pyrd.py:165-177 | a parser built only from consuming parts leaves strictly less on success; the recursive grammar rules terminate because of this |
| Pyrd.AndSucceedsIff | pyrd.py:169-177 | `a & b & …` succeeds iff every part succeeds, each on what the previous part left |
| Pyrd.AndSuccess | pyrd.py:169-177 | on success ParseAnd joins the parsed texts, leaves what the last part left, and collects the non-ignored results in order |
| Pyrd.AndFailure | pyrd.py:170-172 | on failure ParseAnd's outcome is the first failing part's own outcome, and all parts before it succeeded |
| Pyrd.AndFromRuns | pyrd.py:167-177 | the ParseAnd loop, from any part on, equals running the parts one after another and stopping at the first failure |
| Pyrd.SequencingIdentity | pyrd.py:165-177 | `a & b` succeeds iff a succeeds and b succeeds on what a left; it consumes both texts; a's failure is returned unchanged |
| Pyrd.OrSemantics | pyrd.py:131-138 | ParseOr succeeds iff some alternative does; it returns the first success tagged with its index; when all fail it returns the last failure |
| Pyrd.OrFromWinner | pyrd.py:133-137 | from any alternative on, a success is the first succeeding alternative's own outcome, tagged with its index, and every alternative before it failed |
| Pyrd.SpacesAroundIsAnd | pyrd.py:242-245 | SpacesAround(p) behaves exactly as `Spaces() & p & Spaces()` |
| Pyrd.SpacesAroundFailure | pyrd.py:242-245 | SpacesAround(p) fails iff p fails after the leading spaces, and then its outcome is p's |
| Pyrd.SpacesAroundResult | pyrd.py:150-152 | the result list of SpacesAround(p) holds p's result alone, or nothing when p's result is ignored |
| Pyrd.SpacesAroundText | pyrd.py:242-245 | on success SpacesAround(p) consumes the spaces on both sides of p |
| Pyrd.ChainAndFlat | pyrd.py:64-66 | `a & b` on a parser that is not a ParseAnd makes a new ParseAnd of the two, and every further `&` extends it: `a & b & c …` is one flat ParseAnd over the parsers in order |
| Pyrd.ChainOrFlat | pyrd.py:60-62 | `a \| b` on a parser that is not a ParseOr makes a new ParseOr of the two, and every further `\|` extends it: `a \| b \| c …` is one flat ParseOr over the parsers in order |
| Pyrd.FlatAndResults | pyrd.py:179-181 | because of that flattening, `A & B & C` gives the flat result list [a, b, c], where a nested And would give [[a, b], c] |
| Pyrd.ParseAnd.constructor | pyrd.py:162-163 | a new ParseAnd holds the two parsers in order |
| Pyrd.ParseAnd.AndWith | pyrd.py:179-181 | `&` appends the parser in place and returns the same object, and that is the chained And |
| Pyrd.ParseAnd.Parse | pyrd.py:165-177 | the loop computes the sequential semantics of the parser list |
| Pyrd.ParseOr.constructor | pyrd.py:128-129 | a new ParseOr holds the two parsers in order |
| Pyrd.ParseOr.OrWith | pyrd.py:140-142 | `\|` appends the parser in place and returns the same object, and that is the chained Or |
| Pyrd.ParseOr.Parse | pyrd.py:131-138 | the loop computes the ordered-choice semantics of the parser list |
| Patterns.Scan | pyrd.py:104 | a successful match ends at a position where the pattern matches the prefix |
| Patterns.ScanGreedy | pyrd.py:104 | no longer prefix matches than the one found |
| Patterns.ScanComplete | pyrd.py:104-105 | when no match is found, no prefix matches |
| Patterns.EscCloseIsLast | pyrd/pyrd_grammar.py:120 | the escaped-slash regex closes at the last slash that still leaves a valid body |
| Patterns.EscapedSlashExample | pyrd/pyrd_grammar.py:119-121 | `/a\/b/` is read whole, and its body keeps the escaped slash |
| Patterns.EscapedSlashBacktracks | pyrd/pyrd_grammar.py:120 | on `/a\/` the regex backtracks and closes at the escaped slash, as Python's backtracking matcher does |
| Patterns.SuffixGroupAsWritten | pyrd.py:106 | `match.group(1)` of the PySuffix pattern as written is None on an empty match and otherwise only the last character |
| Patterns.SuffixGroupLoses | pyrd/pyrd_grammar.py:18-19 | for every remaining text of two or more characters, group 1 as written is not the whole text |
| Patterns.RegexGroupAsWritten | pyrd.py:106 | `match.group(1)` of the package Regex pattern as written is None for `//` and otherwise only the last repetition, one character or an escaped slash |
| Patterns.RegexGroupLoses | pyrd/pyrd_grammar.py:119-121 | on `/ab/` group 1 as written is "b", while the body between the slashes is "ab" |
| Ast.Index | pyrd_grammar.py:12 | a LexResult's index is 0, 1 or 2 and names its token kind |
| GrammarRules.DelimMeaning | pyrd_json.py:3-4 | a delimiter succeeds iff its text follows the leading spaces; it then leaves the text after the trailing spaces, and its result is ignored |
| GrammarRules.DelimShrinks | pyrd_json.py:3-4 | a non-empty delimiter consumes input |
| GrammarRules.LexerShrinks | pyrd_grammar.py:146 | a lexer item consumes input |
| GrammarRules.LexerShape | pyrd_grammar.py:146-148 | a successful lexer item's result holds the tagged token that won the three-way Or |
| GrammarRules.TokenWinner | pyrd_grammar.py:146 | the winning token's index is the first of the three token patterns that matches |
| GrammarRules.Rules | pyrd_grammar.py:54-65 | Rules consumes input on success and returns at least one rule |
| GrammarRules.Rule | pyrd_grammar.py:67-72 | a rule's name is an identifier and it has at least one alternative |
| GrammarRules.Sequences | pyrd_grammar.py:74-86 | Sequences consumes input on success and returns at least one alternative |
| GrammarRules.Sequence | pyrd_grammar.py:88-100 | an alternative has at least one lexer item, and its action text has balanced braces |
| GrammarRules.Function | pyrd_grammar.py:102-107 | a successful action read consumes input and its text has balanced braces |
| GrammarRules.PyLit | pyrd_grammar.py:109-118 | PyLit always succeeds, never leaves more than its input, and its text has balanced braces |
| GrammarRules.PyBrack | pyrd_grammar.py:124-130 | a successful bracketed literal consumes input and its text is balanced |
| GrammarRules.PlainReads | pyrd_grammar.py:109-118 | PyLit's second case: brace-free text followed by the end or `}` is all PyLit reads, and its value is that text |
| GrammarRules.GroupStep | pyrd_grammar.py:109-118 | PyLit's first case: brace-free text followed by a group PyBrack reads gives the text, the group's value and PyLit's value on what follows the group, in that order |
| GrammarRules.PyBrackReads | pyrd_grammar.py:124-130 | a group `{` tidy literal `}` is read whole, its value keeps the two braces around the literal's text, and what follows is left |
| GrammarRules.PyLitReads | pyrd_grammar.py:109-118 | the text of a tidy literal, followed by the end or `}`, is read back exactly, and the `}` or end is left |
| GrammarRules.FunctionReads | pyrd_grammar.py:102-107 | `{`, the text of a tidy literal and `}` are read as an action whose value is that text, and the blank space after the closing brace is consumed |
| GrammarRules.BalancedShape | pyrd_grammar.py:109-130 | every balanced text with no blank space right after a brace is the text of a tidy literal, the shape PyLit and PyBrack read |
| GrammarRules.PyLitReadsBalanced | pyrd_grammar.py:109-118 | PyLit reads back every balanced text with no blank space right after a brace, when the end or `}` follows |
| GrammarRules.FunctionReadsBalanced | pyrd_grammar.py:102-107 | for every balanced text t with no blank space right after a brace and none at its start, `{` t `}` is read as an action whose value is exactly t |
| GrammarRules.BracedActionRead | pyrd_grammar.py:102-107 | an action that is one brace group around brace-free text, such as `{{'a': 1}}`, is accepted and its text keeps the inner braces |
| GrammarRules.Lexers | pyrd_grammar.py:132-142 | Lexers consumes input on success and returns at least one item |
| GrammarRules.Lexer | pyrd_grammar.py:144-149 | Lexer consumes input on success |
| GrammarRules.RulesInOrder | pyrd_grammar.py:56-64 | Rules' list reversed starts with the first rule, followed by the rest in source order |
| GrammarRules.SequencesInOrder | pyrd_grammar.py:76-84 | Sequences' list reversed starts with the first alternative, followed by the rest in order |
| GrammarRules.LexersInOrder | pyrd_grammar.py:134-141 | Lexers' list reversed starts with the first item, followed by the rest in order |
| GrammarRules.RulesMaximal | pyrd_grammar.py:56-57 | Rules stops only where no further rule and `;` can be read |
| GrammarRules.SequencesMaximal | pyrd_grammar.py:76-77 | Sequences stops only where no `\|` and further alternative can be read |
| GrammarRules.LexersMaximal | pyrd_grammar.py:134 | Lexers stops only where no further lexer item can be read |
| GrammarRules.PyLitMaximal | pyrd_grammar.py:111-112 | PyLit stops only where no bracketed literal follows |
| GrammarRules.LexerSucceeds | pyrd_grammar.py:146 | a lexer item is read iff an identifier, a string literal or a regex starts after the spaces |
| GrammarRules.LexerKinds | pyrd_grammar.py:146-148 | the item's kind is the first of identifier, string, regex that matches, and its text is that pattern's capture |
| GrammarRules.SequenceFirstItem | pyrd_grammar.py:90-99 | an alternative's first item is the lexer item read at the start of its text |
| GrammarRules.SequenceReadsAction | pyrd_grammar.py:90-99 | when a brace-balanced `{` t `}` follows the items, the alternative's action is exactly t, and the blank space after it is consumed |
| GrammarRules.FunctionFramed | pyrd_grammar.py:104 | an action is read iff `{`, a literal and `}` follow one another |
| GrammarRules.RegexToken | pyrd/pyrd_grammar.py:119-121 | a regex token sits between two slashes; its body has no slash (top level) or only escaped slashes (package) |
| GrammarRules.NoBracesBalanced | pyrd_grammar.py:121-122 | text without braces is balanced |
| GrammarRules.BalancedConcat | pyrd_grammar.py:115 | joining balanced texts keeps them balanced |
| GrammarRules.BalancedWrap | pyrd_grammar.py:129 | wrapping balanced text in braces keeps it balanced |
| TopGrammar.Grammar | pyrd_grammar.py:47-52 | a grammar between `%%` delimiters has at least one rule |
| TopGrammar.GrammarFramed | pyrd_grammar.py:49-51 | the grammar is read iff `%%`, the rules and `%%` follow one another; its first rule is the first rule of the text |
| PackageGrammar.PySuffixTakesAll | pyrd/pyrd_grammar.py:18-19 | PySuffix takes all of the remaining input |
| PackageGrammar.Grammar | pyrd/pyrd_grammar.py:9-16 | on success the grammar consumes the whole input and has at least one rule |
| PackageGrammar.GrammarSuffix | pyrd/pyrd_grammar.py:11-15 | the grammar is read iff the rules are read and `%%` follows; the suffix is everything after `%%` and its spaces; the first rule is the first of the text |
| Gen.Id2Class | pyrd_gen.py:7-8 | only the first character changes, and it is upper-cased from a lower-case ASCII letter |
| Gen.Id2ClassIdempotent | pyrd_gen.py:7-8 | applying id2class twice is applying it once |
| Gen.Id2ClassMerges | pyrd_gen.py:7-8 | `expr` and `Expr` give the same class name |
| Gen.LexGenParserRoundTrip | pyrd_gen.py:19-26 | the emitted parser fragment can be read back into the item's kind and text, with the class name for a rule reference |
| Gen.LexGenHandler | pyrd_gen.py:28-31 | a handler line exists exactly for rule references |
| Gen.FormatBinding | pyrd_gen.py:49-51 | formatting the handler line with the index binds the name to that position |
| Gen.LexParsers | pyrd_gen.py:44 | one parser fragment per item, in order |
| Gen.SeqGenParserSnoc | pyrd_gen.py:43-44 | one more item adds ` & ` and its fragment at the end |
| Gen.SeqGenParserLength | pyrd_gen.py:44 | the parser text is the fragments plus one ` & ` between each two |
| Gen.BindingsExact | pyrd_gen.py:47-51 | the bindings are exactly the rule references, each bound to its own position |
| Gen.BindingsNone | pyrd_gen.py:47-51 | an alternative without rule references binds nothing |
| Gen.GenBindings | pyrd_gen.py:47-51 | the binding loop collects the formatted handler line of each rule reference, in item order |
| Gen.SeqGenHandler | pyrd_gen.py:46-53 | the handler of an alternative is the choice template with the joined bindings as IDS and the action as FUNCTION, still holding the index placeholder |
| Gen.SeqGenHandlerAt | pyrd_gen.py:46-53 | the intended handler piece of alternative i is the choice template with the bindings, the action and str(i) in the index field |
| PyFormat.FmtPlain | pyrd_gen.py:73 | `.format(i)` copies text without braces unchanged |
| PyFormat.FmtConcat | pyrd_gen.py:73 | `.format(i)` reads left to right: a formatted prefix is followed by the rest formatted from the numbering state the prefix left |
| PyFormat.FmtPlaceholder | pyrd_gen.py:51 | the one `{}` becomes str(i) and switches to automatic numbering |
| PyFormat.TwoPlaceholdersRaise | pyrd_gen.py:73 | a second `{}` asks for a second argument, so `.format(i)` raises |
| PyFormat.JoinBraceFree | pyrd_gen.py:52 | joining brace-free lines with a brace-free separator gives brace-free text |
| Gen.FmtFill | pyrd_gen.py:73 | with brace-free IDS and FUNCTION texts, the second `.format(i)` of a filled template turns its one `{}` into str(i) and copies everything else |
| Gen.HandlerAsWrittenAgrees | pyrd_gen.py:73 | when the action has no braces, the handler piece as written (formatted twice) exists and equals the intended piece |
| Gen.BracedActionRaises | pyrd_gen.py:73 | an action starting `{'a': 1}`, which the grammar accepts, makes the piece as written raise, while the intended piece holds the action verbatim |
| Gen.SeqParsers | pyrd_gen.py:66 | one parser text per alternative, in order |
| Gen.RuleGenParserSnoc | pyrd_gen.py:65-68 | one more alternative adds the separator and its parser text at the end |
| Gen.HandlerPartsAt | pyrd_gen.py:72-73 | part j of the handler loop is alternative j's intended handler piece for index j |
| Gen.RuleGenHandler | pyrd_gen.py:70-75 | the loop result is HANDLER_TEMPLATE applied to the concatenation of the intended pieces of all alternatives, piece j for index j |
| Gen.ClassesAt | pyrd_gen.py:104 | class j of the module is the class code of rule j |
| Gen.ModuleFromLists | pyrd_gen.py:77-99 | class j is CLASS_TEMPLATE applied to rule j's class name, its entry in the grammar's handler list and its entry in the grammar's parser list |
| Gen.GrammarGenParser | pyrd_gen.py:93-95 | the list holds one parser text per rule; Gen.ModuleFromLists states which class each one enters |
| Gen.GrammarGenHandler | pyrd_gen.py:97-99 | the list holds one handler text per rule; Gen.ModuleFromLists states which class each one enters |
| Gen.OutFile.constructor | pyrd_gen.py:102 | a newly opened output holds nothing |
| Gen.OutFile.Write | pyrd_gen.py:103 | a write appends its text |
| Gen.GenClasses | pyrd_gen.py:104 | the comprehension builds exactly the module's class list, class j from rule j |
| Gen.WriteAll | pyrd_gen.py:105-106 | writing the parts appends their concatenation |
| Gen.GrammarGenCode | pyrd_gen.py:101-107 | the file holds the prefix, then every rule's class in order, then the suffix |
| Gen.ModuleTextSnoc | pyrd_gen.py:101-107 | one more rule adds its class just before the suffix |
| Gen.ClassesSnoc | pyrd_gen.py:104 | one more rule adds its class code at the end of the class list |
| Pipeline.NamedItemEmittable | pyrd_gen.py:19-31 | an item the lexer can read satisfies what the emitter needs of it |
| Pipeline.LexerNamed | pyrd/pyrd_grammar.py:111-117 | every lexer item the lexer reads is emittable |
| Pipeline.LexersNamed | pyrd/pyrd_grammar.py:99-109 | every item of a lexer list is emittable |
| Pipeline.SequenceEmittable | pyrd/pyrd_grammar.py:55-67 | every alternative read is emittable |
| Pipeline.SequencesEmittable | pyrd/pyrd_grammar.py:41-53 | every alternative of a list is emittable |
| Pipeline.RuleReadEmittable | pyrd/pyrd_grammar.py:34-39 | every rule read is emittable |
| Pipeline.RulesEmittable | pyrd/pyrd_grammar.py:21-32 | every rule of the list is emittable |
| Pipeline.GrammarEmittableWhenRead | pyrd/pyrd_grammar.py:9-16 | every grammar the package parser accepts has non-empty rule names and non-empty, brace-free rule references, which is what the emitter needs of them; braced actions are the one thing it does not cover, see Findings |

## Left out

- Reading the grammar file, `__main__` and `setup.py`: I/O and packaging. `gen_code`'s file is an `OutFile` holding the written text, and its path is dropped.
- The contents of `templates.py` are not part of this model. The templates are parameters, so the emitted text is stated in terms of them.
- Gen.HandlerAsWrittenAgrees: it requires the choice template to be brace-free outside its fields and to hold at most one `{}` (`TemplateOk`), because the template's text is not part of this model.
- `Parser.PARSES`: a global call counter with no effect on outcomes.
- `ParseFloat`: it needs floating point. `ParseBool` refers to an undefined name `BOOL_RE`, so it cannot run.
- The `__repr__` methods, and `Parsed.err`, which only formats a message.
- `Program` in the top-level grammar file: it refers to undefined `Prefix` and `Suffix` parsers and returns nothing.
- `pyrd_json.py`: its one helper, `IgnoreSp`, is how `Delim` is modelled.
- Python's `re` engine in general: only the fixed patterns the core uses are modelled. Patterns from user grammars appear only as text in generated code, which is not run.
- What a generated parser does when run.
- Python's recursion limit. `Rules`, `Sequences`, `Lexers` and `PyLit` call themselves once per item read, about three Python frames each, so a long enough grammar file raises RecursionError in the source. The model's recursion is unbounded.
- The `TypeError` that `Id()`, `PyStr()`, `Regex()` and `PySuffix()` would raise: they inherit `ParseRE.__init__`, which needs a pattern argument, and they set `regex` where `parse` reads `_regex`. Each is modelled as `ParseRE` over the pattern its class declares.
- The `AttributeError` of reading `.choice` on a `ParseObjectEither`, which stores `result` and `index`: it is read as the stored `result`.
- `repr` of characters beyond ASCII: Python escapes the ones Unicode calls non-printable (such as U+0080 to U+009F), while the model keeps every character from U+0080 on as it is. Only the ASCII escapes are modelled.
- Format specifications, conversions (`{0!r}`, `{:>3}`) and attribute or index fields are modelled as raising in `str.format`. A field named by a run of zeros (`{00}`) is read as `{0}`, as Python reads it. None of the texts formatted in the core relies on them.
- The failed parse's `result` is not kept in a grammar `Reply`: no caller reads it.
- `Or([])`: ParseOr is always built from at least two parsers.
- Aliasing of the mutated `Parsed` objects and result lists: each is freshly made and used once, so values model them.
- Gen.Id2Class: `str.upper` is modelled for ASCII only, and the rule names the grammar accepts are ASCII.
- Gen.FormatBinding: it requires a brace-free name, which every identifier the grammar reads is.
- Gen.LexGenParserRoundTrip: the round trip requires a rule reference to contain no `(`. That holds for every identifier the grammar reads.
- Gen.SeqGenHandlerAt, Gen.RuleGenHandler, Gen.GrammarGenCode: they build the intended handler pieces, with `str(i)` put in place of the one `{}`. The second `.format(i)` as written is `Gen.HandlerAsWritten`; see Findings.
- GrammarRules.FunctionReadsBalanced, GrammarRules.PyLitReadsBalanced: they require no blank space right after a brace, because `Delim` skips such space, so text holding it is not read back verbatim.
- Gen.BindingsExact: it states which bindings occur, each at its own position; their order is the item order fixed by `Bindings` itself.

## Findings

| source | as written | input that shows it | evidently intended | confidence | as-written member | corrected member |
|---|---|---|---|---|---|---|
| pyrd.py:43 | `posIn` slices `string[:len(self.left)]`, the first \|left\| characters | input "a\nb\nc" with "c" left: reported on line 1 | count the newlines of the consumed text `string[:len(string)-len(self.left)]`, giving line 3 | not executed | Pyrd.PosInMiscountsLines | Pyrd.PosInConsumedLine |
| pyrd_gen.py:73 | `sequence.gen_handler().format(i)` formats a second time text that already holds the action, so braces in the action are read as replacement fields | the action `{{'a': 1}}`, which Function accepts with the text `{'a': 1}` (GrammarRules.BracedActionRead): `.format(i)` raises | put `str(i)` in the template's one `{}` and copy the action verbatim | not executed | Gen.BracedActionRaises | Gen.SeqGenHandlerAt, Gen.RuleGenHandler, Gen.HandlerPartsAt |
| pyrd/pyrd_grammar.py:18-19 | PySuffix's pattern `(\n\|[^\n])*` has its group under `*`, and `ParseRE` returns `match.group(1)`, the last repetition only | the suffix "ab" is stored as "b" | store the whole remaining text as the grammar's suffix | not executed | Patterns.SuffixGroupLoses | PackageGrammar.PySuffixTakesAll |
| pyrd/pyrd_grammar.py:119-121 | the package Regex pattern repeats its group between the slashes, and its `group = slice(1,-1)` is never read, so `match.group(1)` is the last repetition only | the token `/ab/` gives "b" | the body between the slashes, "ab" | not executed | Patterns.RegexGroupLoses | GrammarRules.RegexToken |
