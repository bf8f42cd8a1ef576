# church: lambda-calculus parsing, binding and substitution in Dafny

This project models the core of the `church` package. That core has two parts.

`church/lambda_parser.py` turns text such as `\x y. f (x y)` into an abstract syntax
tree. A syntax tree is made of `Name`, `Apply` and `Function` nodes. The text is read by:

- a two-state tokenizer;
- a one-slot push-back `TokenStream`;
- a shift-reduce state machine, `SMParser`.

`church/expr.py` turns a syntax tree into an *expression*. In an expression, every
name refers to a `Parameter` object that belongs to one binding point. The file provides:

- `bind`, which resolves names to parameters;
- `unbind`, which goes back from parameters to names, picking fresh names with
  `name_avoiding`;
- `bitstring`, which gives the binary lambda calculus code of an expression;
- `__eq__`, which compares expressions by that code, so it is alpha-equivalence;
- `FunctionExpr.__call__`, which substitutes an argument into a function body and
  copies every binder of the body.

Each of these operations walks the event stream that `flatten` produces.

The modules follow the program's structure:

| module | file | models |
|---|---|---|
| `Seqs` | seqs.dfy | generic facts about sequence concatenation and slicing, and about a map key added and removed, used by the proofs |
| `Outcomes` | outcomes.dfy | the exceptions the source raises, as `Result` failures |
| `Syntax` | syntax.dfy | the `Name`/`Apply`/`Function` nodes and their event stream |
| `Lexer` | lexer.dfy | `tokenize` |
| `Automaton` | automaton.dfy | `SMParser.parse` as a pure step function over configurations |
| `Parser` | parser.dfy | `TokenStream` (a class), the parse loop as a method, `parse` |
| `ParserProperties` | parser_properties.dfy | what the grammar accepts, and a printer the parser inverts |
| `Names` | names.dfy | `variants` and `name_avoiding` |
| `Exprs` | exprs.dfy | `Expr`, `_pieces` and `flatten` |
| `Codec` | codec.dfy | `bitstring` and `__eq__`, with de Bruijn terms as the meaning of expressions |
| `Binder` | binder.dfy | `lookup` and `bind` |
| `Unbinder` | unbinder.dfy | `unbind` |
| `Substitution` | substitution.dfy | `FunctionExpr.__call__` |

How the source's loops are modelled:

- Each loop of the source is a `method` with a `while` loop. That includes `tokenize`,
  the parse loop, `flatten`, `bitstring`, `lookup`, `bind`, `name_avoiding`, `unbind`
  and `__call__`.
- Each such method is proved equal to a reference function. The reference function is
  defined by recursion on the tree, and its meaning is proved as lemmas.
- Every stack-based pass (`bitstring`, `bind`, `unbind`, `__call__`) also has a fold
  function, with one step per event.
- A compositional lemma shows that folding over the events of a subtree performs the
  tree-level operation on that subtree.

How the source's values are modelled:

- Parameter identity, which is object identity in Python, is a numeric `id`.
  `Bind` and `Call` draw it from a counter `next`, which they thread through.
- The meaning of an expression is its de Bruijn term, `Codec.ToNameless`.
- Its bitstring is the binary lambda calculus code of that term.

## Model

| member | source | states |
|---|---|---|
| Lexer.RunLength | church/lambda_parser.py:94-102 | an identifier run is maximal: its characters are all `a`-`z` or `_`, and the character after it is not |
| Lexer.Tokenize | church/lambda_parser.py:83-111 | the tokenizer loop returns exactly the reference token stream `Lex(s)`: one Id token per maximal run of identifier characters, one token per `(`, `)`, `\`, `.`, spaces and newlines skipped, ParseError on any other character, END at the end |
| Lexer.LexShape | church/lambda_parser.py:100-109 | a successful tokenization is a sequence of lexemes (non-empty identifier texts, punctuation without value) followed by exactly one END, which is last |
| Lexer.LexFailsIff | church/lambda_parser.py:103-111 | tokenizing fails if and only if some character is neither an identifier character, whitespace nor one of the four single-character tokens, and the failure is ParseError |
| Lexer.LexRender | church/lambda_parser.py:92-109 | rendering lexemes as text (with separating spaces) and tokenizing gives the same lexemes back, followed by END |
| Lexer.LexRun | church/lambda_parser.py:94-102 | a maximal identifier run starting at a position becomes one Id token carrying exactly that run |
| Lexer.LexAt | church/lambda_parser.py:103-111 | a single-character token character yields its token, whitespace yields nothing, and a disallowed character fails with ParseError |
| Parser.TokenStream.constructor | church/lambda_parser.py:118-120 | a new stream has an empty push-back slot and the whole input as its tail |
| Parser.TokenStream.Next | church/lambda_parser.py:122-123 | `next` returns the first pushed-back token if there is one, otherwise the first input token; it removes exactly that token, and fails (StopIteration) only when both are empty |
| Parser.TokenStream.Push | church/lambda_parser.py:125-126 | `push` puts the token in front of everything still to be read |
| Parser.TokenStream.Peek | church/lambda_parser.py:128-131 | `peek` returns the token `next` would return and leaves the stream's contents unchanged |
| Parser.TokenStream.PeekType | church/lambda_parser.py:133-135 | `peek_type` returns the kind of that token, with the contents unchanged |
| Parser.ShiftToken | church/lambda_parser.py:172-281 | one shift state reads a token (peeking one more after an `expr` in SBEGIN, SLEFT and SDOT) and does exactly the automaton step: the goto-table target, or ParseError where the table has no entry |
| Parser.BuildReduction | church/lambda_parser.py:283-332 | the value each reduce state pushes back is the grammar rule's node built from the popped values: `Name` for an identifier, `Apply(expr, atom)`, the parenthesized value, the name list extended at its end, and the nested `Function`s of a lambda |
| Parser.ReduceRule | church/lambda_parser.py:283-332 | a reduce state pops as many entries as its rule has symbols, returns to the state below them and pushes the reduced token back into the stream, exactly as the automaton step |
| Parser.NestSnoc | church/lambda_parser.py:299-301 | building the lambda by popping names from the end of the list and wrapping the body gives the first name outermost |
| Automaton.StepWellTyped | church/lambda_parser.py:166-338 | every step from a well-typed configuration reaches a well-typed configuration (the stacks are deep enough for every pop, each value has the shape its state reads) and decreases a termination measure |
| Parser.ParseTokens | church/lambda_parser.py:166-338 | the parse loop over a token stream returns exactly what the step function's run returns: the accepted tree, ParseError, or StopIteration |
| Parser.Parse | church/lambda_parser.py:341-343 | `parse(s)` tokenizes and runs the parser, failing with the tokenizer's ParseError when tokenizing fails |
| ParserProperties.ParsePhrase | church/lambda_parser.py:166-338 | for every well-formed derivation of the parser's grammar (complete -> expr, expr -> atom or expr atom, atom -> ID, ( complete ) or \ names . complete), its tokens followed by END parse to the tree it stands for: parentheses only group, `\x y. b` is `\x. \y. b`, and a lambda may be the last argument without parentheses |
| ParserProperties.ParsePhraseText | church/lambda_parser.py:341-343 | the same from text: a well-formed derivation whose names are identifiers, written out with spaces, parses to its tree |
| ParserProperties.ParsePrinted | church/lambda_parser.py:166-338 | for every tree, the parser accepts the canonical token sequence of that tree (applications left-nested; a lambda parenthesized when it is applied or is an argument) and returns the same tree |
| ParserProperties.ParseParenthesized | church/lambda_parser.py:327-332 | parentheses around any printed tree, a bare name included, give the same tree: `atom -> ( complete )` only groups |
| ParserProperties.ParseTrailingLambda | church/lambda_parser.py:238-249 | an expression followed by an unparenthesized lambda `\x1 ... xn. b` parses as the application of the expression to the nested functions: SEXPR shifts `\` and RLAMBDA reduces to an atom |
| ParserProperties.RedundantParentheses | church/lambda_parser.py:327-332 | `(f a) b` parses as `Apply(Apply(f, a), b)` |
| ParserProperties.TrailingLambda | church/lambda_parser.py:238-249 | `f \x. x` parses as `Apply(f, Function(x, Name(x)))` |
| ParserProperties.ParseRendered | church/lambda_parser.py:341-343 | for every tree whose names are identifiers, parsing the canonical text of the tree returns the tree: the grammar covers every syntax tree and the parser inverts the printer |
| ParserProperties.ParseLambda | church/lambda_parser.py:288-302 | `\x1 ... xn. body` parses as nested single-binder functions with x1 outermost |
| ParserProperties.NeverRunsDry | church/lambda_parser.py:122-123 | from any well-typed configuration whose remaining input ends with END, the parser stops with a result or ParseError and never reads past the end |
| ParserProperties.StepRejects | church/lambda_parser.py:177-199 | one step of the loop stops only with ParseError (no table entry) or StopIteration (the stream is exhausted) |
| ParserProperties.ParseTextNeverRunsDry | church/lambda_parser.py:341-343 | parsing text returns a tree or fails with ParseError; it never fails with StopIteration |
| ParserProperties.EmptyTextRejected | church/lambda_parser.py:178-196 | the empty text is a ParseError, since END has no transition from SBEGIN |
| ParserProperties.UnclosedParenRejected | church/lambda_parser.py:258-263 | `(x` is a ParseError: after the parenthesized expression, END arrives where a `)` is required |
| ParserProperties.ApplicationAssociatesLeft | church/lambda_parser.py:321-326 | `f a b` parses as `Apply(Apply(f, a), b)` |
| ParserProperties.LambdaExample | church/lambda_parser.py:295-302 | `\x y. x` parses as `Function(x, Function(y, Name(x)))` |
| Binder.ResolveInnermost | church/expr.py:15-19 | lookup succeeds if and only if the name is bound; it then returns the parameter of the last binding with that name (the innermost binder), and it fails otherwise |
| Binder.Lookup | church/expr.py:15-19 | the loop over the reversed bindings computes exactly that resolution |
| Exprs.ActionsOfPieces | church/expr.py:76-82 | expanding each node's `_pieces` actions yields the event stream: open, the children's events in order, close |
| Exprs.Flatten | church/expr.py:23-35 | the to-do stack loop yields exactly the event stream of the expression (a pre-order walk with a closing event after each application and function) |
| Exprs.PiecesDetermine | church/expr.py:23-35 | the event stream of an expression followed by anything can be split in only one way |
| Exprs.PiecesInjective | church/expr.py:23-35 | distinct expressions flatten to distinct event streams |
| Codec.ToNameless | church/expr.py:43-57 | the de Bruijn meaning fails only with the malformed-expression error (a reference outside its binder, or a parameter bound again inside its own scope) |
| Codec.BitsFoldPieces | church/expr.py:41-58 | folding the bitstring loop over an expression's events, with the enclosing binders as levels, appends the code of the expression's de Bruijn term and restores the levels |
| Codec.BitsPiece | church/expr.py:44-57 | one iteration of the bitstring loop is the fold's step: `01` for an application, `00` for a function with the parameter recorded at the current depth (failing if it is already recorded), `1`×(k+1) then `0` for a reference k levels out (failing if unrecorded), and at a closing function the parameter is removed, failing unless it was the innermost |
| Codec.Bitstring | church/expr.py:37-58 | the bitstring loop returns the binary lambda calculus code of the expression's de Bruijn term: `00` for a function, `01` for an application, `1`×(k+1) then `0` for a reference k binders out; it fails when a reference is unbound or a parameter is rebound |
| Codec.DecodeEncode | church/expr.py:41-58 | the code is decodable: decoding the code of a term followed by any rest returns the term and the rest |
| Codec.EncodeInjective | church/expr.py:41-58 | distinct de Bruijn terms have distinct bitstrings |
| Codec.EncodeIsBits | church/expr.py:41-58 | a bitstring contains only `0` and `1` |
| Codec.AreEqual | church/expr.py:60-64 | `__eq__` returns false for different node kinds without computing any bitstring, and otherwise compares the two bitstrings |
| Codec.EqualIffSameNameless | church/expr.py:60-64 | two expressions are equal if and only if they are the same kind of node and have the same well-formed de Bruijn term |
| Codec.EqualFailsIff | church/expr.py:60-64 | comparing raises if and only if both are the same kind of node and one of them is malformed |
| Codec.RenamePreservesNameless | church/expr.py:60-64 | renaming parameters injectively leaves the de Bruijn term unchanged |
| Codec.RenamedIsEqual | church/expr.py:60-64 | a well-formed expression equals every injective renaming of its parameters (equality is alpha-equivalence) |
| Codec.IdentityBits | church/expr.py:41-58 | `λx.x` encodes as `0010` |
| Codec.FirstProjectionBits | church/expr.py:41-58 | `λx.λy.x` encodes as `0000110` |
| Codec.ApplicationBits | church/expr.py:41-58 | `λf.λx.f x` encodes as `00000111010` |
| Codec.FreeReferenceFails | church/expr.py:53-54 | a reference to a parameter with no enclosing binder makes `bitstring` fail |
| Codec.RebindingFails | church/expr.py:46-48 | a parameter bound again inside its own scope makes `bitstring` fail |
| Binder.BindTree | church/expr.py:149-179 | the reference definition of `bind` fails only with the unbound-name error, and it never lowers the parameter counter |
| Binder.BindFoldEvents | church/expr.py:156-173 | folding the bind loop over a tree's events pushes the bound expression and leaves the bindings as they were |
| Binder.BindFoldComputesBind | church/expr.py:153-179 | folding the whole event stream and then checking that exactly one expression is left gives the reference definition |
| Binder.BindEvent | church/expr.py:157-175 | one iteration of the bind loop is the fold's step: a name pushes a reference to its looked-up parameter (or fails unbound), an opening function pushes a binding with a new parameter from the counter, a closing function wraps the top expression in the innermost binding's function and drops that binding, a closing application combines the top two expressions |
| Binder.Bind | church/expr.py:149-179 | the bind loop returns exactly the bound expression of the reference definition (or its failure) |
| Binder.BindMeaning | church/expr.py:149-179 | binding succeeds exactly when the tree's names all resolve, and the bound expression then has the de Bruijn term of the tree, where each name refers to its innermost binder |
| Binder.BindFailsIffFree | church/expr.py:158 | binding fails if and only if the tree has a free name |
| Binder.BoundIsWellScoped | church/expr.py:149-179 | a closed tree binds to an expression whose bitstring exists |
| Binder.BoundEqualIffAlpha | church/expr.py:60-64 | two closed trees, whatever their roots, bind to expressions that are equal if and only if the trees are alpha-equivalent (the same de Bruijn term) |
| Binder.BindIdentity | church/expr.py:162-167 | `\x. x` binds to a function whose body references its own parameter |
| Binder.BindShadowed | church/expr.py:158-167 | in `\x. \x. x` the reference is bound to the inner parameter |
| Binder.BindFreeName | church/expr.py:15-19 | `\x. y` fails with the unbound-name error |
| Binder.AlphaInvariance | church/expr.py:60-64 | `\x. x` and `\y. y` bind to equal expressions, with bitstring `0010` |
| Binder.ShadowingPicksInnermost | church/expr.py:15-19 | `\x. \x. x` binds like `\x. \y. y`: both encode as `000010` and are equal |
| Names.PositionOfSuffix | church/expr.py:185-188 | the k-th suffix is a digit string whose position in the enumeration is k |
| Names.SuffixAtPosition | church/expr.py:185-188 | every digit string is enumerated, at exactly its position: `variants` lists every base-plus-digits name once |
| Names.FirstVariantIsBase | church/expr.py:185-188 | the first variant is the base name itself (the empty suffix) |
| Names.PositionOrdersLength | church/expr.py:185-188 | shorter suffixes come before longer ones |
| Names.SuffixLengthsGrow | church/expr.py:185-188 | suffix lengths never decrease along the enumeration |
| Names.VariantInjective | church/expr.py:185-188 | no variant is listed twice |
| Names.VariantsTaken | church/expr.py:191-194 | if the first k variants are all taken, k is at most the number of names to avoid, so the search stops |
| Names.FreePosition | church/expr.py:191-194 | the search returns the first position whose variant is not taken |
| Names.AvoidingIsFirstFree | church/expr.py:191-194 | `name_avoiding` returns a name outside the avoided set, and it is the first variant in enumeration order with that property |
| Names.AvoidingKeepsFreeBase | church/expr.py:191-194 | a base name that is not taken is returned unchanged |
| Names.AvoidingExtendsBase | church/expr.py:185-194 | the result always starts with the base name |
| Names.NameAvoiding | church/expr.py:191-194 | the search loop returns exactly the first free variant |
| Unbinder.UnbindTree | church/expr.py:197-235 | the reference definition of `unbind` fails only with the malformed-expression error |
| Unbinder.UnbindFoldPieces | church/expr.py:210-229 | folding the unbind loop over an expression's events pushes the unbound tree and leaves replacements and names in scope as they were |
| Unbinder.UnbindFoldComputesUnbind | church/expr.py:203-235 | folding the whole event stream and checking that one tree and no names or replacements remain gives the reference definition |
| Unbinder.UnbindPiece | church/expr.py:211-229 | one iteration of the unbind loop is the fold's step: a binder pushes a name chosen by `name_avoiding` against the names in scope and records it, a closing function pops body and name into a `Function` and forgets both, a reference pushes its recorded name, a closing application combines the top two trees; malformed input fails |
| Unbinder.Unbind | church/expr.py:197-235 | the unbind loop returns exactly the reference definition's tree (or its failure) |
| Unbinder.UnbindMeaning | church/expr.py:197-235 | unbinding succeeds exactly when the expression is well formed, and the tree then has the same de Bruijn term: no reference is captured by the renaming |
| Unbinder.UnbindSucceedsIff | church/expr.py:197-235 | `unbind` succeeds if and only if `bitstring` does |
| Unbinder.RootKindKept | church/expr.py:197-235 | binding the unbound tree gives the same kind of node as the original |
| Unbinder.RoundTrip | church/expr.py:149-235 | for every well-formed expression, `bind(unbind(e))` succeeds and is equal to `e` |
| Unbinder.UnbindAvoidsScope | church/expr.py:215-221 | no binder in the unbound tree reuses the name of an enclosing binder |
| Unbinder.UnbindRenamesClash | church/expr.py:215-221 | two nested parameters both named `x` come back as `x` and `x0` |
| Unbinder.AvoidingNext | church/expr.py:191-194 | when the base name is taken, the next choice is the base followed by `0` |
| Substitution.SubstTree | church/expr.py:100-117 | the reference definition of the copying pass fails only with the malformed-expression error and never lowers the parameter counter |
| Substitution.SubstFoldPieces | church/expr.py:100-114 | folding the call loop over an expression's events pushes the copied expression and leaves the replacements as they were |
| Substitution.SubstFoldComputesCall | church/expr.py:96-117 | folding the whole body's event stream and checking that one result remains gives the reference definition |
| Substitution.Call | church/expr.py:96-117 | the `__call__` loop returns exactly the reference definition's result (or its failure) |
| Substitution.SubstSucceedsIff | church/expr.py:100-114 | copying succeeds exactly when every reference is to a replaced parameter or an enclosing copied binder, and no binder is rebound |
| Substitution.CallSucceedsIff | church/expr.py:96-117 | calling a function succeeds if and only if the function is well formed (closed and without rebinding) |
| Substitution.SubstMeaning | church/expr.py:100-114 | copying a body under the call's replacements substitutes the argument's de Bruijn term for the parameter's index |
| Substitution.CallIsBeta | church/expr.py:96-117 | calling a closed function on an argument gives the beta-reduct of the de Bruijn terms: the body with the argument substituted for the bound variable |
| Substitution.SubstBinders | church/expr.py:105-112 | every binder of the copy is either taken from a replacement or new, numbered from the counter and named like a body binder; the counter advances by the number of body binders |
| Substitution.CallBindersAreFresh | church/expr.py:105-112 | the result of a call shares no binder with the function body except through the argument; every other binder is numbered in the range the call used and named like some body binder |
| Substitution.SubstKeepsNames | church/expr.py:100-113 | read by names, the copy of a body part is that part with the replaced parameter's references turned into its replacement; every binder and every other reference keeps its name |
| Substitution.CallKeepsNames | church/expr.py:96-117 | read by names, the result of a call is the body with each reference to the parameter replaced by the argument: the copy of each binder has that binder's name |
| Substitution.SubstNumbersBinders | church/expr.py:105-112 | in pre-order, the binders of the copy numbered from the counter on are one new parameter per body binder, numbered consecutively and named like the binder it replaces; all other binders come from replacements |
| Substitution.CallNumbersBinders | church/expr.py:105-108 | the new parameters of a call are pairwise distinct, one per body binder in pre-order and named like it, when the argument's binders are numbered below the counter |
| Substitution.BindersAreParams | church/expr.py:105-112 | every binder of an expression is among its parameters |
| Substitution.IdentityCall | church/expr.py:96-117 | calling `λx.x` returns the argument itself and allocates no parameter |

## Left out

- `church/ast.py` is not part of this model. The event stream its `flatten` produces is stated directly as `Syntax.AstEvents`: a pre-order walk with an opening and a closing event around each application and each function.
- The `__repr__` methods and the exception message texts are not modelled. Each exception is a `Result` failure:
  - `ParseError` and `StopIteration` keep their names.
  - The `ValueError` of `lookup` is `UnboundName`.
  - The `AssertionError`, `KeyError` and `IndexError` raised on malformed expressions are all `Malformed`.
- The structural `__eq__` of the syntax nodes is Dafny's datatype equality.
- `tokenize` and `flatten` are generators. The model builds their whole output first. A parse has the same outcome either way: a lexing error occurs before END, so the parser meets it before it could accept, and either path ends in ParseError.
- The `TypeError` checks in the `ApplyExpr`, `FunctionExpr` and `ParameterReference` constructors are not modelled. Dafny's types make them unreachable.
- The `ValueError("Unknown state")` branch of the parser is not modelled. The states form a closed enumeration, so it cannot be reached.
- The string constants `NAME`, `OPEN_FUNCTION`, `CLOSE_FUNCTION`, `OPEN_APPLY`, `CLOSE_APPLY`, `YIELD` and `PROCESS` are not modelled. `church/expr.py` defines them at lines 139-146 but never uses them.
- Python object identity of `Parameter` is modelled as a numeric id. `Bind` and `Call` allocate ids from a counter they take as input and return.
- Substitution.CallNumbersBinders: requires the counter to be above the numbers of the argument's binders. In Python every new `Parameter` is a new object, so distinctness needs no such condition; the counter stands in for object allocation.
- Parser.ParseTokens: requires that each token carries the value its kind implies: text for an identifier, a node for atom/expr/complete, a name list for names, and nothing for punctuation. The Python parser accepts arbitrary pairs, but its only caller, `parse`, passes `tokenize` output, which always meets this (proved as `Parser.TokenizationFits`).
- Unbinder.UnbindStep: when a stack pop finds the wrong kind of entry, or the stack is empty, the step fails with `Malformed`. Python would build an odd node or raise `IndexError` here. No event stream produced by `flatten` reaches these cases; the fold lemmas show this.
- Binder.BindStep and Substitution.SubstStep: the same applies. An empty-stack pop is `Malformed`, and for `bind` it cannot be reached from a tree's events.
- Parser.TokenStream: the input iterator is modelled as a sequence. Laziness and sharing the iterator with other readers are not modelled.
- Names.NameAvoiding: Python's `variants` is an infinite generator. The model searches positions in increasing order and proves by counting that the search ends within `|avoid| + 1` positions, so the results are the same.
- ParserProperties.ParsePhrase: proves that every well-formed derivation parses to its tree. The converse is not proved: that every token sequence the parser accepts is the spelling of such a derivation.
