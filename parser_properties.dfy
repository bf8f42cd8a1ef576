/**
 * What church/lambda_parser.py's parser promises about whole inputs: every
 * way the grammar allows of writing a tree (redundant parentheses, a lambda
 * as the last argument without parentheses, several names after one `\`)
 * parses to that tree, so the canonical printing does too; a lexer-produced
 * token stream never runs dry; and small concrete inputs behave as the
 * parser's own tests expect.
 */
module ParserProperties {
  import opened Outcomes
  import opened Syntax
  import opened Lexer
  import opened Automaton
  import opened Parser
  import opened Seqs

  // ---------------------------------------------------------------------
  // The run sees only the stream "push-back slot, then remaining input"

  function Stream(c: Config): seq<Token> { c.head + c.tail }

  lemma TakeStream(head: seq<Token>, tail: seq<Token>)
    ensures Take(head, tail).None? <==> head + tail == []
    ensures Take(head, tail).Some? ==>
      var tk := Take(head, tail).value;
      head + tail == [tk.token] + (tk.head + tk.tail)
  {
    if head != [] {
      assert head + tail == [head[0]] + (head[1..] + tail);
    } else if tail != [] {
      assert head + tail == [tail[0]] + ([] + tail[1..]);
    }
  }

  lemma FitsConcat(a: seq<Token>, b: seq<Token>)
    ensures TokensFit(a + b) <==> TokensFit(a) && TokensFit(b)
  {
    if TokensFit(a) && TokensFit(b) {
      forall i | 0 <= i < |a + b| ensures TokenFits((a + b)[i]) {
        if i >= |a| { assert (a + b)[i] == b[i - |a|]; }
      }
    }
    if TokensFit(a + b) {
      forall i | 0 <= i < |a| ensures TokenFits(a[i]) {
        assert (a + b)[i] == a[i];
      }
      forall i | 0 <= i < |b| ensures TokenFits(b[i]) {
        assert (a + b)[|a| + i] == b[i];
      }
    }
  }

  /** Two configurations with the same state, stacks and stream step alike (checked as one fact). */
  predicate SameSplit(c: Config, d: Config)
  {
    Alike(c, d) == true
  }

  predicate Alike(c: Config, d: Config)
  {
    c.state == d.state && c.states == d.states && c.values == d.values && Stream(c) == Stream(d)
  }

  lemma StepSplit(c: Config, d: Config)
    requires WellTyped(c) && WellTyped(d) && SameSplit(c, d)
    ensures Step(c).Running? <==> Step(d).Running?
    ensures !Step(c).Running? ==> Step(c) == Step(d)
    ensures Step(c).Running? ==> SameSplit(Step(c).next, Step(d).next)
  {
    if c.state == SBeginCompleteEnd {
    } else if !IsShiftState(c.state) {
      ReduceSplit(c, d);
    } else {
      ShiftSplit(c, d);
    }
  }

  lemma ReduceSplit(c: Config, d: Config)
    requires WellTyped(c) && WellTyped(d) && SameSplit(c, d)
    requires !IsShiftState(c.state) && c.state != SBeginCompleteEnd
    ensures SameSplit(Step(c).next, Step(d).next)
  {
    var t := Reduced(c);
    ReducedSame(c, d);
    var k := PopCount(c.state);
    assert Step(c) == Running(Reduce(c, k, t));
    assert Step(d) == Running(Reduce(d, k, t));
    assert Stream(Reduce(c, k, t)) == [t] + Stream(c);
    assert Stream(Reduce(d, k, t)) == [t] + Stream(d);
  }

  lemma ReducedSame(c: Config, d: Config)
    requires WellTyped(c) && WellTyped(d) && c.state == d.state && c.states == d.states && c.values == d.values
    requires !IsShiftState(c.state) && c.state != SBeginCompleteEnd
    ensures Reduced(c) == Reduced(d)
  {
  }

  /** Two splits of the same stream yield the same next token and the same rest of the stream. */
  lemma TakeSame(h1: seq<Token>, t1: seq<Token>, h2: seq<Token>, t2: seq<Token>)
    requires h1 + t1 == h2 + t2
    ensures Take(h1, t1).None? <==> Take(h2, t2).None?
    ensures Take(h1, t1).Some? ==>
      var x, y := Take(h1, t1).value, Take(h2, t2).value;
      x.token == y.token && x.head + x.tail == y.head + y.tail
  {
    TakeStream(h1, t1);
    TakeStream(h2, t2);
    if Take(h1, t1).Some? {
      var x, y := Take(h1, t1).value, Take(h2, t2).value;
      ConsInjective(x.token, x.head + x.tail, y.token, y.head + y.tail);
    }
  }

  lemma ShiftSplit(c: Config, d: Config)
    requires SameSplit(c, d)
    ensures ShiftStep(c).Running? <==> ShiftStep(d).Running?
    ensures !ShiftStep(c).Running? ==> ShiftStep(c) == ShiftStep(d)
    ensures ShiftStep(c).Running? ==> SameSplit(ShiftStep(c).next, ShiftStep(d).next)
  {
    TakeSame(c.head, c.tail, d.head, d.tail);
    if Take(c.head, c.tail).Some? {
      var tc, td := Take(c.head, c.tail).value, Take(d.head, d.tail).value;
      if tc.token.kind == Expr && ExpectsComplete(c.state) {
        TakeSame(tc.head, tc.tail, td.head, td.tail);
        if Take(tc.head, tc.tail).Some? {
          var pc, pd := Take(tc.head, tc.tail).value, Take(td.head, td.tail).value;
          ConcatAssoc([pc.token], pc.head, pc.tail);
          ConcatAssoc([pd.token], pd.head, pd.tail);
        }
      }
    }
  }

  /**
   * The outcome of a run depends only on the state, the stacks and the
   * stream, not on how much of the stream sits in the push-back slot.
   */
  lemma {:induction false} RunSplit(c: Config, d: Config)
    requires WellTyped(c)
    requires |d.states| == |d.values| && SameSplit(c, d)
    ensures WellTyped(d) && Run(c) == Run(d)
    decreases |c.tail|, Potential(c)
  {
    FitsConcat(c.head, c.tail);
    FitsConcat(d.head, d.tail);
    assert WellTyped(d) by {
      forall i | 0 <= i < |d.states| ensures Above(d, i) == Above(c, i) { }
    }
    StepWellTyped(c);
    StepWellTyped(d);
    StepSplit(c, d);
    if Step(c).Running? {
      RunSplit(Step(c).next, Step(d).next);
    }
  }

  /** One running step leaves the run's outcome alone. */
  lemma RunStep(c: Config)
    requires WellTyped(c) && Step(c).Running?
    ensures WellTyped(Step(c).next) && Run(c) == Run(Step(c).next)
  {
    StepWellTyped(c);
  }

  // ---------------------------------------------------------------------
  // Phrases: the ways of writing a tree that the grammar accepts

  function IdToken(x: string): Token { Token(Id, Text(x)) }

  function Punct(k: Kind): Token { Token(k, NoValue) }

  function Ids(names: seq<string>): seq<Token>
  {
    if names == [] then [] else [IdToken(names[0])] + Ids(names[1..])
  }

  function Paren(ts: seq<Token>): seq<Token> { [Punct(LeftParen)] + ts + [Punct(RightParen)] }

  /**
   * A derivation in the parser's grammar:
   *   complete -> expr,  expr -> atom | expr atom,
   *   atom -> ID | ( complete ) | \ names . complete
   * A Juxt is `expr atom`; the other three are atoms.
   */
  datatype Phrase =
    | Word(x: string)
    | Group(inner: Phrase)
    | Lambda(names: seq<string>, body: Phrase)
    | Juxt(fn: Phrase, arg: Phrase)

  /** The token sequence a phrase is written as. */
  function PhraseTokens(p: Phrase): seq<Token>
  {
    match p
    case Word(x) => [IdToken(x)]
    case Group(i) => Paren(PhraseTokens(i))
    case Lambda(ns, b) => [Punct(Backslash)] + Ids(ns) + [Punct(Dot)] + PhraseTokens(b)
    case Juxt(f, a) => PhraseTokens(f) + PhraseTokens(a)
  }

  /** The tree a phrase stands for: parentheses only group, `\x y. b` is `\x. \y. b`. */
  function PhraseTree(p: Phrase): Ast
  {
    match p
    case Word(x) => Name(x)
    case Group(i) => PhraseTree(i)
    case Lambda(ns, b) => Nest(ns, PhraseTree(b))
    case Juxt(f, a) => Apply(PhraseTree(f), PhraseTree(a))
  }

  /** A phrase ending in a lambda, whose body reaches to the next `)` or END. */
  predicate OpenEnded(p: Phrase)
  {
    match p
    case Lambda(_, _) => true
    case Juxt(_, a) => OpenEnded(a)
    case _ => false
  }

  /**
   * The phrases the grammar derives: a lambda has at least one name, an
   * argument is an atom, and nothing is applied to a phrase ending in a lambda.
   */
  predicate WellFormed(p: Phrase)
  {
    match p
    case Word(_) => true
    case Group(i) => WellFormed(i)
    case Lambda(ns, b) => ns != [] && WellFormed(b)
    case Juxt(f, a) => !a.Juxt? && !OpenEnded(f) && WellFormed(f) && WellFormed(a)
  }

  /** The canonical phrase of a tree as a complete expression: a lambda extends as far right as it can. */
  function Canonical(t: Ast): Phrase
    decreases t, 0
  {
    match t
    case Name(x) => Word(x)
    case Apply(f, a) => Juxt(CanonicalExpr(f), CanonicalAtom(a))
    case Function(x, b) => Lambda([x], Canonical(b))
  }

  /** A tree in function position: applications associate to the left, a lambda is parenthesised. */
  function CanonicalExpr(t: Ast): Phrase
    decreases t, 1
  {
    match t
    case Name(x) => Word(x)
    case Apply(f, a) => Juxt(CanonicalExpr(f), CanonicalAtom(a))
    case Function(_, _) => Group(Canonical(t))
  }

  /** A tree in argument position: anything but a name is parenthesised. */
  function CanonicalAtom(t: Ast): Phrase
    decreases t, 1
  {
    match t
    case Name(x) => Word(x)
    case _ => Group(Canonical(t))
  }

  /** The canonical printer. */
  function Print(t: Ast): seq<Token> { PhraseTokens(Canonical(t)) }

  /** The canonical phrases are well formed and stand for the tree they print. */
  lemma {:induction false} CanonicalPhrase(t: Ast)
    ensures WellFormed(Canonical(t)) && PhraseTree(Canonical(t)) == t
    ensures WellFormed(CanonicalExpr(t)) && PhraseTree(CanonicalExpr(t)) == t && !OpenEnded(CanonicalExpr(t))
    ensures WellFormed(CanonicalAtom(t)) && PhraseTree(CanonicalAtom(t)) == t && !OpenEnded(CanonicalAtom(t))
    ensures !CanonicalAtom(t).Juxt?
  {
    match t
    case Name(x) =>
    case Apply(f, a) =>
      CanonicalPhrase(f);
      CanonicalPhrase(a);
    case Function(x, b) =>
      CanonicalPhrase(b);
      assert Nest([x], b) == t by {
        assert [x][1..] == [];
      }
  }

  /** Every name in the tree is a well-formed identifier. */
  predicate ValidNames(t: Ast)
  {
    match t
    case Name(x) => IsLexeme(IdToken(x))
    case Apply(f, a) => ValidNames(f) && ValidNames(a)
    case Function(x, b) => IsLexeme(IdToken(x)) && ValidNames(b)
  }

  predicate ValidIds(names: seq<string>) { forall i :: 0 <= i < |names| ==> IsLexeme(IdToken(names[i])) }

  /** Every name in the phrase is a well-formed identifier. */
  predicate ValidWords(p: Phrase)
  {
    match p
    case Word(x) => IsLexeme(IdToken(x))
    case Group(i) => ValidWords(i)
    case Lambda(ns, b) => ValidIds(ns) && ValidWords(b)
    case Juxt(f, a) => ValidWords(f) && ValidWords(a)
  }

  lemma {:induction false} CanonicalWords(t: Ast)
    requires ValidNames(t)
    ensures ValidWords(Canonical(t)) && ValidWords(CanonicalExpr(t)) && ValidWords(CanonicalAtom(t))
  {
    match t
    case Name(x) =>
    case Apply(f, a) =>
      CanonicalWords(f);
      CanonicalWords(a);
    case Function(x, b) =>
      CanonicalWords(b);
      assert ValidIds([x]);
  }

  predicate AllLexemes(ts: seq<Token>) { forall i :: 0 <= i < |ts| ==> IsLexeme(ts[i]) }

  lemma LexemesConcat(a: seq<Token>, b: seq<Token>)
    requires AllLexemes(a) && AllLexemes(b)
    ensures AllLexemes(a + b)
  {
    forall i | 0 <= i < |a + b| ensures IsLexeme((a + b)[i]) {
      if i >= |a| { assert (a + b)[i] == b[i - |a|]; }
    }
  }

  lemma LexemesFit(ts: seq<Token>)
    requires AllLexemes(ts)
    ensures TokensFit(ts)
  {
    forall i | 0 <= i < |ts| ensures TokenFits(ts[i]) {
      assert IsLexeme(ts[i]);
    }
  }

  lemma ParenLexemes(ts: seq<Token>)
    requires AllLexemes(ts)
    ensures AllLexemes(Paren(ts))
  {
    LexemesConcat([Punct(LeftParen)], ts);
    LexemesConcat([Punct(LeftParen)] + ts, [Punct(RightParen)]);
  }

  lemma {:induction false} IdsLexemes(names: seq<string>)
    requires ValidIds(names)
    ensures AllLexemes(Ids(names))
    decreases |names|
  {
    if names != [] {
      assert IsLexeme(IdToken(names[0]));
      IdsLexemes(names[1..]);
      LexemesConcat([IdToken(names[0])], Ids(names[1..]));
    }
  }

  /** A phrase whose names are identifiers is written with lexemes only. */
  lemma {:induction false} PhraseLexemes(p: Phrase)
    requires ValidWords(p)
    ensures AllLexemes(PhraseTokens(p))
  {
    match p
    case Word(x) =>
      assert IsLexeme(PhraseTokens(p)[0]);
    case Group(i) =>
      PhraseLexemes(i);
      ParenLexemes(PhraseTokens(i));
    case Lambda(ns, b) =>
      IdsLexemes(ns);
      PhraseLexemes(b);
      LexemesConcat([Punct(Backslash)], Ids(ns));
      LexemesConcat([Punct(Backslash)] + Ids(ns), [Punct(Dot)]);
      LexemesConcat([Punct(Backslash)] + Ids(ns) + [Punct(Dot)], PhraseTokens(b));
    case Juxt(f, a) =>
      PhraseLexemes(f);
      PhraseLexemes(a);
      LexemesConcat(PhraseTokens(f), PhraseTokens(a));
  }

  lemma ParenFits(ts: seq<Token>)
    requires TokensFit(ts)
    ensures TokensFit(Paren(ts))
  {
    FitsConcat([Punct(LeftParen)], ts);
    FitsConcat([Punct(LeftParen)] + ts, [Punct(RightParen)]);
  }

  lemma {:induction false} IdsFit(names: seq<string>)
    ensures TokensFit(Ids(names))
    decreases |names|
  {
    if names != [] {
      IdsFit(names[1..]);
      FitsConcat([IdToken(names[0])], Ids(names[1..]));
    }
  }

  /** Written tokens carry the payloads their kinds call for; a phrase opens with a name, `(` or `\`. */
  lemma {:induction false} PhraseFits(p: Phrase)
    ensures TokensFit(PhraseTokens(p))
    ensures PhraseTokens(p) != [] && PhraseTokens(p)[0].kind in {Id, LeftParen, Backslash}
  {
    match p
    case Word(x) =>
      assert TokenFits(PhraseTokens(p)[0]);
    case Group(i) =>
      PhraseFits(i);
      ParenFits(PhraseTokens(i));
    case Lambda(ns, b) =>
      IdsFit(ns);
      PhraseFits(b);
      FitsConcat([Punct(Backslash)], Ids(ns));
      FitsConcat([Punct(Backslash)] + Ids(ns), [Punct(Dot)]);
      FitsConcat([Punct(Backslash)] + Ids(ns) + [Punct(Dot)], PhraseTokens(b));
    case Juxt(f, a) =>
      PhraseFits(f);
      PhraseFits(a);
      FitsConcat(PhraseTokens(f), PhraseTokens(a));
  }
  // ---------------------------------------------------------------------
  // Completeness: the automaton accepts every printed tree, and builds it

  /** A shift of the next token, which is not an Expr awaiting a peek. */
  lemma ShiftOne(c: Config, tok: Token, rest: seq<Token>, target: State)
    requires WellTyped(c) && IsShiftState(c.state)
    requires (c.head == [] && c.tail == [tok] + rest) || (c.head == [tok] && c.tail == rest)
    requires !(tok.kind == Expr && ExpectsComplete(c.state))
    requires Goto(c.state, tok.kind) == Some(target)
    ensures var d := Config(target, c.states + [c.state], c.values + [tok.value], [], rest);
      WellTyped(d) && Run(c) == Run(d)
  {
    assert ([tok] + rest)[1..] == rest && [tok][1..] == [];
    assert Take(c.head, c.tail) == Some(Taken(tok, [], rest));
    RunStep(c);
  }

  /** A shift of an Expr token in SBegin, SLeft or SDot, after a peek at the token behind it. */
  lemma ShiftExpr(c: Config, v: Value, p: Token, rest: seq<Token>)
    requires WellTyped(c) && ExpectsComplete(c.state)
    requires c.head == [Token(Expr, v)] && c.tail == [p] + rest
    ensures var target := if p.kind in {End, RightParen} then RComplete else SExpr;
      var d := Config(target, c.states + [c.state], c.values + [v], [p], rest);
      WellTyped(d) && Run(c) == Run(d)
  {
    assert [Token(Expr, v)][1..] == [] && ([p] + rest)[1..] == rest;
    assert Take(c.head, c.tail) == Some(Taken(Token(Expr, v), [], [p] + rest));
    assert Take([], [p] + rest) == Some(Taken(p, [], rest));
    var target := if p.kind in {End, RightParen} then RComplete else SExpr;
    assert Step(c) == Running(Shift(c, target, v, [p] + [], rest));
    assert [p] + [] == [p];
    RunStep(c);
  }

  /** A reduction by the rule of the current state. */
  lemma ReduceOne(c: Config, t: Token)
    requires WellTyped(c) && !IsShiftState(c.state) && c.state != SBeginCompleteEnd
    requires Reduced(c) == t
    ensures WellTyped(Reduce(c, PopCount(c.state), t)) && Run(c) == Run(Reduce(c, PopCount(c.state), t))
  {
    RunStep(c);
  }

  /** Leading states that shift a fresh atom: SBegin, SLeft, SDot and SExpr. */
  predicate AtomStart(s: State) { ExpectsComplete(s) || s == SExpr }

  /** A name is read as an atom: shift it, reduce atom -> ID. */
  lemma IdAtom(s: State, S: seq<State>, V: seq<Value>, x: string, rest: seq<Token>)
    requires AtomStart(s) && WellTyped(Config(s, S, V, [], [IdToken(x)] + rest))
    ensures var d := Config(s, S, V, [Token(Atom, Node(Name(x)))], rest);
      WellTyped(d) && Run(Config(s, S, V, [], [IdToken(x)] + rest)) == Run(d)
  {
    ShiftOne(Config(s, S, V, [], [IdToken(x)] + rest), IdToken(x), rest, SId);
    IdReduce(s, S, V, x, rest);
  }

  /** In SID the name on top of the stack is reduced to an atom. */
  lemma IdReduce(s: State, S: seq<State>, V: seq<Value>, x: string, rest: seq<Token>)
    requires WellTyped(Config(SId, S + [s], V + [Text(x)], [], rest))
    ensures var d := Config(s, S, V, [Token(Atom, Node(Name(x)))], rest);
      WellTyped(d) && Run(Config(SId, S + [s], V + [Text(x)], [], rest)) == Run(d)
  {
    var c1 := Config(SId, S + [s], V + [Text(x)], [], rest);
    Below1(S, s);
    Below1(V, Text(x));
    assert [Token(Atom, Node(Name(x)))] + [] == [Token(Atom, Node(Name(x)))];
    assert Reduce(c1, 1, Token(Atom, Node(Name(x)))) == Config(s, S, V, [Token(Atom, Node(Name(x)))], rest);
    ReduceOne(c1, Token(Atom, Node(Name(x))));
  }

  /** An atom in a state expecting a complete expression becomes an expression: expr -> atom. */
  lemma AtomToExpr(s: State, S: seq<State>, V: seq<Value>, t: Ast, rest: seq<Token>)
    requires ExpectsComplete(s) && WellTyped(Config(s, S, V, [Token(Atom, Node(t))], rest))
    ensures var d := Config(s, S, V, [Token(Expr, Node(t))], rest);
      WellTyped(d) && Run(Config(s, S, V, [Token(Atom, Node(t))], rest)) == Run(d)
  {
    ShiftOne(Config(s, S, V, [Token(Atom, Node(t))], rest), Token(Atom, Node(t)), rest, SAtom);
    AtomReduce(s, S, V, t, rest);
  }

  /** In SATOM the atom on top of the stack is reduced to an expression. */
  lemma AtomReduce(s: State, S: seq<State>, V: seq<Value>, t: Ast, rest: seq<Token>)
    requires WellTyped(Config(SAtom, S + [s], V + [Node(t)], [], rest))
    ensures var d := Config(s, S, V, [Token(Expr, Node(t))], rest);
      WellTyped(d) && Run(Config(SAtom, S + [s], V + [Node(t)], [], rest)) == Run(d)
  {
    var c1 := Config(SAtom, S + [s], V + [Node(t)], [], rest);
    Below1(S, s);
    Below1(V, Node(t));
    assert [Token(Expr, Node(t))] + [] == [Token(Expr, Node(t))];
    assert Reduce(c1, 1, Token(Expr, Node(t))) == Config(s, S, V, [Token(Expr, Node(t))], rest);
    ReduceOne(c1, Token(Expr, Node(t)));
  }

  /**
   * An expression followed by END or `)` is complete: the parser peeks,
   * shifts into RCOMPLETE and reduces complete -> expr.
   */
  lemma ExprToComplete(s: State, S: seq<State>, V: seq<Value>, t: Ast, rest: seq<Token>)
    requires ExpectsComplete(s) && rest != [] && rest[0].kind in {End, RightParen}
    requires WellTyped(Config(s, S, V, [Token(Expr, Node(t))], rest))
    ensures var d := Config(s, S, V, [Token(Complete, Node(t))], rest);
      WellTyped(d) && Run(Config(s, S, V, [Token(Expr, Node(t))], rest)) == Run(d)
  {
    assert rest == [rest[0]] + rest[1..];
    ExprShiftReduce(s, S, V, t, rest[0], rest[1..]);
    PushBack(s, S, V, Token(Complete, Node(t)), rest[0], rest[1..]);
  }

  /** The shift into RCOMPLETE and the reduction complete -> expr, leaving the peeked token pushed back. */
  lemma ExprShiftReduce(s: State, S: seq<State>, V: seq<Value>, t: Ast, x: Token, more: seq<Token>)
    requires ExpectsComplete(s) && x.kind in {End, RightParen}
    requires WellTyped(Config(s, S, V, [Token(Expr, Node(t))], [x] + more))
    ensures var d := Config(s, S, V, [Token(Complete, Node(t))] + [x], more);
      WellTyped(d) && Run(Config(s, S, V, [Token(Expr, Node(t))], [x] + more)) == Run(d)
  {
    var c0 := Config(s, S, V, [Token(Expr, Node(t))], [x] + more);
    ShiftExpr(c0, Node(t), x, more);
    var c1 := Config(RComplete, S + [s], V + [Node(t)], [x], more);
    Below1(S, s);
    Below1(V, Node(t));
    var complete := Token(Complete, Node(t));
    ReduceOne(c1, complete);
    assert Reduce(c1, 1, complete) == Config(s, S, V, [complete] + [x], more);
  }

  /** A token waiting in the push-back slot may as well be the first token of the stream. */
  lemma PushBack(s: State, S: seq<State>, V: seq<Value>, tok: Token, x: Token, more: seq<Token>)
    requires WellTyped(Config(s, S, V, [tok] + [x], more))
    ensures var d := Config(s, S, V, [tok], [x] + more);
      WellTyped(d) && Run(Config(s, S, V, [tok] + [x], more)) == Run(d)
  {
    var c := Config(s, S, V, [tok] + [x], more);
    var d := Config(s, S, V, [tok], [x] + more);
    assert Stream(c) == Stream(d);
    RunSplit(c, d);
  }

  /** One more name after `\ names`: shift it, reduce names -> names ID, shift the names back. */
  lemma NameStep(S: seq<State>, V: seq<Value>, acc: seq<string>, m: string, rest: seq<Token>)
    requires WellTyped(Config(SSlashNames, S + [SSlash], V + [NameList(acc)], [], [IdToken(m)] + rest))
    ensures var d := Config(SSlashNames, S + [SSlash], V + [NameList(acc + [m])], [], rest);
      WellTyped(d) && Run(Config(SSlashNames, S + [SSlash], V + [NameList(acc)], [], [IdToken(m)] + rest)) == Run(d)
  {
    var c0 := Config(SSlashNames, S + [SSlash], V + [NameList(acc)], [], [IdToken(m)] + rest);
    ShiftOne(c0, IdToken(m), rest, SNamesId);
    NamesIdReduce(S, V, acc, m, rest);
  }

  /** In SNAMESID the name is appended to the list (names -> names ID) and the list shifted back. */
  lemma NamesIdReduce(S: seq<State>, V: seq<Value>, acc: seq<string>, m: string, rest: seq<Token>)
    requires WellTyped(Config(SNamesId, S + [SSlash] + [SSlashNames], V + [NameList(acc)] + [Text(m)], [], rest))
    ensures var d := Config(SSlashNames, S + [SSlash], V + [NameList(acc + [m])], [], rest);
      WellTyped(d) && Run(Config(SNamesId, S + [SSlash] + [SSlashNames], V + [NameList(acc)] + [Text(m)], [], rest)) == Run(d)
  {
    var c1 := Config(SNamesId, S + [SSlash] + [SSlashNames], V + [NameList(acc)] + [Text(m)], [], rest);
    Below2(S, SSlash, SSlashNames);
    Below2(V, NameList(acc), Text(m));
    var names := Token(Names, NameList(acc + [m]));
    ReduceOne(c1, names);
    var c2 := Config(SSlash, S, V, [names], rest);
    assert Reduce(c1, 2, names) == c2;
    ShiftOne(c2, names, rest, SSlashNames);
  }

  /** After `\` and some names, further names are appended: names -> names ID. */
  lemma {:induction false} NamesLoop(S: seq<State>, V: seq<Value>, acc: seq<string>, more: seq<string>, rest: seq<Token>)
    requires WellTyped(Config(SSlashNames, S + [SSlash], V + [NameList(acc)], [], Ids(more) + rest))
    ensures var d := Config(SSlashNames, S + [SSlash], V + [NameList(acc + more)], [], rest);
      WellTyped(d) && Run(Config(SSlashNames, S + [SSlash], V + [NameList(acc)], [], Ids(more) + rest)) == Run(d)
    decreases |more|
  {
    var c := Config(SSlashNames, S + [SSlash], V + [NameList(acc)], [], Ids(more) + rest);
    var d := Config(SSlashNames, S + [SSlash], V + [NameList(acc + more)], [], rest);
    if more == [] {
      assert Ids(more) + rest == rest && acc + more == acc;
      assert c == d;
    } else {
      NextName(S, V, acc, more, rest);
      NamesLoop(S, V, acc + [more[0]], more[1..], rest);
      assert acc + [more[0]] + more[1..] == acc + more;
    }
  }

  /** The first of the remaining names joins the list. */
  lemma NextName(S: seq<State>, V: seq<Value>, acc: seq<string>, more: seq<string>, rest: seq<Token>)
    requires more != []
    requires WellTyped(Config(SSlashNames, S + [SSlash], V + [NameList(acc)], [], Ids(more) + rest))
    ensures var d := Config(SSlashNames, S + [SSlash], V + [NameList(acc + [more[0]])], [], Ids(more[1..]) + rest);
      WellTyped(d) && Run(Config(SSlashNames, S + [SSlash], V + [NameList(acc)], [], Ids(more) + rest)) == Run(d)
  {
    var tail := Ids(more[1..]) + rest;
    assert Ids(more) + rest == [IdToken(more[0])] + tail;
    NameStep(S, V, acc, more[0], tail);
  }

  /** Shape of a lambda's token sequence. */
  function LambdaTokens(names: seq<string>, b: Ast): seq<Token>
  {
    [Punct(Backslash)] + Ids(names) + [Punct(Dot)] + Print(b)
  }

  /** `\` and the first name: shift both, then read the name as the names nonterminal. */
  lemma {:induction false} LambdaHead(s: State, S: seq<State>, V: seq<Value>, x: string, rest: seq<Token>)
    requires AtomStart(s)
    requires WellTyped(Config(s, S, V, [], [Punct(Backslash), IdToken(x)] + rest))
    ensures var d := Config(SSlashNames, S + [s] + [SSlash], V + [NoValue] + [NameList([x])], [], rest);
      WellTyped(d) && Run(Config(s, S, V, [], [Punct(Backslash), IdToken(x)] + rest)) == Run(d)
  {
    var c0 := Config(s, S, V, [], [Punct(Backslash), IdToken(x)] + rest);
    assert ([Punct(Backslash), IdToken(x)] + rest)[1..] == [IdToken(x)] + rest;
    ShiftOne(c0, Punct(Backslash), [IdToken(x)] + rest, SSlash);
    var c1 := Config(SSlash, S + [s], V + [NoValue], [], [IdToken(x)] + rest);
    assert ([IdToken(x)] + rest)[1..] == rest;
    ShiftOne(c1, IdToken(x), rest, SNames);
    FirstName(S + [s], V + [NoValue], x, rest);
  }

  /** names -> ID, then the shift of the names nonterminal. */
  lemma FirstName(S: seq<State>, V: seq<Value>, x: string, rest: seq<Token>)
    requires WellTyped(Config(SNames, S + [SSlash], V + [Text(x)], [], rest))
    ensures var d := Config(SSlashNames, S + [SSlash], V + [NameList([x])], [], rest);
      WellTyped(d) && Run(Config(SNames, S + [SSlash], V + [Text(x)], [], rest)) == Run(d)
  {
    var c0 := Config(SNames, S + [SSlash], V + [Text(x)], [], rest);
    Below1(S, SSlash);
    Below1(V, Text(x));
    var names := Token(Names, NameList([x]));
    ReduceOne(c0, names);
    var c1 := Config(SSlash, S, V, [names], rest);
    assert Reduce(c0, 1, names) == c1;
    ShiftOne(c1, names, rest, SSlashNames);
  }

  /** `.` after the names: shift it. */
  lemma LambdaDot(S: seq<State>, V: seq<Value>, names: seq<string>, rest: seq<Token>)
    requires WellTyped(Config(SSlashNames, S + [SSlash], V + [NameList(names)], [], [Punct(Dot)] + rest))
    ensures var d := Config(SDot, S + [SSlash] + [SSlashNames], V + [NameList(names)] + [NoValue], [], rest);
      WellTyped(d) && Run(Config(SSlashNames, S + [SSlash], V + [NameList(names)], [], [Punct(Dot)] + rest)) == Run(d)
  {
    assert ([Punct(Dot)] + rest)[1..] == rest;
    ShiftOne(Config(SSlashNames, S + [SSlash], V + [NameList(names)], [], [Punct(Dot)] + rest), Punct(Dot), rest, SDot);
  }

  /** The body as a complete token: shift it, reduce atom -> \ names . complete. */
  lemma LambdaTail(s: State, S: seq<State>, V: seq<Value>, names: seq<string>, b: Ast, rest: seq<Token>)
    requires AtomStart(s)
    requires WellTyped(Config(SDot, S + [s] + [SSlash] + [SSlashNames], V + [NoValue] + [NameList(names)] + [NoValue], [Token(Complete, Node(b))], rest))
    ensures var d := Config(s, S, V, [Token(Atom, Node(Nest(names, b)))], rest);
      WellTyped(d) && Run(Config(SDot, S + [s] + [SSlash] + [SSlashNames], V + [NoValue] + [NameList(names)] + [NoValue], [Token(Complete, Node(b))], rest)) == Run(d)
  {
    var c0 := Config(SDot, S + [s] + [SSlash] + [SSlashNames], V + [NoValue] + [NameList(names)] + [NoValue], [Token(Complete, Node(b))], rest);
    ShiftOne(c0, Token(Complete, Node(b)), rest, RLambda);
    LambdaReduce(s, S, V, names, b, rest);
  }

  /** RLAMBDA pops `\`, the names, `.` and the body, and pushes back the nested functions. */
  lemma LambdaReduce(s: State, S: seq<State>, V: seq<Value>, names: seq<string>, b: Ast, rest: seq<Token>)
    requires WellTyped(Config(RLambda, S + [s] + [SSlash] + [SSlashNames] + [SDot], V + [NoValue] + [NameList(names)] + [NoValue] + [Node(b)], [], rest))
    ensures var d := Config(s, S, V, [Token(Atom, Node(Nest(names, b)))], rest);
      WellTyped(d) && Run(Config(RLambda, S + [s] + [SSlash] + [SSlashNames] + [SDot], V + [NoValue] + [NameList(names)] + [NoValue] + [Node(b)], [], rest)) == Run(d)
  {
    var c1 := Config(RLambda, S + [s] + [SSlash] + [SSlashNames] + [SDot], V + [NoValue] + [NameList(names)] + [NoValue] + [Node(b)], [], rest);
    Below4(S, s, SSlash, SSlashNames, SDot);
    Below4(V, NoValue, NameList(names), NoValue, Node(b));
    var atom := Token(Atom, Node(Nest(names, b)));
    ReduceOne(c1, atom);
    assert Reduce(c1, 4, atom) == Config(s, S, V, [atom], rest);
  }

  /** `\`, the names and `.` of a lambda: the parser ends in SDOT with the name list on its stack. */
  lemma LambdaPrefix(s: State, S: seq<State>, V: seq<Value>, names: seq<string>, tail: seq<Token>)
    requires AtomStart(s) && names != []
    requires WellTyped(Config(s, S, V, [], [Punct(Backslash)] + Ids(names) + [Punct(Dot)] + tail))
    ensures var d := Config(SDot, S + [s] + [SSlash] + [SSlashNames], V + [NoValue] + [NameList(names)] + [NoValue], [], tail);
      WellTyped(d) && Run(Config(s, S, V, [], [Punct(Backslash)] + Ids(names) + [Punct(Dot)] + tail)) == Run(d)
  {
    var after := [Punct(Dot)] + tail;
    var more := Ids(names[1..]) + after;
    assert Ids(names) == [IdToken(names[0])] + Ids(names[1..]);
    RegroupPair(Punct(Backslash), IdToken(names[0]), Ids(names[1..]), [Punct(Dot)], tail);
    LambdaHead(s, S, V, names[0], more);
    NamesLoop(S + [s], V + [NoValue], [names[0]], names[1..], after);
    HeadTail(names);
    LambdaDot(S + [s], V + [NoValue], names, tail);
  }

  /**
   * A phrase followed by END or `)`, read where a complete expression is
   * expected, reduces to one Complete token carrying the tree it stands for.
   */
  lemma {:induction false} PhraseComplete(s: State, S: seq<State>, V: seq<Value>, p: Phrase, rest: seq<Token>)
    requires ExpectsComplete(s) && WellFormed(p) && rest != [] && rest[0].kind in {End, RightParen}
    requires WellTyped(Config(s, S, V, [], PhraseTokens(p) + rest))
    ensures var d := Config(s, S, V, [Token(Complete, Node(PhraseTree(p)))], rest);
      WellTyped(d) && Run(Config(s, S, V, [], PhraseTokens(p) + rest)) == Run(d)
    decreases p, 2
  {
    PhraseExpr(s, S, V, p, rest);
    ExprToComplete(s, S, V, PhraseTree(p), rest);
  }

  /** A phrase reduces to one Expr token; one ending in a lambda needs END or `)` after it. */
  lemma {:induction false} PhraseExpr(s: State, S: seq<State>, V: seq<Value>, p: Phrase, rest: seq<Token>)
    requires ExpectsComplete(s) && WellFormed(p)
    requires OpenEnded(p) ==> rest != [] && rest[0].kind in {End, RightParen}
    requires WellTyped(Config(s, S, V, [], PhraseTokens(p) + rest))
    ensures var d := Config(s, S, V, [Token(Expr, Node(PhraseTree(p)))], rest);
      WellTyped(d) && Run(Config(s, S, V, [], PhraseTokens(p) + rest)) == Run(d)
    decreases p, 1
  {
    match p
    case Juxt(f, a) =>
      ConcatAssoc(PhraseTokens(f), PhraseTokens(a), rest);
      PhraseExpr(s, S, V, f, PhraseTokens(a) + rest);
      ArgPeek(s, S, V, PhraseTree(f), a, rest);
      PhraseAtom(SExpr, S + [s], V + [Node(PhraseTree(f))], a, rest);
      ApplyReduce(s, S, V, PhraseTree(f), PhraseTree(a), rest);
    case _ =>
      PhraseAtom(s, S, V, p, rest);
      AtomToExpr(s, S, V, PhraseTree(p), rest);
  }

  /** An expression followed by an argument: the peek sends the parser to SEXPR. */
  lemma ArgPeek(s: State, S: seq<State>, V: seq<Value>, f: Ast, a: Phrase, rest: seq<Token>)
    requires ExpectsComplete(s)
    requires WellTyped(Config(s, S, V, [Token(Expr, Node(f))], PhraseTokens(a) + rest))
    ensures var d := Config(SExpr, S + [s], V + [Node(f)], [], PhraseTokens(a) + rest);
      WellTyped(d) && Run(Config(s, S, V, [Token(Expr, Node(f))], PhraseTokens(a) + rest)) == Run(d)
  {
    PhraseFits(a);
    assert (PhraseTokens(a) + rest)[0] == PhraseTokens(a)[0];
    PeekAtomStart(s, S, V, Node(f), PhraseTokens(a) + rest);
  }
  /** An expression followed by a token that starts an atom is shifted, and the peeked token pushed back. */
  lemma PeekAtomStart(s: State, S: seq<State>, V: seq<Value>, v: Value, p: seq<Token>)
    requires ExpectsComplete(s) && p != [] && p[0].kind in {Id, LeftParen, Backslash}
    requires WellTyped(Config(s, S, V, [Token(Expr, v)], p))
    ensures var d := Config(SExpr, S + [s], V + [v], [], p);
      WellTyped(d) && Run(Config(s, S, V, [Token(Expr, v)], p)) == Run(d)
  {
    var x, more := p[0], p[1..];
    HeadTail(p);
    ShiftExpr(Config(s, S, V, [Token(Expr, v)], p), v, x, more);
    Unpeek(SExpr, S + [s], V + [v], x, more);
  }

  /** A peeked token waiting alone in the push-back slot may as well be the first token of the stream. */
  lemma Unpeek(s: State, S: seq<State>, V: seq<Value>, x: Token, more: seq<Token>)
    requires WellTyped(Config(s, S, V, [x], more))
    ensures var d := Config(s, S, V, [], [x] + more);
      WellTyped(d) && Run(Config(s, S, V, [x], more)) == Run(d)
  {
    EmptyLeft([x] + more);
    RunSplit(Config(s, S, V, [x], more), Config(s, S, V, [], [x] + more));
  }

  /** expr atom: shift the atom, reduce expr -> expr atom. */
  lemma ApplyReduce(s: State, S: seq<State>, V: seq<Value>, f: Ast, a: Ast, rest: seq<Token>)
    requires ExpectsComplete(s)
    requires WellTyped(Config(SExpr, S + [s], V + [Node(f)], [Token(Atom, Node(a))], rest))
    ensures var d := Config(s, S, V, [Token(Expr, Node(Apply(f, a)))], rest);
      WellTyped(d) && Run(Config(SExpr, S + [s], V + [Node(f)], [Token(Atom, Node(a))], rest)) == Run(d)
  {
    var c0 := Config(SExpr, S + [s], V + [Node(f)], [Token(Atom, Node(a))], rest);
    ShiftOne(c0, Token(Atom, Node(a)), rest, ExprAtom);
    var c1 := Config(ExprAtom, S + [s] + [SExpr], V + [Node(f)] + [Node(a)], [], rest);
    Below2(S, s, SExpr);
    Below2(V, Node(f), Node(a));
    var e := Token(Expr, Node(Apply(f, a)));
    ReduceOne(c1, e);
    assert Reduce(c1, 2, e) == Config(s, S, V, [e], rest);
  }

  /** An atom phrase reduces to one Atom token carrying the tree it stands for. */
  lemma {:induction false} PhraseAtom(s: State, S: seq<State>, V: seq<Value>, p: Phrase, rest: seq<Token>)
    requires AtomStart(s) && WellFormed(p) && !p.Juxt?
    requires OpenEnded(p) ==> rest != [] && rest[0].kind in {End, RightParen}
    requires WellTyped(Config(s, S, V, [], PhraseTokens(p) + rest))
    ensures var d := Config(s, S, V, [Token(Atom, Node(PhraseTree(p)))], rest);
      WellTyped(d) && Run(Config(s, S, V, [], PhraseTokens(p) + rest)) == Run(d)
    decreases p, 0
  {
    match p
    case Word(x) =>
      IdAtom(s, S, V, x, rest);
    case Group(i) =>
      var inner := [Punct(RightParen)] + rest;
      var q := PhraseTokens(p) + rest;
      assert q == [Punct(LeftParen)] + (PhraseTokens(i) + inner);
      assert q[1..] == PhraseTokens(i) + inner;
      ShiftOne(Config(s, S, V, [], q), Punct(LeftParen), PhraseTokens(i) + inner, SLeft);
      PhraseComplete(SLeft, S + [s], V + [NoValue], i, inner);
      ParenClose(s, S, V, PhraseTree(i), rest);
    case Lambda(ns, b) =>
      ConcatAssoc([Punct(Backslash)] + Ids(ns) + [Punct(Dot)], PhraseTokens(b), rest);
      LambdaPrefix(s, S, V, ns, PhraseTokens(b) + rest);
      PhraseComplete(SDot, S + [s] + [SSlash] + [SSlashNames], V + [NoValue] + [NameList(ns)] + [NoValue], b, rest);
      LambdaTail(s, S, V, ns, PhraseTree(b), rest);
  }
  /** `( complete )`: shift the complete expression and `)`, reduce atom -> ( complete ). */
  lemma ParenClose(s: State, S: seq<State>, V: seq<Value>, t: Ast, rest: seq<Token>)
    requires AtomStart(s)
    requires WellTyped(Config(SLeft, S + [s], V + [NoValue], [Token(Complete, Node(t))], [Punct(RightParen)] + rest))
    ensures var d := Config(s, S, V, [Token(Atom, Node(t))], rest);
      WellTyped(d) && Run(Config(SLeft, S + [s], V + [NoValue], [Token(Complete, Node(t))], [Punct(RightParen)] + rest)) == Run(d)
  {
    var c0 := Config(SLeft, S + [s], V + [NoValue], [Token(Complete, Node(t))], [Punct(RightParen)] + rest);
    ShiftOne(c0, Token(Complete, Node(t)), [Punct(RightParen)] + rest, SLeftComplete);
    var c1 := Config(SLeftComplete, S + [s] + [SLeft], V + [NoValue] + [Node(t)], [], [Punct(RightParen)] + rest);
    ShiftOne(c1, Punct(RightParen), rest, SLeftExprRight);
    ParenReduce(s, S, V, t, rest);
  }

  /** In SLEFTEXPRRIGHT the parenthesised expression is reduced to an atom. */
  lemma ParenReduce(s: State, S: seq<State>, V: seq<Value>, t: Ast, rest: seq<Token>)
    requires WellTyped(Config(SLeftExprRight, S + [s] + [SLeft] + [SLeftComplete], V + [NoValue] + [Node(t)] + [NoValue], [], rest))
    ensures var d := Config(s, S, V, [Token(Atom, Node(t))], rest);
      WellTyped(d) && Run(Config(SLeftExprRight, S + [s] + [SLeft] + [SLeftComplete], V + [NoValue] + [Node(t)] + [NoValue], [], rest)) == Run(d)
  {
    var c2 := Config(SLeftExprRight, S + [s] + [SLeft] + [SLeftComplete], V + [NoValue] + [Node(t)] + [NoValue], [], rest);
    Below3(S, s, SLeft, SLeftComplete);
    Below3(V, NoValue, Node(t), NoValue);
    var atom := Token(Atom, Node(t));
    ReduceOne(c2, atom);
    assert Reduce(c2, 3, atom) == Config(s, S, V, [atom], rest);
  }

  // ---------------------------------------------------------------------
  // Whole inputs

  /** complete END in SBEGIN: shift both, then accept the complete expression. */
  lemma {:induction false} Accept(t: Ast)
    requires WellTyped(Config(SBegin, [], [], [Token(Complete, Node(t))], [Punct(End)]))
    ensures Run(Config(SBegin, [], [], [Token(Complete, Node(t))], [Punct(End)])) == Ok(t)
  {
    var c0 := Config(SBegin, [], [], [Token(Complete, Node(t))], [Punct(End)]);
    ShiftOne(c0, Token(Complete, Node(t)), [Punct(End)], SBeginComplete);
    var c1 := Config(SBeginComplete, [] + [SBegin], [] + [Node(t)], [], [Punct(End)]);
    assert [Punct(End)] == [Punct(End)] + [];
    ShiftOne(c1, Punct(End), [], SBeginCompleteEnd);
    var c2 := Config(SBeginCompleteEnd, [] + [SBegin] + [SBeginComplete], [] + [Node(t)] + [NoValue], [], []);
    assert c2.values[0] == Node(t);
    assert Step(c2) == Accepted(t);
  }

  /**
   * Every well-formed phrase followed by END parses to the tree it stands
   * for: redundant parentheses only group, and a lambda may be the last
   * argument of an application without parentheses.
   */
  lemma {:induction false} ParsePhrase(p: Phrase)
    requires WellFormed(p)
    ensures TokensFit(PhraseTokens(p) + [Punct(End)]) && Run(Init(PhraseTokens(p) + [Punct(End)])) == Ok(PhraseTree(p))
  {
    PhraseFits(p);
    FitsConcat(PhraseTokens(p), [Punct(End)]);
    PhraseComplete(SBegin, [], [], p, [Punct(End)]);
    Accept(PhraseTree(p));
  }

  /** The same starting from text: a well-formed phrase written out with spaces parses to its tree. */
  lemma {:induction false} ParsePhraseText(p: Phrase)
    requires WellFormed(p) && ValidWords(p)
    ensures ParseText(Render(PhraseTokens(p))) == Ok(PhraseTree(p))
  {
    PhraseLexemes(p);
    LexRender(PhraseTokens(p));
    ParsePhrase(p);
  }

  /** Every tree, printed canonically and followed by END, parses back to itself. */
  lemma {:induction false} ParsePrinted(t: Ast)
    ensures TokensFit(Print(t) + [Punct(End)]) && Run(Init(Print(t) + [Punct(End)])) == Ok(t)
  {
    CanonicalPhrase(t);
    ParsePhrase(Canonical(t));
  }

  /** The same starting from text: the printed tree, written out with spaces, parses to the tree. */
  lemma {:induction false} ParseRendered(t: Ast)
    requires ValidNames(t)
    ensures ParseText(Render(Print(t))) == Ok(t)
  {
    CanonicalPhrase(t);
    CanonicalWords(t);
    ParsePhraseText(Canonical(t));
  }

  /** Parentheses around a whole printed tree change nothing. */
  lemma {:induction false} ParseParenthesized(t: Ast)
    ensures TokensFit(Paren(Print(t)) + [Punct(End)]) && Run(Init(Paren(Print(t)) + [Punct(End)])) == Ok(t)
  {
    CanonicalPhrase(t);
    ParsePhrase(Group(Canonical(t)));
  }

  /** `f \x y. b`: a lambda as the last argument needs no parentheses, and is the argument. */
  lemma {:induction false} ParseTrailingLambda(f: Ast, names: seq<string>, b: Ast)
    requires names != []
    ensures var ts := PhraseTokens(CanonicalExpr(f)) + LambdaTokens(names, b) + [Punct(End)];
      TokensFit(ts) && Run(Init(ts)) == Ok(Apply(f, Nest(names, b)))
  {
    CanonicalPhrase(f);
    CanonicalPhrase(b);
    ParsePhrase(Juxt(CanonicalExpr(f), Lambda(names, Canonical(b))));
  }

  /** `\x y z. body` parses to nested single-name functions, the first name outermost. */
  lemma {:induction false} ParseLambda(names: seq<string>, b: Ast)
    requires names != []
    ensures TokensFit(LambdaTokens(names, b) + [Punct(End)])
    ensures Run(Init(LambdaTokens(names, b) + [Punct(End)])) == Ok(Nest(names, b))
  {
    CanonicalPhrase(b);
    ParsePhrase(Lambda(names, Canonical(b)));
  }

  // ---------------------------------------------------------------------
  // A stream that ends in END never runs dry

  /** Accepted already, or the last token still to be read is END. */
  predicate EndsWithEnd(c: Config)
  {
    c.state == SBeginCompleteEnd || (Stream(c) != [] && Stream(c)[|Stream(c)| - 1].kind == End)
  }

  lemma StepKeepsEnd(c: Config)
    requires WellTyped(c) && EndsWithEnd(c)
    ensures Step(c) != Rejected(StopIteration)
    ensures Step(c).Running? ==> EndsWithEnd(Step(c).next)
  {
    if c.state == SBeginCompleteEnd {
    } else if !IsShiftState(c.state) {
      var t := Reduced(c);
      assert Step(c) == Running(Reduce(c, PopCount(c.state), t));
      assert Stream(Reduce(c, PopCount(c.state), t)) == [t] + Stream(c);
    } else {
      ShiftKeepsEnd(c);
    }
  }

  lemma ShiftKeepsEnd(c: Config)
    requires WellTyped(c) && EndsWithEnd(c) && IsShiftState(c.state)
    ensures Step(c) != Rejected(StopIteration)
    ensures Step(c).Running? ==> EndsWithEnd(Step(c).next)
  {
    TakeStream(c.head, c.tail);
    var tk := Take(c.head, c.tail).value;
    var rest := tk.head + tk.tail;
    assert Stream(c) == [tk.token] + rest;
    if tk.token.kind == Expr && ExpectsComplete(c.state) {
      PeekKeepsEnd(c, tk);
    } else {
      if tk.token.kind != End {
        assert rest != [] && rest[|rest| - 1] == Stream(c)[|Stream(c)| - 1];
      }
      match Goto(c.state, tk.token.kind)
      case None =>
        assert Step(c) == Rejected(ParseError);
      case Some(target) =>
        assert Step(c) == Running(Shift(c, target, tk.token.value, tk.head, tk.tail));
        assert Stream(Shift(c, target, tk.token.value, tk.head, tk.tail)) == rest;
    }
  }

  lemma PeekKeepsEnd(c: Config, tk: Taken)
    requires WellTyped(c) && IsShiftState(c.state) && ExpectsComplete(c.state)
    requires Take(c.head, c.tail) == Some(tk) && tk.token.kind == Expr
    requires Stream(c) == [tk.token] + (tk.head + tk.tail)
    requires Stream(c)[|Stream(c)| - 1].kind == End
    ensures Step(c) != Rejected(StopIteration)
    ensures Step(c).Running? ==> EndsWithEnd(Step(c).next)
  {
    var rest := tk.head + tk.tail;
    assert rest != [] && rest[|rest| - 1] == Stream(c)[|Stream(c)| - 1];
    TakeStream(tk.head, tk.tail);
    var pk := Take(tk.head, tk.tail).value;
    var target := if pk.token.kind in {End, RightParen} then RComplete else SExpr;
    assert Step(c) == Running(Shift(c, target, tk.token.value, [pk.token] + pk.head, pk.tail));
    assert [pk.token] + pk.head + pk.tail == rest;
  }

  /** A step rejects only when the table has no entry or the stream is exhausted. */
  lemma StepRejects(c: Config)
    requires WellTyped(c)
    ensures Step(c).Rejected? ==> Step(c).error in {ParseError, StopIteration}
  {
    if IsShiftState(c.state) && c.state != SBeginCompleteEnd {
      assert Step(c) == ShiftStep(c);
    }
  }

  /**
   * The parse loop never asks an END-terminated stream for a token it does
   * not have: it accepts a tree or stops with ParseError.
   */
  lemma {:induction false} NeverRunsDry(c: Config)
    requires WellTyped(c) && EndsWithEnd(c)
    ensures Run(c).Ok? || Run(c) == Fail(ParseError)
    decreases |c.tail|, Potential(c)
  {
    StepWellTyped(c);
    StepKeepsEnd(c);
    StepRejects(c);
    if Step(c).Running? {
      NeverRunsDry(Step(c).next);
    }
  }

  /** Parsing text fails with ParseError or succeeds; the token stream is never exhausted. */
  lemma ParseTextNeverRunsDry(s: string)
    ensures ParseText(s).Ok? || ParseText(s) == Fail(ParseError)
  {
    LexFailsIff(s);
    if Lex(s).Ok? {
      var ts := Lex(s).value;
      LexShape(s);
      TokenizationFits(ts);
      NeverRunsDry(Init(ts));
    }
  }

  // ---------------------------------------------------------------------
  // Concrete inputs

  /** The empty text is END alone, which SBEGIN cannot shift. */
  lemma EmptyTextRejected()
    ensures ParseText("") == Fail(ParseError)
  {
    assert Lex("") == Ok([Punct(End)]);
    var c := Init([Punct(End)]);
    assert Step(c) == Rejected(ParseError);
  }

  /** One single-letter identifier in front of already-lexed text. */
  lemma LexIdChar(c: char, rest: string, v: seq<Token>)
    requires IsIdChar(c) && (rest == [] || !IsIdChar(rest[0])) && Lex(rest) == Ok(v)
    ensures Lex([c] + rest) == Ok([IdToken([c])] + v)
  {
    RunLengthOfRun([c] + rest, 1);
    assert ([c] + rest)[..1] == [c] && ([c] + rest)[1..] == rest;
  }

  /** A space in front of already-lexed text. */
  lemma LexSpace(rest: string)
    ensures Lex([' '] + rest) == Lex(rest)
  {
    assert ([' '] + rest)[1..] == rest;
  }

  /** A one-character token in front of already-lexed text. */
  lemma LexPunct(c: char, rest: string, v: seq<Token>)
    requires SingleToken(c).Some? && Lex(rest) == Ok(v)
    ensures Lex([c] + rest) == Ok([Punct(SingleToken(c).value)] + v)
  {
    assert ([c] + rest)[1..] == rest;
  }

  /** `(x`: the parenthesised expression is complete, but END arrives where `)` must. */
  lemma UnclosedParenRejected()
    ensures ParseText("(x") == Fail(ParseError)
  {
    LexUnclosed();
    RunUnclosed("x");
  }

  lemma LexUnclosed()
    ensures Lex("(x") == Ok([Punct(LeftParen), IdToken("x"), Punct(End)])
  {
    var end := [Punct(End)];
    assert Lex("") == Ok(end);
    var s1 := ['x'] + "";
    LexIdChar('x', "", end);
    var s2 := ['('] + s1;
    LexPunct('(', s1, [IdToken(['x'])] + end);
    assert s2 == "(x" && ['x'] == "x";
    assert [Punct(LeftParen)] + ([IdToken(['x'])] + end) == [Punct(LeftParen), IdToken("x"), Punct(End)];
  }

  /** `( name` END is rejected, whatever the name. */
  lemma RunUnclosed(x: string)
    ensures TokensFit([Punct(LeftParen), IdToken(x), Punct(End)])
    ensures Run(Init([Punct(LeftParen), IdToken(x), Punct(End)])) == Fail(ParseError)
  {
    var end := [Punct(End)];
    var ts := [Punct(LeftParen), IdToken(x), Punct(End)];
    assert TokensFit(ts) by {
      assert TokenFits(ts[0]) && TokenFits(ts[1]) && TokenFits(ts[2]);
    }
    assert ts == [Punct(LeftParen)] + (Print(Name(x)) + end);
    ShiftOne(Init(ts), Punct(LeftParen), Print(Name(x)) + end, SLeft);
    UnclosedBody([] + [SBegin], [] + [NoValue], x);
  }

  lemma UnclosedBody(S: seq<State>, V: seq<Value>, x: string)
    requires WellTyped(Config(SLeft, S, V, [], Print(Name(x)) + [Punct(End)]))
    ensures Run(Config(SLeft, S, V, [], Print(Name(x)) + [Punct(End)])) == Fail(ParseError)
  {
    var end := [Punct(End)];
    PhraseComplete(SLeft, S, V, Word(x), end);
    var c1 := Config(SLeft, S, V, [Token(Complete, Node(Name(x)))], end);
    ShiftOne(c1, Token(Complete, Node(Name(x))), end, SLeftComplete);
    EndInsideParens(Config(SLeftComplete, S + [SLeft], V + [Node(Name(x))], [], end));
  }

  /** After `( complete` only `)` may follow: END is a ParseError. */
  lemma EndInsideParens(c: Config)
    requires WellTyped(c) && c.state == SLeftComplete && c.head == [] && c.tail == [Punct(End)]
    ensures Run(c) == Fail(ParseError)
  {
    assert c.tail[1..] == [];
    assert Take(c.head, c.tail) == Some(Taken(Punct(End), [], []));
    assert Step(c) == Rejected(ParseError);
  }

  /** `f a b` is `(f a) b`: application associates to the left. */
  lemma ApplicationAssociatesLeft()
    ensures ParseText("f a b") == Ok(Apply(Apply(Name("f"), Name("a")), Name("b")))
  {
    var t := Apply(Apply(Name("f"), Name("a")), Name("b"));
    var end := [Punct(End)];
    assert Lex("") == Ok(end);
    var s1 := ['b'] + "";
    LexIdChar('b', "", end);
    var v1 := [IdToken(['b'])] + end;
    var s2 := [' '] + s1;
    LexSpace(s1);
    var s3 := ['a'] + s2;
    LexIdChar('a', s2, v1);
    var v3 := [IdToken(['a'])] + v1;
    var s4 := [' '] + s3;
    LexSpace(s3);
    var s5 := ['f'] + s4;
    LexIdChar('f', s4, v3);
    var v5 := [IdToken(['f'])] + v3;
    assert s5 == "f a b";
    assert ['f'] == "f" && ['a'] == "a" && ['b'] == "b";
    assert v5 == Print(t) + end;
    ParsePrinted(t);
  }

  /** `(f a) b`: the parentheses around `f a` only group. */
  lemma RedundantParentheses()
    ensures ParseText("(f a) b") == Ok(Apply(Apply(Name("f"), Name("a")), Name("b")))
  {
    LexRedundantParentheses();
    RedundantParenthesesTokens();
    ParsePhrase(Juxt(Group(Juxt(Word("f"), Word("a"))), Word("b")));
  }

  lemma LexRedundantParentheses()
    ensures Lex("(f a) b") == Ok([Punct(LeftParen)] + ([IdToken("f")] + ([IdToken("a")] + ([Punct(RightParen)] + ([IdToken("b")] + [Punct(End)])))))
  {
    var end := [Punct(End)];
    assert Lex("") == Ok(end);
    var s1 := ['b'] + "";
    LexIdChar('b', "", end);
    var v1 := [IdToken(['b'])] + end;
    var s2 := [' '] + s1;
    LexSpace(s1);
    var s3 := [')'] + s2;
    LexPunct(')', s2, v1);
    var v3 := [Punct(RightParen)] + v1;
    var s4 := ['a'] + s3;
    LexIdChar('a', s3, v3);
    var v4 := [IdToken(['a'])] + v3;
    var s5 := [' '] + s4;
    LexSpace(s4);
    var s6 := ['f'] + s5;
    LexIdChar('f', s5, v4);
    var v6 := [IdToken(['f'])] + v4;
    var s7 := ['('] + s6;
    LexPunct('(', s6, v6);
    assert s7 == "(f a) b";
    assert ['f'] == "f" && ['a'] == "a" && ['b'] == "b";
  }

  lemma RedundantParenthesesTokens()
    ensures PhraseTokens(Juxt(Group(Juxt(Word("f"), Word("a"))), Word("b"))) + [Punct(End)]
         == [Punct(LeftParen)] + ([IdToken("f")] + ([IdToken("a")] + ([Punct(RightParen)] + ([IdToken("b")] + [Punct(End)]))))
  {
  }

  /** `f \\x. x`: a lambda as the last argument needs no parentheses. */
  lemma TrailingLambda()
    ensures ParseText("f \\x. x") == Ok(Apply(Name("f"), Function("x", Name("x"))))
  {
    LexTrailingLambda();
    TrailingLambdaTokens();
    ParsePhrase(Juxt(Word("f"), Lambda(["x"], Word("x"))));
    assert Nest(["x"], Name("x")) == Function("x", Name("x")) by {
      assert ["x"][1..] == [];
    }
  }

  lemma LexTrailingLambda()
    ensures Lex("f \\x. x") == Ok([IdToken("f")] + ([Punct(Backslash)] + ([IdToken("x")] + ([Punct(Dot)] + ([IdToken("x")] + [Punct(End)])))))
  {
    var end := [Punct(End)];
    assert Lex("") == Ok(end);
    var s1 := ['x'] + "";
    LexIdChar('x', "", end);
    var v1 := [IdToken(['x'])] + end;
    var s2 := [' '] + s1;
    LexSpace(s1);
    var s3 := ['.'] + s2;
    LexPunct('.', s2, v1);
    var v3 := [Punct(Dot)] + v1;
    var s4 := ['x'] + s3;
    LexIdChar('x', s3, v3);
    var v4 := [IdToken(['x'])] + v3;
    var s5 := ['\\'] + s4;
    LexPunct('\\', s4, v4);
    var v5 := [Punct(Backslash)] + v4;
    var s6 := [' '] + s5;
    LexSpace(s5);
    var s7 := ['f'] + s6;
    LexIdChar('f', s6, v5);
    assert s7 == "f \\x. x";
    assert ['f'] == "f" && ['x'] == "x";
  }

  lemma TrailingLambdaTokens()
    ensures PhraseTokens(Juxt(Word("f"), Lambda(["x"], Word("x")))) + [Punct(End)]
         == [IdToken("f")] + ([Punct(Backslash)] + ([IdToken("x")] + ([Punct(Dot)] + ([IdToken("x")] + [Punct(End)]))))
  {
    assert Ids(["x"]) == [IdToken("x")] by {
      assert ["x"][1..] == [];
    }
  }

  /** `\x y. x` is a function of x returning a function of y. */
  lemma LambdaExample()
    ensures ParseText("\\x y. x") == Ok(Function("x", Function("y", Name("x"))))
  {
    var names, b := ["x", "y"], Name("x");
    LexLambdaExample();
    LambdaExampleTokens();
    ParseLambda(names, b);
    assert Nest(names, b) == Function("x", Function("y", Name("x")));
  }

  lemma LexLambdaExample()
    ensures Lex("\\x y. x") == Ok([Punct(Backslash)] + ([IdToken("x")] + ([IdToken("y")] + ([Punct(Dot)] + ([IdToken("x")] + [Punct(End)])))))
  {
    var end := [Punct(End)];
    assert Lex("") == Ok(end);
    var s1 := ['x'] + "";
    LexIdChar('x', "", end);
    var v1 := [IdToken(['x'])] + end;
    var s2 := [' '] + s1;
    LexSpace(s1);
    var s3 := ['.'] + s2;
    LexPunct('.', s2, v1);
    var v3 := [Punct(Dot)] + v1;
    var s4 := ['y'] + s3;
    LexIdChar('y', s3, v3);
    var v4 := [IdToken(['y'])] + v3;
    var s5 := [' '] + s4;
    LexSpace(s4);
    var s6 := ['x'] + s5;
    LexIdChar('x', s5, v4);
    var v6 := [IdToken(['x'])] + v4;
    var s7 := ['\\'] + s6;
    LexPunct('\\', s6, v6);
    assert s7 == "\\x y. x";
    assert ['x'] == "x" && ['y'] == "y";
  }

  lemma LambdaExampleTokens()
    ensures LambdaTokens(["x", "y"], Name("x")) + [Punct(End)] == [Punct(Backslash)] + ([IdToken("x")] + ([IdToken("y")] + ([Punct(Dot)] + ([IdToken("x")] + [Punct(End)]))))
  {
    assert Ids(["y"]) == [IdToken("y")] by {
      assert ["y"][1..] == [];
    }
    assert Ids(["x", "y"]) == [IdToken("x"), IdToken("y")] by {
      assert ["x", "y"][1..] == ["y"];
    }
  }
}
