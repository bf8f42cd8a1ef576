/**
 * The shift-reduce automaton of church/lambda_parser.py (SMParser.parse) as a
 * pure transition function over configurations, with its termination measure.
 *
 * Grammar recognised (the "complete" nonterminal forces early reduction):
 *   names -> ID | names ID
 *   atom  -> ID | "(" complete ")" | "\" names "." complete
 *   expr  -> atom | expr atom
 *   complete -> expr
 */
module Automaton {
  import opened Outcomes
  import opened Syntax
  import opened Lexer

  datatype State =
    // shift states
    | SBegin | SDot | SLeft | SExpr | SBeginComplete | SLeftComplete | SSlash | SSlashNames
    // reduce states
    | ExprAtom | SLeftExprRight | SAtom | SId | SNames | RLambda | SNamesId | RComplete
    // accept state
    | SBeginCompleteEnd

  predicate IsShiftState(s: State)
  {
    s in {SBegin, SDot, SLeft, SExpr, SBeginComplete, SLeftComplete, SSlash, SSlashNames}
  }

  /** The three shift states that differ only in what a Complete token leads to. */
  predicate ExpectsComplete(s: State) { s in {SBegin, SLeft, SDot} }

  /**
   * The shift table, for every shift except an Expr token in SBegin, SLeft
   * or SDot (that one looks one token ahead). None means "no transition".
   */
  function Goto(s: State, k: Kind): Option<State>
  {
    match s
    case SBegin | SLeft | SDot =>
      if k == Id then Some(SId)
      else if k == LeftParen then Some(SLeft)
      else if k == Backslash then Some(SSlash)
      else if k == Atom then Some(SAtom)
      else if k == Complete then Some(if s == SBegin then SBeginComplete else if s == SLeft then SLeftComplete else RLambda)
      else None
    case SExpr =>
      if k == Id then Some(SId)
      else if k == LeftParen then Some(SLeft)
      else if k == Backslash then Some(SSlash)
      else if k == Atom then Some(ExprAtom)
      else None
    case SBeginComplete => if k == End then Some(SBeginCompleteEnd) else None
    case SLeftComplete => if k == RightParen then Some(SLeftExprRight) else None
    case SSlash =>
      if k == Id then Some(SNames)
      else if k == Names then Some(SSlashNames)
      else None
    case SSlashNames =>
      if k == Id then Some(SNamesId)
      else if k == Dot then Some(SDot)
      else None
    case _ => None
  }

  /** The kind of token whose shift enters each state. */
  function Access(s: State): Kind
  {
    match s
    case SId | SNames | SNamesId => Id
    case SLeft => LeftParen
    case SSlash => Backslash
    case SAtom | ExprAtom => Atom
    case RComplete | SExpr => Expr
    case SBeginComplete | SLeftComplete | RLambda => Complete
    case SBeginCompleteEnd | SBegin => End
    case SLeftExprRight => RightParen
    case SSlashNames => Names
    case SDot => Dot
  }

  /** `t` can be entered by a shift from `s`. */
  predicate Edge(s: State, t: State)
  {
    match t
    case SId | SLeft | SSlash => s in {SBegin, SLeft, SDot, SExpr}
    case SAtom | RComplete | SExpr => ExpectsComplete(s)
    case SBeginComplete => s == SBegin
    case SLeftComplete => s == SLeft
    case RLambda => s == SDot
    case ExprAtom => s == SExpr
    case SBeginCompleteEnd => s == SBeginComplete
    case SLeftExprRight => s == SLeftComplete
    case SNames | SSlashNames => s == SSlash
    case SNamesId | SDot => s == SSlashNames
    case SBegin => false
  }

  /** A lower bound on the stack height in each state (enough for every pop). */
  function MinDepth(s: State): nat
  {
    match s
    case SBegin => 0
    case SLeft | SSlash | SId | SAtom | RComplete | SExpr | SBeginComplete => 1
    case SLeftComplete | SNames | SSlashNames | ExprAtom | SBeginCompleteEnd => 2
    case SDot | SNamesId | SLeftExprRight => 3
    case RLambda => 4
  }

  /** Whether a value is the payload a token of kind `k` carries. */
  predicate Fits(v: Value, k: Kind)
  {
    match k
    case Id => v.Text?
    case Atom | Expr | Complete => v.Node?
    case Names => v.NameList?
    case _ => v == NoValue
  }

  predicate TokenFits(t: Token) { Fits(t.value, t.kind) }

  predicate TokensFit(ts: seq<Token>) { forall i :: 0 <= i < |ts| ==> TokenFits(ts[i]) }

  /** The push-back slot `head` is read before the remaining input `tail`. */
  datatype Config = Config(state: State, states: seq<State>, values: seq<Value>, head: seq<Token>, tail: seq<Token>)

  function Init(tokens: seq<Token>): Config
  {
    Config(SBegin, [], [], [], tokens)
  }

  /** The state entered right after stack entry `i` was pushed. */
  function Above(c: Config, i: nat): State
    requires i < |c.states|
  {
    if i + 1 < |c.states| then c.states[i + 1] else c.state
  }

  /** The invariant of every reachable configuration, checked as one fact rather than conjunct by conjunct. */
  predicate WellTyped(c: Config)
  {
    Typed(c) == true
  }

  /** The stacks have matching heights deep enough for every pop, each entry was pushed by a legal shift with the value that shift carries, and every token still to be read carries the value its kind implies. */
  predicate Typed(c: Config)
  {
    && |c.states| == |c.values|
    && MinDepth(c.state) <= |c.states|
    && (forall i :: 0 <= i < |c.states| ==> MinDepth(c.states[i]) <= i)
    && (forall i {:trigger Above(c, i)} :: 0 <= i < |c.states| ==> Edge(c.states[i], Above(c, i)))
    && (forall i {:trigger Above(c, i)} :: 0 <= i < |c.states| ==> Fits(c.values[i], Access(Above(c, i))))
    && TokensFit(c.head)
    && TokensFit(c.tail)
  }

  /** Stack entry `i` was entered by a legal shift and holds the value that shift carries. */
  predicate EntryFits(c: Config, i: nat)
    requires i < |c.states| == |c.values|
  {
    Edge(c.states[i], Above(c, i)) && Fits(c.values[i], Access(Above(c, i)))
  }

  /** The top four entries of a well-typed stack, which are the ones a reduction reads. */
  lemma TopEntries(c: Config)
    requires WellTyped(c)
    ensures |c.states| >= 1 ==> EntryFits(c, |c.states| - 1)
    ensures |c.states| >= 2 ==> EntryFits(c, |c.states| - 2)
    ensures |c.states| >= 3 ==> EntryFits(c, |c.states| - 3)
    ensures |c.states| >= 4 ==> EntryFits(c, |c.states| - 4)
  {
  }

  /** `\x y z. b` read as nested single-binder functions, the first name outermost. */
  function Nest(names: seq<string>, body: Ast): Ast
  {
    if names == [] then body else Function(names[0], Nest(names[1..], body))
  }

  datatype Taken = Taken(token: Token, head: seq<Token>, tail: seq<Token>)

  /** TokenStream.next: the push-back slot first, then the remaining input. */
  function Take(head: seq<Token>, tail: seq<Token>): Option<Taken>
  {
    if head != [] then Some(Taken(head[0], head[1..], tail))
    else if tail != [] then Some(Taken(tail[0], [], tail[1..]))
    else None
  }

  datatype Outcome = Running(next: Config) | Accepted(tree: Ast) | Rejected(error: Error)

  /** Pops `k` stack entries and pushes `t` back into the token stream. */
  function Reduce(c: Config, k: nat, t: Token): Config
    requires k <= |c.states| == |c.values| && 0 < k
  {
    var n := |c.states|;
    Config(c.states[n - k], c.states[..n - k], c.values[..n - k], [t] + c.head, c.tail)
  }

  /** Pushes the current state and `v`, and enters `target`. */
  function Shift(c: Config, target: State, v: Value, head: seq<Token>, tail: seq<Token>): Config
  {
    Config(target, c.states + [c.state], c.values + [v], head, tail)
  }

  /** How many stack entries each reduce state pops. */
  function PopCount(s: State): nat
  {
    match s
    case ExprAtom | SNamesId => 2
    case SLeftExprRight => 3
    case RLambda => 4
    case _ => 1
  }

  /** The nonterminal each reduce state pushes back, built from the popped values. */
  function Reduced(c: Config): Token
    requires WellTyped(c) && !IsShiftState(c.state) && c.state != SBeginCompleteEnd
  {
    TopEntries(c);
    var n := |c.states|;
    var v := c.values;
    match c.state
    case SId => Token(Atom, Node(Name(v[n - 1].text)))                              // atom -> ID
    case SAtom => Token(Expr, v[n - 1])                                             // expr -> atom
    case ExprAtom => Token(Expr, Node(Apply(v[n - 2].tree, v[n - 1].tree)))         // expr -> expr atom
    case SLeftExprRight => Token(Atom, v[n - 2])                                    // atom -> ( complete )
    case SNames => Token(Names, NameList([v[n - 1].text]))                          // names -> ID
    case SNamesId => Token(Names, NameList(v[n - 2].names + [v[n - 1].text]))       // names -> names ID
    case RLambda => Token(Atom, Node(Nest(v[n - 3].names, v[n - 1].tree)))          // atom -> \ names . complete
    case RComplete => Token(Complete, v[n - 1])                                     // complete -> expr
  }

  /** One iteration of the parse loop. */
  function Step(c: Config): Outcome
    requires WellTyped(c)
  {
    TopEntries(c);
    if c.state == SBeginCompleteEnd then
      Accepted(c.values[|c.values| - 2].tree)
    else if !IsShiftState(c.state) then
      Running(Reduce(c, PopCount(c.state), Reduced(c)))
    else
      ShiftStep(c)
  }

  /**
   * The shifting half of an iteration: take the next token (peeking one
   * further after an expression) and follow the goto table.
   */
  function ShiftStep(c: Config): Outcome
  {
    match Take(c.head, c.tail)
    case None => Rejected(StopIteration)
    case Some(tk) =>
      if tk.token.kind == Expr && ExpectsComplete(c.state) then
        match Take(tk.head, tk.tail)
        case None => Rejected(StopIteration)
        case Some(pk) =>
          var target := if pk.token.kind in {End, RightParen} then RComplete else SExpr;
          Running(Shift(c, target, tk.token.value, [pk.token] + pk.head, pk.tail))
      else
        match Goto(c.state, tk.token.kind)
        case None => Rejected(ParseError)
        case Some(target) => Running(Shift(c, target, tk.token.value, tk.head, tk.tail))
  }

  // ---------------------------------------------------------------------
  // Termination measure

  const C: nat := 10

  function W(s: State): nat
  {
    match s
    case SId => 95
    case SAtom => 93
    case ExprAtom => 83
    case RComplete => 91
    case RLambda => 65
    case SLeftExprRight => 75
    case SNames => 2
    case _ => 0
  }

  function H(k: Kind): nat
  {
    match k
    case Id => 106
    case RightParen => 86
    case Atom => 104
    case Expr => 102
    case Complete => 100
    case _ => 11
  }

  function StackWeight(s: seq<State>): nat
  {
    if s == [] then 0 else StackWeight(s[..|s| - 1]) + W(s[|s| - 1]) + C
  }

  function HeadWeight(h: seq<Token>): nat
  {
    if h == [] then 0 else H(h[0].kind) + HeadWeight(h[1..])
  }

  function Potential(c: Config): nat
  {
    W(c.state) + StackWeight(c.states) + HeadWeight(c.head)
  }

  /** Every iteration consumes input or lowers the potential. */
  predicate Progress(c: Config, d: Config)
  {
    |d.tail| < |c.tail| || (|d.tail| == |c.tail| && Potential(d) < Potential(c))
  }

  lemma {:induction false} StackWeightPop(s: seq<State>, m: nat)
    requires m < |s|
    ensures StackWeight(s) >= StackWeight(s[..m]) + W(s[m]) + (|s| - m) * C
    decreases |s| - m
  {
    var n := |s|;
    assert s[..n - 1][..m] == s[..m];
    if m < n - 1 {
      StackWeightPop(s[..n - 1], m);
      assert s[..n - 1][m] == s[m];
    }
  }

  lemma ShiftTable(s: State, k: Kind, t: State)
    requires Goto(s, k) == Some(t)
    ensures Edge(s, t) && Access(t) == k && MinDepth(t) <= MinDepth(s) + 1
    ensures H(k) > W(t) + C
  {
    ShiftTableEdge(s, k, t);
    ShiftTableWeight(s, k, t);
  }

  /** Every table entry is an edge into a state whose accessing kind is the token's. */
  lemma ShiftTableEdge(s: State, k: Kind, t: State)
    requires Goto(s, k) == Some(t)
    ensures Edge(s, t) && Access(t) == k && MinDepth(t) <= MinDepth(s) + 1
  {
  }

  /** Every shift trades a token for a state entry of smaller weight. */
  lemma ShiftTableWeight(s: State, k: Kind, t: State)
    requires Goto(s, k) == Some(t)
    ensures H(k) > W(t) + C
  {
  }

  lemma ReduceProgress(c: Config, k: nat, t: Token)
    requires 0 < k <= |c.states| == |c.values|
    requires W(c.state) + k * C > H(t.kind)
    ensures Progress(c, Reduce(c, k, t))
  {
    var n := |c.states|;
    StackWeightPop(c.states, n - k);
    assert HeadWeight([t] + c.head) == H(t.kind) + HeadWeight(c.head) by {
      assert ([t] + c.head)[1..] == c.head;
    }
  }

  lemma ShiftProgress(c: Config, target: State, tk: Taken)
    requires Take(c.head, c.tail) == Some(tk)
    requires H(tk.token.kind) > W(target) + C
    ensures Progress(c, Shift(c, target, tk.token.value, tk.head, tk.tail))
  {
    var s := c.states + [c.state];
    assert s[..|s| - 1] == c.states;
  }

  /** A step keeps the invariant and makes progress. */
  lemma StepWellTyped(c: Config)
    requires WellTyped(c)
    ensures Step(c).Running? ==> WellTyped(Step(c).next) && Progress(c, Step(c).next)
  {
    if c.state == SBeginCompleteEnd {
    } else if !IsShiftState(c.state) {
      ReducedFits(c);
      ReduceProgress(c, PopCount(c.state), Reduced(c));
      ReduceTyped(c, PopCount(c.state), Reduced(c));
    } else {
      ShiftWellTyped(c);
    }
  }

  lemma ReducedFits(c: Config)
    requires WellTyped(c) && !IsShiftState(c.state) && c.state != SBeginCompleteEnd
    ensures TokenFits(Reduced(c)) && PopCount(c.state) <= MinDepth(c.state)
    ensures W(c.state) + PopCount(c.state) * C > H(Reduced(c).kind)
  {
    ReducedTokenFits(c);
    ReducedWeight(c);
  }

  /** The token a reduction pushes back is built from entries of the right kinds. */
  lemma ReducedTokenFits(c: Config)
    requires WellTyped(c) && !IsShiftState(c.state) && c.state != SBeginCompleteEnd
    ensures TokenFits(Reduced(c)) && PopCount(c.state) <= MinDepth(c.state)
  {
    TopEntries(c);
  }

  /** A reduction weighs less than the entries it pops. */
  lemma ReducedWeight(c: Config)
    requires WellTyped(c) && !IsShiftState(c.state) && c.state != SBeginCompleteEnd
    ensures W(c.state) + PopCount(c.state) * C > H(Reduced(c).kind)
  {
  }

  lemma ShiftWellTyped(c: Config)
    requires WellTyped(c) && IsShiftState(c.state)
    ensures Step(c).Running? ==> WellTyped(Step(c).next) && Progress(c, Step(c).next)
  {
    assert Step(c) == ShiftStep(c);
    match Take(c.head, c.tail)
    case None =>
    case Some(tk) =>
      TakeFits(c.head, c.tail);
      if tk.token.kind == Expr && ExpectsComplete(c.state) {
        PeekShiftTyped(c, tk);
      } else {
        GotoShiftTyped(c, tk);
      }
  }

  /** An Expr token where a complete expression is expected: shift it and push the peeked token back. */
  lemma PeekShiftTyped(c: Config, tk: Taken)
    requires WellTyped(c) && Take(c.head, c.tail) == Some(tk)
    requires tk.token.kind == Expr && ExpectsComplete(c.state)
    requires TokenFits(tk.token) && TokensFit(tk.head) && TokensFit(tk.tail)
    ensures ShiftStep(c).Running? ==> WellTyped(ShiftStep(c).next) && Progress(c, ShiftStep(c).next)
  {
    match Take(tk.head, tk.tail)
    case None =>
    case Some(pk) =>
      TakeFits(tk.head, tk.tail);
      var target := if pk.token.kind in {End, RightParen} then RComplete else SExpr;
      FitsCons(pk.token, pk.head);
      ShiftTyped(c, target, tk.token.value, [pk.token] + pk.head, pk.tail);
      if |c.head| >= 2 {
        assert [pk.token] + pk.head == tk.head;
        ShiftProgress(c, target, tk);
      }
  }

  /** Any other token is shifted by the table, or rejected when the table has no entry. */
  lemma GotoShiftTyped(c: Config, tk: Taken)
    requires WellTyped(c) && IsShiftState(c.state) && Take(c.head, c.tail) == Some(tk)
    requires !(tk.token.kind == Expr && ExpectsComplete(c.state))
    requires TokenFits(tk.token) && TokensFit(tk.head) && TokensFit(tk.tail)
    ensures ShiftStep(c).Running? ==> WellTyped(ShiftStep(c).next) && Progress(c, ShiftStep(c).next)
  {
    match Goto(c.state, tk.token.kind)
    case None =>
    case Some(target) =>
      ShiftTable(c.state, tk.token.kind, target);
      ShiftTyped(c, target, tk.token.value, tk.head, tk.tail);
      ShiftProgress(c, target, tk);
  }

  lemma FitsCons(t: Token, ts: seq<Token>)
    requires TokenFits(t) && TokensFit(ts)
    ensures TokensFit([t] + ts)
  {
    forall i | 0 <= i < |[t] + ts| ensures TokenFits(([t] + ts)[i]) {
      if i > 0 { assert ([t] + ts)[i] == ts[i - 1]; }
    }
  }

  lemma TakeFits(head: seq<Token>, tail: seq<Token>)
    requires TokensFit(head) && TokensFit(tail)
    requires Take(head, tail).Some?
    ensures var tk := Take(head, tail).value;
      TokenFits(tk.token) && TokensFit(tk.head) && TokensFit(tk.tail)
  {
  }

  lemma ReduceTyped(c: Config, k: nat, t: Token)
    requires WellTyped(c) && 0 < k <= |c.states|
    requires TokenFits(t)
    ensures WellTyped(Reduce(c, k, t))
  {
    var d := Reduce(c, k, t);
    var n := |c.states|;
    assert |d.states| == n - k == |d.values|;
    assert MinDepth(d.state) <= n - k by {
      assert MinDepth(c.states[n - k]) <= n - k;
    }
    forall i | 0 <= i < n - k
      ensures MinDepth(d.states[i]) <= i
      ensures Edge(d.states[i], Above(d, i))
      ensures Fits(d.values[i], Access(Above(d, i)))
    {
      assert d.states[i] == c.states[i] && d.values[i] == c.values[i];
      if i + 1 < n - k {
        assert d.states[i + 1] == c.states[i + 1];
      }
      assert Above(d, i) == Above(c, i);
      assert MinDepth(c.states[i]) <= i;
      assert Edge(c.states[i], Above(c, i));
      assert Fits(c.values[i], Access(Above(c, i)));
    }
    assert TokensFit(d.head) by {
      forall i | 0 <= i < |d.head| ensures TokenFits(d.head[i]) {
        if i > 0 { assert d.head[i] == c.head[i - 1]; }
      }
    }
  }

  lemma ShiftTyped(c: Config, target: State, v: Value, head: seq<Token>, tail: seq<Token>)
    requires WellTyped(c)
    requires Edge(c.state, target) && Fits(v, Access(target)) && MinDepth(target) <= MinDepth(c.state) + 1
    requires TokensFit(head) && TokensFit(tail)
    ensures WellTyped(Shift(c, target, v, head, tail))
  {
    var d := Shift(c, target, v, head, tail);
    var n := |c.states|;
    forall i | 0 <= i < n
      ensures Above(d, i) == Above(c, i)
    {
    }
  }

  /** SMParser.parse as a function of its token stream. */
  function Run(c: Config): Result<Ast>
    requires WellTyped(c)
    decreases |c.tail|, Potential(c)
  {
    StepWellTyped(c);
    match Step(c)
    case Accepted(t) => Ok(t)
    case Rejected(e) => Fail(e)
    case Running(d) => Run(d)
  }
}
