/**
 * The imperative front end of church/lambda_parser.py: the push-back token
 * stream and the state-machine parser, proved to compute the automaton's Run.
 */
module Parser {
  import opened Outcomes
  import opened Syntax
  import opened Lexer
  import opened Automaton
  import opened Seqs

  /** Token stream with a single push-back slot. */
  class TokenStream {
    var head: seq<Token>  // the push-back list, read first
    var tail: seq<Token>  // what the underlying token iterator has not produced yet

    /** Everything still to be read, in order. */
    function Contents(): seq<Token>
      reads this
    {
      head + tail
    }

    constructor (tokens: seq<Token>)
      ensures head == [] && tail == tokens
    {
      head := [];
      tail := tokens;
    }

    /** next(): the pushed-back token if any, else the next input token; None is StopIteration. */
    method Next() returns (t: Option<Token>)
      modifies this
      ensures old(head) != [] ==> t == Some(old(head)[0]) && head == old(head)[1..] && tail == old(tail)
      ensures old(head) == [] && old(tail) != [] ==> t == Some(old(tail)[0]) && head == [] && tail == old(tail)[1..]
      ensures old(head) == [] && old(tail) == [] ==> t == None && head == [] && tail == []
      ensures t.Some? <==> old(Contents()) != []
      ensures t.Some? ==> t.value == old(Contents())[0] && Contents() == old(Contents())[1..]
      ensures var tk := Take(old(head), old(tail));
        t.Some? == tk.Some? && (t.Some? ==> t.value == tk.value.token && head == tk.value.head && tail == tk.value.tail)
    {
      if head != [] {
        t := Some(head[0]);
        head := head[1..];
      } else if tail != [] {
        t := Some(tail[0]);
        tail := tail[1..];
      } else {
        t := None;
      }
    }

    /** push(token): the next `Next` returns `token`. */
    method Push(token: Token)
      modifies this
      ensures head == [token] + old(head) && tail == old(tail)
      ensures Contents() == [token] + old(Contents())
    {
      head := [token] + head;
    }

    /** peek(): the upcoming token, left in the stream. */
    method Peek() returns (t: Option<Token>)
      modifies this
      ensures Contents() == old(Contents())
      ensures t.Some? <==> old(Contents()) != []
      ensures t.Some? ==> t.value == old(Contents())[0]
      ensures old(head) != [] ==> head == old(head) && tail == old(tail)
      ensures old(head) == [] && old(tail) != [] ==> head == [old(tail)[0]] && tail == old(tail)[1..]
      ensures var tk := Take(old(head), old(tail));
        t.Some? == tk.Some? && (t.Some? ==> t.value == tk.value.token && head == [tk.value.token] + tk.value.head && tail == tk.value.tail)
    {
      if head != [] {
        HeadTail(head);
      }
      t := Next();
      if t.Some? {
        Push(t.value);
      }
    }

    method PeekType() returns (k: Option<Kind>)
      modifies this
      ensures Contents() == old(Contents())
      ensures k.Some? <==> old(Contents()) != []
      ensures k.Some? ==> k.value == old(Contents())[0].kind
      ensures old(head) != [] ==> head == old(head) && tail == old(tail)
      ensures old(head) == [] && old(tail) != [] ==> head == [old(tail)[0]] && tail == old(tail)[1..]
      ensures var tk := Take(old(head), old(tail));
        k.Some? == tk.Some? && (k.Some? ==> k.value == tk.value.token.kind && head == [tk.value.token] + tk.value.head && tail == tk.value.tail)
    {
      var t := Peek();
      k := if t.Some? then Some(t.value.kind) else None;
    }
  }

  lemma NestSnoc(names: seq<string>, x: string, body: Ast)
    ensures Nest(names + [x], body) == Nest(names, Function(x, body))
  {
    if names != [] {
      assert (names + [x])[1..] == names[1..] + [x];
    } else {
      assert ([] + [x])[1..] == [];
    }
  }

  /**
   * SMParser.parse: a loop over an explicit state and two parallel stacks,
   * shifting tokens and pushing each reduction back into the token stream.
   */
  method ParseTokens(tokens: seq<Token>) returns (r: Result<Ast>)
    requires TokensFit(tokens)
    ensures r == Run(Init(tokens))
  {
    var ts := new TokenStream(tokens);
    var valueStack: seq<Value> := [];
    var stateStack: seq<State> := [];
    var state := SBegin;
    while true
      invariant WellTyped(Config(state, stateStack, valueStack, ts.head, ts.tail))
      invariant Run(Config(state, stateStack, valueStack, ts.head, ts.tail)) == Run(Init(tokens))
      decreases |ts.tail|, Potential(Config(state, stateStack, valueStack, ts.head, ts.tail))
    {
      ghost var c := Config(state, stateStack, valueStack, ts.head, ts.tail);
      StepWellTyped(c);
      if state == SBeginCompleteEnd {
        // Accept!
        TopEntries(c);
        return Ok(valueStack[|valueStack| - 2].tree);
      } else if IsShiftState(state) {
        var outcome;
        outcome, state, stateStack, valueStack := ShiftToken(ts, state, stateStack, valueStack);
        if outcome.Fail? {
          return Fail(outcome.error);
        }
      } else {
        state, stateStack, valueStack := ReduceRule(ts, state, stateStack, valueStack);
      }
    }
  }

  /**
   * One shift state of the loop: read a token and enter the state the table
   * gives for it (an Expr in SBegin, SLeft or SDot also peeks at the next
   * token); Fail when there is no transition or no token.
   */
  method ShiftToken(ts: TokenStream, state: State, stateStack: seq<State>, valueStack: seq<Value>)
    returns (outcome: Result<()>, state': State, stateStack': seq<State>, valueStack': seq<Value>)
    requires WellTyped(Config(state, stateStack, valueStack, ts.head, ts.tail)) && IsShiftState(state)
    modifies ts
    ensures var o := Step(Config(state, stateStack, valueStack, old(ts.head), old(ts.tail)));
      if o.Running? then outcome.Ok? && Config(state', stateStack', valueStack', ts.head, ts.tail) == o.next
      else o.Rejected? && outcome == Fail(o.error)
  {
    assert Step(Config(state, stateStack, valueStack, ts.head, ts.tail))
        == ShiftStep(Config(state, stateStack, valueStack, ts.head, ts.tail));
    state', stateStack', valueStack' := state, stateStack, valueStack;
    var token := ts.Next();
    if token.None? {
      return Fail(StopIteration), state', stateStack', valueStack';
    }
    var kind, value := token.value.kind, token.value.value;
    var target: State;
    if kind == Expr && ExpectsComplete(state) {
      var upcoming := ts.PeekType();
      if upcoming.None? {
        return Fail(StopIteration), state', stateStack', valueStack';
      }
      target := if upcoming.value in {End, RightParen} then RComplete else SExpr;
    } else {
      var next := Goto(state, kind);
      if next.None? {
        return Fail(ParseError), state', stateStack', valueStack';
      }
      target := next.value;
    }
    outcome := Ok(());
    stateStack' := stateStack + [state];
    valueStack' := valueStack + [value];
    state' := target;
  }

  /** One reduce state of the loop: pop the rule's right-hand side and push its result back. */
  method ReduceRule(ts: TokenStream, state: State, stateStack: seq<State>, valueStack: seq<Value>)
    returns (state': State, stateStack': seq<State>, valueStack': seq<Value>)
    requires WellTyped(Config(state, stateStack, valueStack, ts.head, ts.tail))
    requires !IsShiftState(state) && state != SBeginCompleteEnd
    modifies ts
    ensures Config(state', stateStack', valueStack', ts.head, ts.tail)
         == Step(Config(state, stateStack, valueStack, old(ts.head), old(ts.tail))).next
  {
    ghost var c := Config(state, stateStack, valueStack, ts.head, ts.tail);
    var n := |stateStack|;
    var k := PopCount(state);
    var result := BuildReduction(c, state, valueStack);
    state', stateStack' := stateStack[n - k], stateStack[..n - k];
    valueStack' := valueStack[..n - k];
    ts.Push(result);
    assert Config(state', stateStack', valueStack', ts.head, ts.tail) == Reduce(c, k, result);
  }

  /** The value each reduce state builds from the top of the value stack. */
  method BuildReduction(ghost c: Config, state: State, valueStack: seq<Value>) returns (result: Token)
    requires WellTyped(c) && c.state == state && c.values == valueStack
    requires !IsShiftState(state) && state != SBeginCompleteEnd
    ensures result == Reduced(c)
  {
    TopEntries(c);
    var n := |valueStack|;
    if state == RComplete {
      // complete -> expr
      result := Token(Complete, valueStack[n - 1]);
    } else if state == SNamesId {
      // names -> names ID
      var names, name := valueStack[n - 2].names, valueStack[n - 1].text;
      names := names + [name];
      result := Token(Names, NameList(names));
    } else if state == RLambda {
      // atom -> \ names . complete
      var names, atom := valueStack[n - 3].names, valueStack[n - 1].tree;
      ghost var body := atom;
      while names != []
        invariant Nest(names, atom) == Nest(valueStack[n - 3].names, body)
        decreases |names|
      {
        NestSnoc(names[..|names| - 1], names[|names| - 1], atom);
        assert names[..|names| - 1] + [names[|names| - 1]] == names;
        atom := Function(names[|names| - 1], atom);
        names := names[..|names| - 1];
      }
      result := Token(Atom, Node(atom));
    } else if state == SNames {
      // names -> ID
      result := Token(Names, NameList([valueStack[n - 1].text]));
    } else if state == SId {
      // atom -> ID
      result := Token(Atom, Node(Name(valueStack[n - 1].text)));
    } else if state == SAtom {
      // expr -> atom
      result := Token(Expr, valueStack[n - 1]);
    } else if state == ExprAtom {
      // expr -> expr atom
      result := Token(Expr, Node(Apply(valueStack[n - 2].tree, valueStack[n - 1].tree)));
    } else {
      // atom -> ( complete )
      result := Token(Atom, valueStack[n - 2]);
    }
  }

  lemma TokenizationFits(ts: seq<Token>)
    requires IsTokenization(ts)
    ensures TokensFit(ts)
  {
    forall i | 0 <= i < |ts| ensures TokenFits(ts[i]) {
      if i < |ts| - 1 {
        assert IsLexeme(ts[i]);
      }
    }
  }

  /** parse(s): tokenize, then run the automaton. */
  function ParseText(s: string): Result<Ast>
  {
    match Lex(s)
    case Fail(e) => Fail(e)
    case Ok(ts) =>
      LexShape(s);
      TokenizationFits(ts);
      Run(Init(ts))
  }

  method Parse(s: string) returns (r: Result<Ast>)
    ensures r == ParseText(s)
  {
    var tokens := Tokenize(s);
    if tokens.Fail? {
      return Fail(tokens.error);
    }
    LexShape(s);
    TokenizationFits(tokens.value);
    r := ParseTokens(tokens.value);
  }
}
