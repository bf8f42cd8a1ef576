/**
 * Binding-resolved lambda expressions of church/expr.py: every reference
 * points at a parameter object rather than at a name, and `flatten` walks an
 * expression as a stream of pieces with an explicit to-do stack.
 */
module Exprs {
  import opened Seqs

  /**
   * A parameter object. The source compares parameters by identity; here
   * `id` is that identity and `name` the name it was created with.
   */
  datatype Param = Param(id: nat, name: string)

  datatype Expr =
    | ApplyExpr(fn: Expr, arg: Expr)
    | FunctionExpr(parameter: Param, body: Expr)
    | ParameterReference(parameter: Param)

  /** What `flatten` yields: APPLY, CLOSE_APPLY, FUNCTION p, CLOSE_FUNCTION p, NAME p. */
  datatype Piece =
    | OpenApply
    | CloseApply
    | OpenFunction(param: Param)
    | CloseFunction(param: Param)
    | NameRef(param: Param)

  /** An entry of `flatten`'s to-do stack. */
  datatype Action = Process(expr: Expr) | Yield(piece: Piece)

  /** `_pieces`: how each kind of node unfolds, in output order. */
  function PieceActions(e: Expr): seq<Action>
  {
    match e
    case ApplyExpr(f, a) => [Yield(OpenApply), Process(f), Process(a), Yield(CloseApply)]
    case FunctionExpr(p, b) => [Yield(OpenFunction(p)), Process(b), Yield(CloseFunction(p))]
    case ParameterReference(p) => [Yield(NameRef(p))]
  }

  /** The pre-order walk with close markers that `flatten` produces. */
  function Pieces(e: Expr): seq<Piece>
  {
    match e
    case ApplyExpr(f, a) => [OpenApply] + Pieces(f) + Pieces(a) + [CloseApply]
    case FunctionExpr(p, b) => [OpenFunction(p)] + Pieces(b) + [CloseFunction(p)]
    case ParameterReference(p) => [NameRef(p)]
  }

  function Emit(x: Action): seq<Piece>
  {
    match x
    case Process(e) => Pieces(e)
    case Yield(p) => [p]
  }

  /** What a list of actions yields when carried out front to back. */
  function EmitAll(xs: seq<Action>): seq<Piece>
  {
    if xs == [] then [] else Emit(xs[0]) + EmitAll(xs[1..])
  }

  /** What the to-do stack still yields: its top is the end of the list. */
  function Pending(todo: seq<Action>): seq<Piece>
  {
    if todo == [] then [] else Emit(todo[|todo| - 1]) + Pending(todo[..|todo| - 1])
  }

  function Reversed<T>(xs: seq<T>): seq<T>
  {
    if xs == [] then [] else Reversed(xs[1..]) + [xs[0]]
  }

  function Size(e: Expr): nat
  {
    match e
    case ApplyExpr(f, a) => 1 + Size(f) + Size(a)
    case FunctionExpr(_, b) => 1 + Size(b)
    case ParameterReference(_) => 1
  }

  /** Nodes still to be unfolded on the to-do stack. */
  function Unprocessed(todo: seq<Action>): nat
  {
    if todo == [] then 0
    else Unprocessed(todo[..|todo| - 1]) + (if todo[|todo| - 1].Process? then Size(todo[|todo| - 1].expr) else 0)
  }

  /** Unfolding a node into its pieces keeps the output it stands for. */
  lemma ActionsOfPieces(e: Expr)
    ensures EmitAll(PieceActions(e)) == Pieces(e)
  {
    match e
    case ApplyExpr(f, a) => ApplyActionsEmit(f, a);
    case FunctionExpr(p, b) => FunctionActionsEmit(p, b);
    case ParameterReference(p) =>
      assert PieceActions(e)[1..] == [];
  }

  lemma ApplyActionsEmit(f: Expr, a: Expr)
    ensures EmitAll(PieceActions(ApplyExpr(f, a))) == Pieces(ApplyExpr(f, a))
  {
    var xs := PieceActions(ApplyExpr(f, a));
    assert EmitAll(xs[3..]) == [CloseApply] by { assert xs[3..][1..] == []; }
    assert EmitAll(xs[2..]) == Pieces(a) + [CloseApply] by { assert xs[2..][1..] == xs[3..]; }
    assert EmitAll(xs[1..]) == Pieces(f) + (Pieces(a) + [CloseApply]) by { assert xs[1..][1..] == xs[2..]; }
    AppendThree([OpenApply], Pieces(f), Pieces(a), [CloseApply]);
    ConcatAssoc(Pieces(f), Pieces(a), [CloseApply]);
  }

  lemma FunctionActionsEmit(p: Param, b: Expr)
    ensures EmitAll(PieceActions(FunctionExpr(p, b))) == Pieces(FunctionExpr(p, b))
  {
    var xs := PieceActions(FunctionExpr(p, b));
    assert EmitAll(xs[2..]) == [CloseFunction(p)] by { assert xs[2..][1..] == []; }
    assert EmitAll(xs[1..]) == Pieces(b) + [CloseFunction(p)] by { assert xs[1..][1..] == xs[2..]; }
    ConcatAssoc([OpenFunction(p)], Pieces(b), [CloseFunction(p)]);
  }

  /** Pushing a list reversed puts its first element on top. */
  lemma {:induction false} PendingPush(todo: seq<Action>, xs: seq<Action>)
    ensures Pending(todo + Reversed(xs)) == EmitAll(xs) + Pending(todo)
    decreases |xs|
  {
    if xs == [] {
      assert todo + Reversed(xs) == todo;
    } else {
      var x := xs[0];
      var t := todo + Reversed(xs[1..]);
      ConcatAssoc(todo, Reversed(xs[1..]), [x]);
      PendingSnoc(t, x);
      PendingPush(todo, xs[1..]);
      ConcatAssoc(Emit(x), EmitAll(xs[1..]), Pending(todo));
    }
  }

  lemma PendingSnoc(todo: seq<Action>, x: Action)
    ensures Pending(todo + [x]) == Emit(x) + Pending(todo)
  {
    assert (todo + [x])[..|todo|] == todo;
  }

  /** Pushing adds the weight of what is pushed. */
  lemma {:induction false} UnprocessedPush(todo: seq<Action>, xs: seq<Action>)
    ensures Unprocessed(todo + Reversed(xs)) == Unprocessed(todo) + Unprocessed(xs)
    decreases |xs|
  {
    if xs == [] {
      assert todo + Reversed(xs) == todo;
    } else {
      var t := todo + Reversed(xs[1..]);
      assert todo + Reversed(xs) == t + [xs[0]];
      UnprocessedSnoc(t, xs[0]);
      UnprocessedPush(todo, xs[1..]);
      UnprocessedCons(xs[0], xs[1..]);
      assert [xs[0]] + xs[1..] == xs;
    }
  }

  lemma UnprocessedSnoc(todo: seq<Action>, x: Action)
    ensures Unprocessed(todo + [x]) == Unprocessed(todo) + (if x.Process? then Size(x.expr) else 0)
  {
    assert (todo + [x])[..|todo|] == todo;
  }

  lemma {:induction false} UnprocessedCons(x: Action, xs: seq<Action>)
    ensures Unprocessed([x] + xs) == (if x.Process? then Size(x.expr) else 0) + Unprocessed(xs)
    decreases |xs|
  {
    if xs != [] {
      var ys := [x] + xs;
      assert ys[..|ys| - 1] == [x] + xs[..|xs| - 1];
      UnprocessedCons(x, xs[..|xs| - 1]);
    } else {
      assert ([x] + xs)[..0] == [];
    }
  }

  /**
   * flatten: pop an action; a node is replaced by its pieces (pushed
   * reversed so the first comes out first), a yielded piece is output.
   */
  method Flatten(e: Expr) returns (out: seq<Piece>)
    ensures out == Pieces(e)
  {
    out := [];
    var todo := [Process(e)];
    assert todo[..0] == [];
    while todo != []
      invariant out + Pending(todo) == Pieces(e)
      decreases |Pending(todo)|, Unprocessed(todo)
    {
      var action := todo[|todo| - 1];
      var rest := todo[..|todo| - 1];
      match action
      case Process(x) =>
        ProcessStep(todo, x);
        todo := rest + Reversed(PieceActions(x));
      case Yield(p) =>
        YieldStep(out, todo, p);
        todo := rest;
        out := out + [p];
    }
    assert Pending([]) == [];
  }

  /** Replacing a node on top of the stack by its pieces keeps the output and lowers the weight. */
  lemma ProcessStep(todo: seq<Action>, x: Expr)
    requires todo != [] && todo[|todo| - 1] == Process(x)
    ensures var next := todo[..|todo| - 1] + Reversed(PieceActions(x));
      Pending(next) == Pending(todo) && Unprocessed(next) < Unprocessed(todo)
  {
    var rest := todo[..|todo| - 1];
    assert todo == rest + [Process(x)];
    PendingSnoc(rest, Process(x));
    UnprocessedSnoc(rest, Process(x));
    PendingPush(rest, PieceActions(x));
    UnprocessedPush(rest, PieceActions(x));
    ActionsOfPieces(x);
    PieceActionsWeight(x);
  }

  /** Popping a yielded piece moves it from the stack to the output. */
  lemma YieldStep(out: seq<Piece>, todo: seq<Action>, p: Piece)
    requires todo != [] && todo[|todo| - 1] == Yield(p)
    ensures var rest := todo[..|todo| - 1];
      out + [p] + Pending(rest) == out + Pending(todo) && |Pending(rest)| < |Pending(todo)|
  {
    var rest := todo[..|todo| - 1];
    assert todo == rest + [Yield(p)];
    PendingSnoc(rest, Yield(p));
    ConcatAssoc(out, [p], Pending(rest));
  }

  lemma PieceActionsWeight(e: Expr)
    ensures Unprocessed(PieceActions(e)) < Size(e)
  {
    match e
    case ApplyExpr(f, a) => ApplyActionsWeight(f, a);
    case FunctionExpr(p, b) => FunctionActionsWeight(p, b);
    case ParameterReference(p) =>
      UnprocessedSnoc([], Yield(NameRef(p)));
      assert [] + [Yield(NameRef(p))] == PieceActions(e);
  }

  lemma ApplyActionsWeight(f: Expr, a: Expr)
    ensures Unprocessed(PieceActions(ApplyExpr(f, a))) == Size(f) + Size(a)
  {
    var x0, x1, x2, x3 := Yield(OpenApply), Process(f), Process(a), Yield(CloseApply);
    UnprocessedSnoc([], x0);
    UnprocessedSnoc([x0], x1);
    UnprocessedSnoc([x0, x1], x2);
    UnprocessedSnoc([x0, x1, x2], x3);
    assert [] + [x0] == [x0] && [x0] + [x1] == [x0, x1] && [x0, x1] + [x2] == [x0, x1, x2];
    assert [x0, x1, x2] + [x3] == PieceActions(ApplyExpr(f, a));
  }

  lemma FunctionActionsWeight(p: Param, b: Expr)
    ensures Unprocessed(PieceActions(FunctionExpr(p, b))) == Size(b)
  {
    var x0, x1, x2 := Yield(OpenFunction(p)), Process(b), Yield(CloseFunction(p));
    UnprocessedSnoc([], x0);
    UnprocessedSnoc([x0], x1);
    UnprocessedSnoc([x0, x1], x2);
    assert [] + [x0] == [x0] && [x0] + [x1] == [x0, x1];
    assert [x0, x1] + [x2] == PieceActions(FunctionExpr(p, b));
  }

  /**
   * The piece stream determines the expression, and where it ends: no
   * expression's walk is a proper prefix of another's.
   */
  lemma {:induction false} PiecesDetermine(e1: Expr, r1: seq<Piece>, e2: Expr, r2: seq<Piece>)
    requires Pieces(e1) + r1 == Pieces(e2) + r2
    ensures e1 == e2 && r1 == r2
  {
    var s := Pieces(e1) + r1;
    assert s[0] == Pieces(e1)[0] == Pieces(e2)[0];
    match e1
    case ParameterReference(p) =>
      ConsInjective(NameRef(p), r1, Pieces(e2)[0], r2);
    case ApplyExpr(f1, a1) =>
      var ApplyExpr(f2, a2) := e2;
      Regroup([OpenApply], Pieces(f1), Pieces(a1), [CloseApply], r1);
      Regroup([OpenApply], Pieces(f2), Pieces(a2), [CloseApply], r2);
      ConsInjective(OpenApply, Pieces(f1) + (Pieces(a1) + ([CloseApply] + r1)),
                    OpenApply, Pieces(f2) + (Pieces(a2) + ([CloseApply] + r2)));
      PiecesDetermine(f1, Pieces(a1) + ([CloseApply] + r1), f2, Pieces(a2) + ([CloseApply] + r2));
      PiecesDetermine(a1, [CloseApply] + r1, a2, [CloseApply] + r2);
      ConsInjective(CloseApply, r1, CloseApply, r2);
    case FunctionExpr(p1, b1) =>
      var FunctionExpr(p2, b2) := e2;
      Regroup([OpenFunction(p1)], Pieces(b1), [CloseFunction(p1)], [], r1);
      Regroup([OpenFunction(p2)], Pieces(b2), [CloseFunction(p2)], [], r2);
      ConsInjective(OpenFunction(p1), Pieces(b1) + ([CloseFunction(p1)] + r1),
                    OpenFunction(p2), Pieces(b2) + ([CloseFunction(p2)] + r2));
      PiecesDetermine(b1, [CloseFunction(p1)] + r1, b2, [CloseFunction(p2)] + r2);
      ConsInjective(CloseFunction(p1), r1, CloseFunction(p2), r2);
  }

  /** Flattening is one-to-one. */
  lemma PiecesInjective(e1: Expr, e2: Expr)
    requires Pieces(e1) == Pieces(e2)
    ensures e1 == e2
  {
    assert Pieces(e1) + [] == Pieces(e2) + [];
    PiecesDetermine(e1, [], e2, []);
  }
}
