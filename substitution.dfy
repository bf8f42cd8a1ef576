/**
 * `FunctionExpr.__call__` of church/expr.py: one beta step. Every reference
 * to the function's parameter in its body becomes the argument, and every
 * binder inside the body is replaced by a new parameter with the same name.
 * New parameters are counter-numbered: the call takes the first unused
 * number and returns the next one.
 */
module Substitution {
  import opened Outcomes
  import opened Exprs
  import opened Codec
  import opened Seqs
  import Syntax

  /**
   * The expression `__call__` builds for the body part `e`, given what each
   * parameter in scope is replaced by; Malformed when a reference has no
   * replacement or a binder re-binds a parameter that has one.
   */
  function SubstTree(e: Expr, replacements: map<Param, Expr>, next: nat): (r: Result<(Expr, nat)>)
    ensures r.Ok? ==> r.value.1 >= next
    ensures r.Fail? ==> r.error == Malformed
  {
    match e
    case ParameterReference(q) =>
      if q in replacements then Ok((replacements[q], next)) else Fail(Malformed)
    case FunctionExpr(q, b) =>
      if q in replacements then Fail(Malformed)
      else
        var renewed := Param(next, q.name);
        var body :- SubstTree(b, replacements[q := ParameterReference(renewed)], next + 1);
        Ok((FunctionExpr(renewed, body.0), body.1))
    case ApplyExpr(g, a) =>
      var fn :- SubstTree(g, replacements, next);
      var arg :- SubstTree(a, replacements, fn.1);
      Ok((ApplyExpr(fn.0, arg.0), arg.1))
  }

  /** `f(argument)` for a FunctionExpr `f`, numbering new parameters from `next`. */
  function Called(f: Expr, argument: Expr, next: nat): Result<(Expr, nat)>
    requires f.FunctionExpr?
  {
    SubstTree(f.body, map[f.parameter := argument], next)
  }

  // ---------------------------------------------------------------------
  // The loop of `__call__`, one piece at a time.

  datatype SubstState = SubstState(stack: seq<Expr>, replacements: map<Param, Expr>, next: nat)

  /**
   * What one iteration of `__call__` does with one piece. A pop from an
   * empty list, a missing key, a failed assert, and reading `.parameter` off
   * a replacement that is not a reference are all Malformed.
   */
  function SubstStep(piece: Piece, st: SubstState): Result<SubstState>
  {
    match piece
    case CloseApply =>
      var m := |st.stack|;
      if m < 2 then Fail(Malformed)
      else Ok(st.(stack := st.stack[..m - 2] + [ApplyExpr(st.stack[m - 2], st.stack[m - 1])]))
    case OpenApply => Ok(st)
    case OpenFunction(q) =>
      if q in st.replacements then Fail(Malformed)
      else Ok(SubstState(st.stack, st.replacements[q := ParameterReference(Param(st.next, q.name))], st.next + 1))
    case CloseFunction(q) =>
      if q !in st.replacements || !st.replacements[q].ParameterReference? || st.stack == [] then Fail(Malformed)
      else
        var m := |st.stack|;
        Ok(SubstState(st.stack[..m - 1] + [FunctionExpr(st.replacements[q].parameter, st.stack[m - 1])],
                      st.replacements - {q}, st.next))
    case NameRef(q) =>
      if q !in st.replacements then Fail(Malformed)
      else Ok(st.(stack := st.stack + [st.replacements[q]]))
  }

  /** The outcome of `__call__`'s loop over `pieces`, then its final pop and check. */
  function SubstFold(pieces: seq<Piece>, st: SubstState): Result<(Expr, nat)>
  {
    if pieces == [] then
      if |st.stack| != 1 then Fail(Malformed) else Ok((st.stack[0], st.next))
    else
      match SubstStep(pieces[0], st)
      case Fail(err) => Fail(err)
      case Ok(st') => SubstFold(pieces[1..], st')
  }

  lemma SubstFoldCons(x: Piece, t: seq<Piece>, st: SubstState)
    ensures var step := SubstStep(x, st);
      SubstFold([x] + t, st) == if step.Fail? then Fail(step.error) else SubstFold(t, step.value)
  {
    assert ([x] + t)[1..] == t;
  }

  /** The statement of SubstFoldPieces for one expression. */
  ghost predicate FoldsToCopy(e: Expr, st: SubstState, rest: seq<Piece>)
  {
    var r := SubstTree(e, st.replacements, st.next);
    SubstFold(Pieces(e) + rest, st)
      == if r.Ok? then SubstFold(rest, SubstState(st.stack + [r.value.0], st.replacements, r.value.1)) else Fail(Malformed)
  }

  lemma SubstFoldReference(q: Param, st: SubstState, rest: seq<Piece>)
    ensures FoldsToCopy(ParameterReference(q), st, rest)
  {
    SubstFoldCons(NameRef(q), rest, st);
  }

  lemma SubstFoldOpenFunction(q: Param, b: Expr, st: SubstState, rest: seq<Piece>)
    requires q !in st.replacements
    ensures SubstFold(Pieces(FunctionExpr(q, b)) + rest, st)
         == SubstFold(Pieces(b) + ([CloseFunction(q)] + rest),
                      SubstState(st.stack, st.replacements[q := ParameterReference(Param(st.next, q.name))], st.next + 1))
  {
    var tail := Pieces(b) + ([CloseFunction(q)] + rest);
    AppendThree([OpenFunction(q)], Pieces(b), [CloseFunction(q)], rest);
    ConcatAssoc(Pieces(b), [CloseFunction(q)], rest);
    SubstFoldCons(OpenFunction(q), tail, st);
  }

  lemma SubstFoldCloseFunction(q: Param, renewed: Param, body: Expr, st: SubstState, next: nat, rest: seq<Piece>)
    requires q !in st.replacements
    ensures SubstFold([CloseFunction(q)] + rest,
                      SubstState(st.stack + [body], st.replacements[q := ParameterReference(renewed)], next))
         == SubstFold(rest, SubstState(st.stack + [FunctionExpr(renewed, body)], st.replacements, next))
  {
    var inner := SubstState(st.stack + [body], st.replacements[q := ParameterReference(renewed)], next);
    SubstFoldCons(CloseFunction(q), rest, inner);
    assert inner.stack[..|inner.stack| - 1] == st.stack;
    MapPushPop(st.replacements, q, ParameterReference(renewed));
  }

  lemma SubstFoldFunction(q: Param, b: Expr, st: SubstState, rest: seq<Piece>)
    requires q !in st.replacements ==>
      FoldsToCopy(b, SubstState(st.stack, st.replacements[q := ParameterReference(Param(st.next, q.name))], st.next + 1),
                  [CloseFunction(q)] + rest)
    ensures FoldsToCopy(FunctionExpr(q, b), st, rest)
  {
    if q in st.replacements {
      var tail := Pieces(b) + ([CloseFunction(q)] + rest);
      assert Pieces(FunctionExpr(q, b)) + rest == [OpenFunction(q)] + tail;
      SubstFoldCons(OpenFunction(q), tail, st);
    } else {
      SubstFoldOpenFunction(q, b, st, rest);
      var renewed := Param(st.next, q.name);
      var r := SubstTree(b, st.replacements[q := ParameterReference(renewed)], st.next + 1);
      if r.Ok? {
        SubstFoldCloseFunction(q, renewed, r.value.0, st, r.value.1, rest);
      }
    }
  }

  lemma SubstFoldOpenApply(g: Expr, a: Expr, st: SubstState, rest: seq<Piece>)
    ensures SubstFold(Pieces(ApplyExpr(g, a)) + rest, st) == SubstFold(Pieces(g) + (Pieces(a) + ([CloseApply] + rest)), st)
  {
    var tail := Pieces(g) + (Pieces(a) + ([CloseApply] + rest));
    assert Pieces(ApplyExpr(g, a)) + rest == [OpenApply] + tail;
    SubstFoldCons(OpenApply, tail, st);
  }

  lemma SubstFoldCloseApply(fn: Expr, arg: Expr, st: SubstState, next: nat, rest: seq<Piece>)
    ensures SubstFold([CloseApply] + rest, SubstState(st.stack + [fn] + [arg], st.replacements, next))
         == SubstFold(rest, SubstState(st.stack + [ApplyExpr(fn, arg)], st.replacements, next))
  {
    var inner := SubstState(st.stack + [fn] + [arg], st.replacements, next);
    SubstFoldCons(CloseApply, rest, inner);
    assert inner.stack[..|inner.stack| - 2] == st.stack;
  }

  lemma SubstFoldApply(g: Expr, a: Expr, st: SubstState, rest: seq<Piece>)
    requires FoldsToCopy(g, st, Pieces(a) + ([CloseApply] + rest))
    requires SubstTree(g, st.replacements, st.next).Ok? ==>
      var rg := SubstTree(g, st.replacements, st.next).value;
      FoldsToCopy(a, SubstState(st.stack + [rg.0], st.replacements, rg.1), [CloseApply] + rest)
    ensures FoldsToCopy(ApplyExpr(g, a), st, rest)
  {
    SubstFoldOpenApply(g, a, st, rest);
    var rg := SubstTree(g, st.replacements, st.next);
    if rg.Ok? {
      var ra := SubstTree(a, st.replacements, rg.value.1);
      if ra.Ok? {
        SubstFoldCloseApply(rg.value.0, ra.value.0, st, ra.value.1, rest);
      }
    }
  }

  /**
   * Running the loop over an expression's pieces pushes the copy SubstTree
   * builds and leaves the replacements as it found them, or fails.
   */
  lemma {:induction false} SubstFoldPieces(e: Expr, st: SubstState, rest: seq<Piece>)
    ensures FoldsToCopy(e, st, rest)
  {
    match e
    case ParameterReference(q) =>
      SubstFoldReference(q, st, rest);
    case FunctionExpr(q, b) =>
      if q !in st.replacements {
        SubstFoldPieces(b, SubstState(st.stack, st.replacements[q := ParameterReference(Param(st.next, q.name))], st.next + 1),
                        [CloseFunction(q)] + rest);
      }
      SubstFoldFunction(q, b, st, rest);
    case ApplyExpr(g, a) =>
      SubstFoldPieces(g, st, Pieces(a) + ([CloseApply] + rest));
      var rg := SubstTree(g, st.replacements, st.next);
      if rg.Ok? {
        SubstFoldPieces(a, SubstState(st.stack + [rg.value.0], st.replacements, rg.value.1), [CloseApply] + rest);
      }
      SubstFoldApply(g, a, st, rest);
  }

  lemma SubstFoldComputesCall(f: Expr, argument: Expr, next: nat)
    requires f.FunctionExpr?
    ensures SubstFold(Pieces(f.body), SubstState([], map[f.parameter := argument], next)) == Called(f, argument, next)
  {
    SubstFoldPieces(f.body, SubstState([], map[f.parameter := argument], next), []);
    assert Pieces(f.body) + [] == Pieces(f.body);
  }

  /**
   * __call__: walk the body's pieces with a result stack, replacing the
   * function's parameter by the argument and every inner binder by a new
   * parameter of the same name.
   */
  method Call(f: Expr, argument: Expr, next: nat) returns (r: Result<(Expr, nat)>)
    requires f.FunctionExpr?
    ensures r == Called(f, argument, next)
  {
    SubstFoldComputesCall(f, argument, next);
    var pieces := Flatten(f.body);
    var resultStack: seq<Expr> := [];
    var replacements: map<Param, Expr> := map[f.parameter := argument];
    var counter := next;
    var i := 0;
    while i < |pieces|
      invariant 0 <= i <= |pieces|
      invariant SubstFold(pieces[i..], SubstState(resultStack, replacements, counter)) == Called(f, argument, next)
      decreases |pieces| - i
    {
      assert pieces[i..][1..] == pieces[i + 1..];
      match pieces[i] {
        case CloseApply =>
          if |resultStack| < 2 {
            return Fail(Malformed);
          }
          var arg := resultStack[|resultStack| - 1];
          var fn := resultStack[|resultStack| - 2];
          resultStack := resultStack[..|resultStack| - 2] + [ApplyExpr(fn, arg)];
        case OpenApply =>
        case OpenFunction(q) =>
          var newParameter := Param(counter, q.name);
          counter := counter + 1;
          if q in replacements {
            return Fail(Malformed);
          }
          replacements := replacements[q := ParameterReference(newParameter)];
        case CloseFunction(q) =>
          if q !in replacements || !replacements[q].ParameterReference? {
            return Fail(Malformed);
          }
          var newParameter := replacements[q].parameter;
          replacements := replacements - {q};
          if resultStack == [] {
            return Fail(Malformed);
          }
          var body := resultStack[|resultStack| - 1];
          resultStack := resultStack[..|resultStack| - 1] + [FunctionExpr(newParameter, body)];
        case NameRef(q) =>
          if q !in replacements {
            return Fail(Malformed);
          }
          resultStack := resultStack + [replacements[q]];
      }
      i := i + 1;
    }
    if |resultStack| != 1 {
      return Fail(Malformed);
    }
    return Ok((resultStack[0], counter));
  }

  // ---------------------------------------------------------------------
  // When `__call__` succeeds.

  /**
   * Under replacements for exactly the parameters of `scope`, the copy
   * exists just when the expression is well scoped there.
   */
  lemma {:induction false} SubstSucceedsIff(e: Expr, scope: seq<Param>, replacements: map<Param, Expr>, next: nat)
    requires forall x :: x in replacements <==> x in scope
    ensures SubstTree(e, replacements, next).Ok? <==> ToNameless(e, scope).Ok?
  {
    match e
    case ParameterReference(q) =>
    case FunctionExpr(q, b) =>
      if q !in scope {
        SubstSucceedsIff(b, scope + [q], replacements[q := ParameterReference(Param(next, q.name))], next + 1);
      }
    case ApplyExpr(g, a) =>
      SubstSucceedsIff(g, scope, replacements, next);
      var rg := SubstTree(g, replacements, next);
      if rg.Ok? {
        SubstSucceedsIff(a, scope, replacements, rg.value.1);
      }
  }

  /**
   * A call raises exactly when the function is not closed and well scoped,
   * whatever the argument: a reference to a parameter bound outside the
   * function has no replacement.
   */
  lemma CallSucceedsIff(f: Expr, argument: Expr, next: nat)
    requires f.FunctionExpr?
    ensures Called(f, argument, next).Ok? <==> BitstringOf(f).Ok?
  {
    SubstSucceedsIff(f.body, [f.parameter], map[f.parameter := argument], next);
    assert [] + [f.parameter] == [f.parameter];
  }

  // ---------------------------------------------------------------------
  // What `__call__` computes: the beta step on de Bruijn terms.

  /** Add `amount` to every variable at or above `cutoff` (the binders a term is moved under). */
  function Shift(d: Nameless, amount: nat, cutoff: nat): Nameless
  {
    match d
    case NVar(i) => if i < cutoff then NVar(i) else NVar(i + amount)
    case NLam(b) => NLam(Shift(b, amount, cutoff + 1))
    case NApp(g, a) => NApp(Shift(g, amount, cutoff), Shift(a, amount, cutoff))
  }

  /**
   * Substitute `a` for the variable `k` binders out (the binder being
   * eliminated), moving `a` under the `k` binders in between; variables
   * bound further out move one binder in.
   */
  function SubstAt(d: Nameless, k: nat, a: Nameless): Nameless
  {
    match d
    case NVar(i) => if i == k then Shift(a, k, 0) else if i < k then NVar(i) else NVar(i - 1)
    case NLam(b) => NLam(SubstAt(b, k + 1, a))
    case NApp(g, a') => NApp(SubstAt(g, k, a), SubstAt(a', k, a))
  }

  /** The beta step on the body of a de Bruijn abstraction. */
  function Beta(body: Nameless, a: Nameless): Nameless
  {
    SubstAt(body, 0, a)
  }

  /** Every parameter an expression binds or refers to. */
  function Params(e: Expr): set<Param>
  {
    match e
    case ParameterReference(q) => {q}
    case FunctionExpr(q, b) => {q} + Params(b)
    case ApplyExpr(g, a) => Params(g) + Params(a)
  }

  /** Every parameter is numbered below `n`. */
  predicate NumberedBelow(e: Expr, n: nat)
  {
    forall q :: q in Params(e) ==> q.id < n
  }

  lemma {:induction false} DistanceAppendIn<T>(s: seq<T>, u: seq<T>, q: T)
    requires q in u
    ensures q in s + u && Distance(s + u, q) == Distance(u, q)
    decreases |u|
  {
    var w := s + u;
    assert w[..|w| - 1] == s + u[..|u| - 1];
    if u[|u| - 1] != q {
      DistanceAppendIn(s, u[..|u| - 1], q);
    }
  }

  lemma {:induction false} DistanceAppendOut<T>(s: seq<T>, u: seq<T>, q: T)
    requires q in s && q !in u
    ensures q in s + u && Distance(s + u, q) == |u| + Distance(s, q)
    decreases |u|
  {
    if u != [] {
      var w := s + u;
      assert w[..|w| - 1] == s + u[..|u| - 1];
      DistanceAppendOut(s, u[..|u| - 1], q);
    } else {
      assert s + u == s;
    }
  }

  /**
   * Moving an expression under binders `t` it does not mention shifts its
   * de Bruijn form: the variables bound outside `u` count |t| more binders.
   */
  lemma {:induction false} ToNamelessWeaken(e: Expr, s: seq<Param>, t: seq<Param>, u: seq<Param>)
    requires forall i :: 0 <= i < |t| ==> t[i] !in Params(e)
    ensures ToNameless(e, s + t + u).Ok? <==> ToNameless(e, s + u).Ok?
    ensures ToNameless(e, s + u).Ok? ==> ToNameless(e, s + t + u).value == Shift(ToNameless(e, s + u).value, |t|, |u|)
  {
    match e
    case ParameterReference(q) =>
      assert q !in t;
      if q in u {
        DistanceAppendIn(s + t, u, q);
        DistanceAppendIn(s, u, q);
        DistanceBound(u, q);
      } else if q in s {
        DistanceAppendOut(s + t, u, q);
        DistanceAppendOut(s, u, q);
        DistanceAppendOut(s, t, q);
      }
    case FunctionExpr(q, b) =>
      assert q !in t;
      assert s + t + u + [q] == s + t + (u + [q]);
      assert s + u + [q] == s + (u + [q]);
      ToNamelessWeaken(b, s, t, u + [q]);
    case ApplyExpr(g, a) =>
      ToNamelessWeaken(g, s, t, u);
      ToNamelessWeaken(a, s, t, u);
  }

  lemma {:induction false} DistanceBound<T>(s: seq<T>, q: T)
    requires q in s
    ensures Distance(s, q) < |s|
  {
    if s[|s| - 1] != q {
      DistanceBound(s[..|s| - 1], q);
    }
  }

  /**
   * The state of `__call__` inside the body: `inner` are the body's binders
   * around the current point and `copies` their new parameters; the function
   * parameter `p` maps to the argument, and each inner binder to a reference
   * to its new parameter. Outer parameters `outer` (those the argument may
   * refer to) are numbered below `first`, new ones from `first` up to `next`.
   */
  ghost predicate CallContext(p: Param, inner: seq<Param>, copies: seq<Param>, replacements: map<Param, Expr>,
                              argument: Expr, outer: seq<Param>, first: nat, next: nat)
  {
    && |inner| == |copies|
    && Distinct([p] + inner)
    && Distinct(copies)
    && (forall x :: x in replacements <==> x in [p] + inner)
    && replacements[p] == argument
    && (forall j :: 0 <= j < |inner| ==> replacements[inner[j]] == ParameterReference(copies[j]))
    && (forall i :: 0 <= i < |outer| ==> outer[i].id < first)
    && (forall j :: 0 <= j < |copies| ==> first <= copies[j].id < next)
    && NumberedBelow(argument, first)
    && first <= next
  }

  lemma RenewedNotIn(copies: seq<Param>, outer: seq<Param>, q: Param, first: nat, next: nat)
    requires forall i :: 0 <= i < |outer| ==> outer[i].id < first
    requires forall j :: 0 <= j < |copies| ==> first <= copies[j].id < next
    requires q.id == next && first <= next
    ensures q !in outer + copies && q !in copies
  {
    var w := outer + copies;
    forall k | 0 <= k < |w| ensures w[k] != q {
      if k < |outer| {
        assert w[k] == outer[k];
      } else {
        assert w[k] == copies[k - |outer|];
      }
    }
  }

  lemma CallContextPush(p: Param, inner: seq<Param>, copies: seq<Param>, replacements: map<Param, Expr>,
                        argument: Expr, outer: seq<Param>, first: nat, next: nat, q: Param)
    requires CallContext(p, inner, copies, replacements, argument, outer, first, next)
    requires q !in [p] + inner
    ensures var nq := Param(next, q.name);
      CallContext(p, inner + [q], copies + [nq], replacements[q := ParameterReference(nq)], argument, outer, first, next + 1)
  {
    var nq := Param(next, q.name);
    RenewedNotIn(copies, outer, nq, first, next);
    DistinctPush([p] + inner, q);
    assert [p] + inner + [q] == [p] + (inner + [q]);
    DistinctPush(copies, nq);
    var r := replacements[q := ParameterReference(nq)];
    var i2, f2 := inner + [q], copies + [nq];
    forall j | 0 <= j < |i2| ensures r[i2[j]] == ParameterReference(f2[j]) {
      if j < |inner| {
        assert i2[j] == inner[j] && f2[j] == copies[j];
        assert inner[j] != q;
      }
    }
    assert p != q;
  }

  /** Where the references of the body point in the de Bruijn form. */
  lemma ContextDistances(p: Param, inner: seq<Param>, copies: seq<Param>, replacements: map<Param, Expr>,
                         argument: Expr, outer: seq<Param>, first: nat, next: nat, q: Param)
    requires CallContext(p, inner, copies, replacements, argument, outer, first, next)
    requires q in [p] + inner
    ensures q == p ==> Distance([p] + inner, q) == |inner|
    ensures q != p ==>
      && Distance([p] + inner, q) < |inner|
      && replacements[q].ParameterReference?
      && replacements[q].parameter in outer + copies
      && Distance(outer + copies, replacements[q].parameter) == Distance([p] + inner, q)
  {
    if q == p {
      DistanceAt([p] + inner, 0);
    } else {
      InnerDistance(p, inner, copies, replacements, outer, q);
    }
  }

  /** A parameter bound inside the body is replaced by its copy, as far from the end of the new scope. */
  lemma InnerDistance(p: Param, inner: seq<Param>, copies: seq<Param>, replacements: map<Param, Expr>,
                      outer: seq<Param>, q: Param)
    requires |inner| == |copies| && Distinct([p] + inner) && Distinct(copies)
    requires forall j :: 0 <= j < |inner| ==> inner[j] in replacements && replacements[inner[j]] == ParameterReference(copies[j])
    requires q in [p] + inner && q != p
    ensures && Distance([p] + inner, q) < |inner|
            && replacements[q].ParameterReference?
            && replacements[q].parameter in outer + copies
            && Distance(outer + copies, replacements[q].parameter) == Distance([p] + inner, q)
  {
    assert q in inner;
    var j :| 0 <= j < |inner| && inner[j] == q;
    CopyDistance(p, inner, outer, copies, j);
  }

  /**
   * The `j`-th inner parameter and its copy sit equally far from the ends
   * of their scopes.
   */
  lemma CopyDistance(p: Param, inner: seq<Param>, outer: seq<Param>, copies: seq<Param>, j: nat)
    requires Distinct([p] + inner) && Distinct(copies) && j < |inner| == |copies|
    ensures Distance([p] + inner, inner[j]) == |inner| - 1 - j
    ensures copies[j] in outer + copies && Distance(outer + copies, copies[j]) == |inner| - 1 - j
  {
    assert ([p] + inner)[j + 1] == inner[j];
    DistanceAt([p] + inner, j + 1);
    DistanceAt(copies, j);
    DistanceAppendIn(outer, copies, copies[j]);
  }

  /**
   * Inside the body, `__call__` computes the beta step: under the outer
   * parameters followed by the new ones, the copy's de Bruijn form is the
   * body's form with the argument substituted for the eliminated variable.
   */
  lemma {:induction false} SubstMeaning(e: Expr, p: Param, inner: seq<Param>, copies: seq<Param>,
                                        replacements: map<Param, Expr>, argument: Expr,
                                        outer: seq<Param>, first: nat, next: nat)
    requires CallContext(p, inner, copies, replacements, argument, outer, first, next)
    requires ToNameless(e, [p] + inner).Ok? && ToNameless(argument, outer).Ok?
    ensures SubstTree(e, replacements, next).Ok?
    ensures ToNameless(SubstTree(e, replacements, next).value.0, outer + copies)
         == Ok(SubstAt(ToNameless(e, [p] + inner).value, |inner|, ToNameless(argument, outer).value))
    decreases e, 1
  {
    match e
    case ParameterReference(q) =>
      SubstReferenceMeaning(q, p, inner, copies, replacements, argument, outer, first, next);
    case FunctionExpr(q, b) =>
      SubstFunctionMeaning(q, b, p, inner, copies, replacements, argument, outer, first, next);
    case ApplyExpr(g, a) =>
      SubstMeaning(g, p, inner, copies, replacements, argument, outer, first, next);
      var rg := SubstTree(g, replacements, next).value;
      SubstMeaning(a, p, inner, copies, replacements, argument, outer, first, rg.1);
  }

  /** A reference: the eliminated variable becomes the argument, any other its copy. */
  lemma SubstReferenceMeaning(q: Param, p: Param, inner: seq<Param>, copies: seq<Param>,
                              replacements: map<Param, Expr>, argument: Expr,
                              outer: seq<Param>, first: nat, next: nat)
    requires CallContext(p, inner, copies, replacements, argument, outer, first, next)
    requires ToNameless(ParameterReference(q), [p] + inner).Ok? && ToNameless(argument, outer).Ok?
    ensures SubstTree(ParameterReference(q), replacements, next).Ok?
    ensures ToNameless(SubstTree(ParameterReference(q), replacements, next).value.0, outer + copies)
         == Ok(SubstAt(ToNameless(ParameterReference(q), [p] + inner).value, |inner|, ToNameless(argument, outer).value))
  {
    ContextDistances(p, inner, copies, replacements, argument, outer, first, next, q);
    if q == p {
      forall i | 0 <= i < |copies| ensures copies[i] !in Params(argument) {
        assert first <= copies[i].id;
      }
      ToNamelessWeaken(argument, outer, copies, []);
      assert outer + copies + [] == outer + copies && outer + [] == outer;
    }
  }

  /** A function: its parameter is renewed and joins the copies. */
  lemma {:induction false} SubstFunctionMeaning(q: Param, b: Expr, p: Param, inner: seq<Param>, copies: seq<Param>,
                                                replacements: map<Param, Expr>, argument: Expr,
                                                outer: seq<Param>, first: nat, next: nat)
    requires CallContext(p, inner, copies, replacements, argument, outer, first, next)
    requires ToNameless(FunctionExpr(q, b), [p] + inner).Ok? && ToNameless(argument, outer).Ok?
    ensures SubstTree(FunctionExpr(q, b), replacements, next).Ok?
    ensures ToNameless(SubstTree(FunctionExpr(q, b), replacements, next).value.0, outer + copies)
         == Ok(SubstAt(ToNameless(FunctionExpr(q, b), [p] + inner).value, |inner|, ToNameless(argument, outer).value))
    decreases FunctionExpr(q, b), 0
  {
    var nq := Param(next, q.name);
    CallContextPush(p, inner, copies, replacements, argument, outer, first, next, q);
    ConcatAssoc([p], inner, [q]);
    SubstMeaning(b, p, inner + [q], copies + [nq], replacements[q := ParameterReference(nq)], argument,
                 outer, first, next + 1);
    RenewedNotIn(copies, outer, nq, first, next);
    ConcatAssoc(outer, copies, [nq]);
  }

  /**
   * A call of a closed function on an argument well scoped under `outer`
   * gives, under `outer`, the de Bruijn beta step of the two, as long as the
   * new parameters are numbered above every parameter already in use.
   */
  lemma CallIsBeta(f: Expr, argument: Expr, outer: seq<Param>, next: nat)
    requires f.FunctionExpr? && BitstringOf(f).Ok? && ToNameless(argument, outer).Ok?
    requires forall i :: 0 <= i < |outer| ==> outer[i].id < next
    requires NumberedBelow(argument, next)
    ensures Called(f, argument, next).Ok?
    ensures ToNameless(f, []).value.NLam?
    ensures ToNameless(Called(f, argument, next).value.0, outer)
         == Ok(Beta(ToNameless(f, []).value.body, ToNameless(argument, outer).value))
  {
    var p := f.parameter;
    assert [] + [p] == [p] && [p] + [] == [p];
    assert CallContext(p, [], [], map[p := argument], argument, outer, next, next);
    SubstMeaning(f.body, p, [], [], map[p := argument], argument, outer, next, next);
    assert outer + [] == outer;
  }

  // ---------------------------------------------------------------------
  // Every binder of the copy is new.

  /** The parameters an expression binds. */
  function Binders(e: Expr): set<Param>
  {
    match e
    case ParameterReference(_) => {}
    case FunctionExpr(q, b) => {q} + Binders(b)
    case ApplyExpr(g, a) => Binders(g) + Binders(a)
  }

  /** The names of the parameters an expression binds. */
  function BinderNames(e: Expr): set<string>
  {
    match e
    case ParameterReference(_) => {}
    case FunctionExpr(q, b) => {q.name} + BinderNames(b)
    case ApplyExpr(g, a) => BinderNames(g) + BinderNames(a)
  }

  /** How many binders an expression has. */
  function BinderCount(e: Expr): nat
  {
    match e
    case ParameterReference(_) => 0
    case FunctionExpr(_, b) => 1 + BinderCount(b)
    case ApplyExpr(g, a) => BinderCount(g) + BinderCount(a)
  }

  /**
   * The copy uses one new number per binder of the body, and each of its
   * binders either comes from a replacement or is a new parameter, numbered
   * in the range the call used and named like a binder of the body.
   */
  lemma {:induction false} SubstBinders(e: Expr, replacements: map<Param, Expr>, next: nat, kept: set<Param>)
    requires forall x :: x in replacements ==> Binders(replacements[x]) <= kept
    requires SubstTree(e, replacements, next).Ok?
    ensures var r := SubstTree(e, replacements, next).value;
      && r.1 == next + BinderCount(e)
      && forall q :: q in Binders(r.0) ==> q in kept || (next <= q.id < r.1 && q.name in BinderNames(e))
  {
    match e
    case ParameterReference(q) =>
    case FunctionExpr(q, b) =>
      var nq := Param(next, q.name);
      var m := replacements[q := ParameterReference(nq)];
      assert forall x :: x in m ==> Binders(m[x]) <= kept;
      SubstBinders(b, m, next + 1, kept);
    case ApplyExpr(g, a) =>
      SubstBinders(g, replacements, next, kept);
      var rg := SubstTree(g, replacements, next).value;
      SubstBinders(a, replacements, rg.1, kept);
  }

  /**
   * The result of a call shares no binder with the function's body except
   * through the argument: every other binder is numbered in the range the
   * call used and named like some binder of the body. `CallKeepsNames` and
   * `CallNumbersBinders` below pair each new parameter with the binder it
   * replaces.
   */
  lemma CallBindersAreFresh(f: Expr, argument: Expr, next: nat)
    requires f.FunctionExpr? && Called(f, argument, next).Ok?
    requires NumberedBelow(f, next)
    ensures var r := Called(f, argument, next).value;
      && r.1 == next + BinderCount(f.body)
      && (forall q :: q in Binders(r.0) ==> q in Binders(argument) || (next <= q.id < r.1 && q.name in BinderNames(f.body)))
      && (forall q :: q in Binders(r.0) && q in Binders(f.body) ==> q in Binders(argument))
  {
    var m := map[f.parameter := argument];
    SubstBinders(f.body, m, next, Binders(argument));
    BindersAreParams(f.body);
  }

  lemma {:induction false} BindersAreParams(e: Expr)
    ensures Binders(e) <= Params(e)
  {
    match e
    case ParameterReference(_) =>
    case FunctionExpr(_, b) => BindersAreParams(b);
    case ApplyExpr(g, a) => BindersAreParams(g); BindersAreParams(a);
  }

  // ---------------------------------------------------------------------
  // The copy keeps every name and numbers its new binders in order.

  /** The raw tree an expression reads as when each parameter is shown by its name. */
  function Erase(e: Expr): Syntax.Ast
  {
    match e
    case ParameterReference(q) => Syntax.Name(q.name)
    case FunctionExpr(q, b) => Syntax.Function(q.name, Erase(b))
    case ApplyExpr(g, a) => Syntax.Apply(Erase(g), Erase(a))
  }

  /** `e` with every reference to `p` replaced by `a`; binders are kept as they are. */
  function ReplaceRefs(e: Expr, p: Param, a: Expr): Expr
  {
    match e
    case ParameterReference(q) => if q == p then a else e
    case FunctionExpr(q, b) => FunctionExpr(q, ReplaceRefs(b, p, a))
    case ApplyExpr(g, a') => ApplyExpr(ReplaceRefs(g, p, a), ReplaceRefs(a', p, a))
  }

  /** `p` is replaced by `a`, and every other parameter by a reference to a parameter of its own name. */
  predicate RenamesOnly(replacements: map<Param, Expr>, p: Param, a: Expr)
  {
    && p in replacements && replacements[p] == a
    && forall x :: x in replacements && x != p ==>
         replacements[x].ParameterReference? && replacements[x].parameter.name == x.name
  }

  /**
   * Read by names, the copy is the body with the replaced parameter's
   * references turned into the argument: every binder and every other
   * reference keeps the name it had.
   */
  lemma {:induction false} SubstKeepsNames(e: Expr, replacements: map<Param, Expr>, next: nat, p: Param, a: Expr)
    requires RenamesOnly(replacements, p, a)
    requires SubstTree(e, replacements, next).Ok?
    ensures Erase(SubstTree(e, replacements, next).value.0) == Erase(ReplaceRefs(e, p, a))
  {
    match e
    case ParameterReference(q) =>
    case FunctionExpr(q, b) =>
      var m := replacements[q := ParameterReference(Param(next, q.name))];
      assert RenamesOnly(m, p, a);
      SubstKeepsNames(b, m, next + 1, p, a);
    case ApplyExpr(g, x) =>
      SubstKeepsNames(g, replacements, next, p, a);
      SubstKeepsNames(x, replacements, SubstTree(g, replacements, next).value.1, p, a);
  }

  /**
   * A call copies the body name for name: read by names, the result is the
   * body with each reference to the parameter replaced by the argument.
   */
  lemma CallKeepsNames(f: Expr, argument: Expr, next: nat)
    requires f.FunctionExpr? && Called(f, argument, next).Ok?
    ensures Erase(Called(f, argument, next).value.0) == Erase(ReplaceRefs(f.body, f.parameter, argument))
  {
    SubstKeepsNames(f.body, map[f.parameter := argument], next, f.parameter, argument);
  }

  /** The binders of an expression in pre-order, one entry per binder. */
  function BinderList(e: Expr): seq<Param>
  {
    match e
    case ParameterReference(_) => []
    case FunctionExpr(q, b) => [q] + BinderList(b)
    case ApplyExpr(g, a) => BinderList(g) + BinderList(a)
  }

  /** The parameters of `s` numbered `n` or above, in order. */
  function NumberedFrom(s: seq<Param>, n: nat): seq<Param>
  {
    if s == [] then [] else (if s[0].id >= n then [s[0]] else []) + NumberedFrom(s[1..], n)
  }

  /** A new parameter per entry of `s`, numbered from `n` up and named like that entry. */
  function Renumbered(s: seq<Param>, n: nat): seq<Param>
  {
    if s == [] then [] else [Param(n, s[0].name)] + Renumbered(s[1..], n + 1)
  }

  lemma {:induction false} NumberedFromAppend(s: seq<Param>, u: seq<Param>, n: nat)
    ensures NumberedFrom(s + u, n) == NumberedFrom(s, n) + NumberedFrom(u, n)
    decreases |s|
  {
    if s == [] {
      assert s + u == u;
    } else {
      assert (s + u)[1..] == s[1..] + u;
      NumberedFromAppend(s[1..], u, n);
    }
  }

  lemma {:induction false} RenumberedAppend(s: seq<Param>, u: seq<Param>, n: nat)
    ensures Renumbered(s + u, n) == Renumbered(s, n) + Renumbered(u, n + |s|)
    decreases |s|
  {
    if s == [] {
      assert s + u == u;
    } else {
      assert (s + u)[1..] == s[1..] + u;
      RenumberedAppend(s[1..], u, n + 1);
    }
  }

  lemma {:induction false} NumberedFromNone(s: seq<Param>, n: nat)
    requires forall i :: 0 <= i < |s| ==> s[i].id < n
    ensures NumberedFrom(s, n) == []
    decreases |s|
  {
    if s != [] {
      NumberedFromNone(s[1..], n);
    }
  }

  /** Filtering from `n` or from `m` agrees when no entry is numbered in between. */
  lemma {:induction false} NumberedFromGap(s: seq<Param>, n: nat, m: nat)
    requires n <= m
    requires forall i :: 0 <= i < |s| ==> s[i].id < n || s[i].id >= m
    ensures NumberedFrom(s, n) == NumberedFrom(s, m)
    decreases |s|
  {
    if s != [] {
      NumberedFromGap(s[1..], n, m);
    }
  }

  /** Every entry of `s` is numbered below `floor` or in `[next, end)`. */
  predicate Spread(s: seq<Param>, floor: nat, next: nat, end: nat)
  {
    forall i :: 0 <= i < |s| ==> s[i].id < floor || next <= s[i].id < end
  }

  /** The binder list of a copied function: its new binder, then its body's. */
  lemma NumbersFunction(q: Param, s: seq<Param>, names: seq<Param>, floor: nat, next: nat, end: nat)
    requires floor <= next < end
    requires Spread(s, floor, next + 1, end) && NumberedFrom(s, next + 1) == Renumbered(names, next + 1)
    ensures Spread([Param(next, q.name)] + s, floor, next, end)
    ensures NumberedFrom([Param(next, q.name)] + s, next) == Renumbered([q] + names, next)
  {
    var nq := Param(next, q.name);
    NumberedFromGap(s, next, next + 1);
    assert ([nq] + s)[1..] == s;
    assert ([q] + names)[1..] == names;
    assert forall i :: 0 < i <= |s| ==> ([nq] + s)[i] == s[i - 1];
  }

  lemma SpreadAppend(sg: seq<Param>, sx: seq<Param>, floor: nat, next: nat, mid: nat, end: nat)
    requires next <= mid <= end
    requires Spread(sg, floor, next, mid) && Spread(sx, floor, mid, end)
    ensures Spread(sg + sx, floor, next, end)
  {
    assert forall i :: 0 <= i < |sx| ==> (sg + sx)[|sg| + i] == sx[i];
  }

  /** The binder list of a copied application: its function's, then its argument's. */
  lemma NumbersApply(sg: seq<Param>, sx: seq<Param>, bg: seq<Param>, bx: seq<Param>, floor: nat, next: nat, mid: nat, end: nat)
    requires floor <= next && mid == next + |bg| && mid <= end
    requires Spread(sg, floor, next, mid) && NumberedFrom(sg, next) == Renumbered(bg, next)
    requires Spread(sx, floor, mid, end) && NumberedFrom(sx, mid) == Renumbered(bx, mid)
    ensures Spread(sg + sx, floor, next, end)
    ensures NumberedFrom(sg + sx, next) == Renumbered(bg + bx, next)
  {
    SpreadGap(sx, floor, next, mid, end);
    NumberedFromAppend(sg, sx, next);
    RenumberedAppend(bg, bx, next);
    SpreadAppend(sg, sx, floor, next, mid, end);
  }

  lemma SpreadGap(s: seq<Param>, floor: nat, next: nat, mid: nat, end: nat)
    requires floor <= next <= mid && Spread(s, floor, mid, end)
    ensures NumberedFrom(s, next) == NumberedFrom(s, mid)
  {
    NumberedFromGap(s, next, mid);
  }

  /**
   * The binders of the copy numbered from `next` on are exactly one new
   * parameter per binder of the body, in order, numbered `next`, `next + 1`,
   * … and named like the binder it replaces; every other binder of the copy
   * comes from a replacement and is numbered below `floor`.
   */
  lemma {:induction false} SubstNumbersBinders(e: Expr, replacements: map<Param, Expr>, next: nat, floor: nat)
    requires floor <= next
    requires forall x :: x in replacements ==> forall q :: q in Binders(replacements[x]) ==> q.id < floor
    requires SubstTree(e, replacements, next).Ok?
    ensures var r := SubstTree(e, replacements, next).value;
      && r.1 == next + |BinderList(e)|
      && Spread(BinderList(r.0), floor, next, r.1)
      && NumberedFrom(BinderList(r.0), next) == Renumbered(BinderList(e), next)
  {
    match e
    case ParameterReference(q) =>
      BinderListBelow(replacements[q], floor);
      NumberedFromNone(BinderList(replacements[q]), next);
    case FunctionExpr(q, b) =>
      var m := replacements[q := ParameterReference(Param(next, q.name))];
      SubstNumbersBinders(b, m, next + 1, floor);
      var rb := SubstTree(b, m, next + 1).value;
      NumbersFunction(q, BinderList(rb.0), BinderList(b), floor, next, rb.1);
    case ApplyExpr(g, x) =>
      SubstNumbersBinders(g, replacements, next, floor);
      var rg := SubstTree(g, replacements, next).value;
      SubstNumbersBinders(x, replacements, rg.1, floor);
      var rx := SubstTree(x, replacements, rg.1).value;
      NumbersApply(BinderList(rg.0), BinderList(rx.0), BinderList(g), BinderList(x), floor, next, rg.1, rx.1);
  }

  lemma {:induction false} BinderListBelow(e: Expr, floor: nat)
    requires forall q :: q in Binders(e) ==> q.id < floor
    ensures forall i :: 0 <= i < |BinderList(e)| ==> BinderList(e)[i].id < floor
  {
    match e
    case ParameterReference(_) =>
    case FunctionExpr(q, b) => BinderListBelow(b, floor);
    case ApplyExpr(g, a) => BinderListBelow(g, floor); BinderListBelow(a, floor);
  }

  /**
   * The new parameters of a call are pairwise distinct, one per binder of the
   * body: read in pre-order, the binders of the result numbered from `next`
   * on are `next`, `next + 1`, … named like the body's binders in the same
   * order, provided the argument's binders are numbered below `next`.
   */
  lemma CallNumbersBinders(f: Expr, argument: Expr, next: nat)
    requires f.FunctionExpr? && Called(f, argument, next).Ok?
    requires forall q :: q in Binders(argument) ==> q.id < next
    ensures var r := Called(f, argument, next).value;
      && r.1 == next + |BinderList(f.body)|
      && NumberedFrom(BinderList(r.0), next) == Renumbered(BinderList(f.body), next)
  {
    SubstNumbersBinders(f.body, map[f.parameter := argument], next, next);
  }

  // ---------------------------------------------------------------------
  // Example.

  /** Applying the identity returns the argument itself, and allocates nothing. */
  lemma IdentityCall(x: Param, argument: Expr, next: nat)
    ensures Called(FunctionExpr(x, ParameterReference(x)), argument, next) == Ok((argument, next))
  {
  }
}
