/**
 * `lookup` and `bind` of church/expr.py: resolve every name of a raw
 * syntax tree to the parameter of its innermost enclosing binder, creating
 * one counter parameter per binder.
 */
module Binder {
  import opened Outcomes
  import opened Syntax
  import opened Exprs
  import opened Codec

  /** The names of a list of (name, parameter) bindings, outermost first. */
  function NamesOf(bindings: seq<(string, Param)>): (r: seq<string>)
    ensures |r| == |bindings| && forall i :: 0 <= i < |bindings| ==> r[i] == bindings[i].0
  {
    if bindings == [] then [] else NamesOf(bindings[..|bindings| - 1]) + [bindings[|bindings| - 1].0]
  }

  /** The parameters of a list of bindings, outermost first. */
  function ParamsOf(bindings: seq<(string, Param)>): (r: seq<Param>)
    ensures |r| == |bindings| && forall i :: 0 <= i < |bindings| ==> r[i] == bindings[i].1
  {
    if bindings == [] then [] else ParamsOf(bindings[..|bindings| - 1]) + [bindings[|bindings| - 1].1]
  }

  /** What `lookup` returns: the parameter of the last binding with this name. */
  function Resolve(bindings: seq<(string, Param)>, name: string): (r: Result<Param>)
    ensures r.Fail? ==> r.error == UnboundName
  {
    if bindings == [] then Fail(UnboundName)
    else if bindings[|bindings| - 1].0 == name then Ok(bindings[|bindings| - 1].1)
    else Resolve(bindings[..|bindings| - 1], name)
  }

  /**
   * Lookup succeeds exactly for a bound name, and then finds the binding
   * that no later binding of the same name shadows.
   */
  lemma {:induction false} ResolveInnermost(bindings: seq<(string, Param)>, name: string)
    ensures Resolve(bindings, name).Ok? <==> name in NamesOf(bindings)
    ensures name in NamesOf(bindings) ==>
      exists i :: 0 <= i < |bindings| && bindings[i].0 == name && Resolve(bindings, name) == Ok(bindings[i].1)
                  && forall j :: i < j < |bindings| ==> bindings[j].0 != name
  {
    if bindings != [] {
      var n := |bindings|;
      var init := bindings[..n - 1];
      ResolveInnermost(init, name);
      assert NamesOf(bindings) == NamesOf(init) + [bindings[n - 1].0];
      if bindings[n - 1].0 != name && name in NamesOf(bindings) {
        var i :| 0 <= i < |init| && init[i].0 == name && Resolve(init, name) == Ok(init[i].1)
                 && forall j :: i < j < |init| ==> init[j].0 != name;
        assert bindings[i] == init[i];
      }
    }
  }

  /** lookup: scan the bindings from the innermost outwards. */
  method Lookup(bindings: seq<(string, Param)>, name: string) returns (r: Result<Param>)
    ensures r == Resolve(bindings, name)
  {
    var i := |bindings|;
    assert bindings[..i] == bindings;
    while i > 0
      invariant 0 <= i <= |bindings|
      invariant Resolve(bindings[..i], name) == Resolve(bindings, name)
    {
      assert bindings[..i][..i - 1] == bindings[..i - 1];
      if bindings[i - 1].0 == name {
        return Ok(bindings[i - 1].1);
      }
      i := i - 1;
    }
    return Fail(UnboundName);
  }

  /**
   * The expression `bind` builds for `t` under `bindings`, with counter
   * parameters numbered from `next`, and the next unused number.
   */
  function BindTree(t: Ast, bindings: seq<(string, Param)>, next: nat): (r: Result<(Expr, nat)>)
    ensures r.Ok? ==> r.value.1 >= next
    ensures r.Fail? ==> r.error == UnboundName
  {
    match t
    case Name(x) =>
      var p :- Resolve(bindings, x);
      Ok((ParameterReference(p), next))
    case Function(x, b) =>
      var p := Param(next, x);
      var body :- BindTree(b, bindings + [(x, p)], next + 1);
      Ok((FunctionExpr(p, body.0), body.1))
    case Apply(f, a) =>
      var fn :- BindTree(f, bindings, next);
      var arg :- BindTree(a, bindings, fn.1);
      Ok((ApplyExpr(fn.0, arg.0), arg.1))
  }

  // ---------------------------------------------------------------------
  // The loop of `bind`, one event at a time.

  datatype BindState = BindState(stack: seq<Expr>, bindings: seq<(string, Param)>, next: nat)

  /** What one iteration of `bind` does with one event; a pop from an empty list is Malformed. */
  function BindStep(event: AstToken, st: BindState): Result<BindState>
  {
    match event
    case AstName(x) =>
      var p :- Resolve(st.bindings, x);
      Ok(st.(stack := st.stack + [ParameterReference(p)]))
    case AstOpenFunction(x) =>
      Ok(st.(bindings := st.bindings + [(x, Param(st.next, x))], next := st.next + 1))
    case AstCloseFunction(_) =>
      if st.bindings == [] || st.stack == [] then Fail(Malformed)
      else
        var n, m := |st.bindings|, |st.stack|;
        Ok(BindState(st.stack[..m - 1] + [FunctionExpr(st.bindings[n - 1].1, st.stack[m - 1])],
                     st.bindings[..n - 1], st.next))
    case AstOpenApply => Ok(st)
    case AstCloseApply =>
      if |st.stack| < 2 then Fail(Malformed)
      else
        var m := |st.stack|;
        Ok(st.(stack := st.stack[..m - 2] + [ApplyExpr(st.stack[m - 2], st.stack[m - 1])]))
  }

  /** The outcome of `bind`'s loop over `events`, then its final pop and check. */
  function BindFold(events: seq<AstToken>, st: BindState): Result<(Expr, nat)>
  {
    if events == [] then
      if |st.stack| != 1 then Fail(Malformed) else Ok((st.stack[0], st.next))
    else
      match BindStep(events[0], st)
      case Fail(err) => Fail(err)
      case Ok(st') => BindFold(events[1..], st')
  }

  lemma BindFoldCons(x: AstToken, t: seq<AstToken>, st: BindState)
    ensures var step := BindStep(x, st);
      BindFold([x] + t, st) == if step.Fail? then Fail(step.error) else BindFold(t, step.value)
  {
    assert ([x] + t)[1..] == t;
  }

  /** The statement of BindFoldEvents for one tree. */
  ghost predicate FoldsToBinding(t: Ast, st: BindState, rest: seq<AstToken>)
  {
    var r := BindTree(t, st.bindings, st.next);
    BindFold(AstEvents(t) + rest, st)
      == if r.Ok? then BindFold(rest, BindState(st.stack + [r.value.0], st.bindings, r.value.1)) else Fail(r.error)
  }

  lemma BindFoldName(x: string, st: BindState, rest: seq<AstToken>)
    ensures FoldsToBinding(Name(x), st, rest)
  {
    BindFoldCons(AstName(x), rest, st);
  }

  lemma BindFoldOpenFunction(x: string, b: Ast, st: BindState, rest: seq<AstToken>)
    ensures BindFold(AstEvents(Function(x, b)) + rest, st)
         == BindFold(AstEvents(b) + ([AstCloseFunction(x)] + rest),
                     st.(bindings := st.bindings + [(x, Param(st.next, x))], next := st.next + 1))
  {
    var tail := AstEvents(b) + ([AstCloseFunction(x)] + rest);
    assert AstEvents(Function(x, b)) == [AstOpenFunction(x)] + AstEvents(b) + [AstCloseFunction(x)];
    assert AstEvents(Function(x, b)) + rest == [AstOpenFunction(x)] + tail;
    var st' := st.(bindings := st.bindings + [(x, Param(st.next, x))], next := st.next + 1);
    assert BindStep(AstOpenFunction(x), st) == Ok(st');
    BindFoldCons(AstOpenFunction(x), tail, st);
  }

  lemma BindFoldCloseFunction(x: string, p: Param, body: Expr, st: BindState, next: nat, rest: seq<AstToken>)
    ensures BindFold([AstCloseFunction(x)] + rest, BindState(st.stack + [body], st.bindings + [(x, p)], next))
         == BindFold(rest, BindState(st.stack + [FunctionExpr(p, body)], st.bindings, next))
  {
    var inner := BindState(st.stack + [body], st.bindings + [(x, p)], next);
    BindFoldCons(AstCloseFunction(x), rest, inner);
    assert inner.stack[..|inner.stack| - 1] == st.stack;
    assert inner.bindings[..|inner.bindings| - 1] == st.bindings;
  }

  lemma BindFoldFunction(x: string, b: Ast, st: BindState, rest: seq<AstToken>)
    requires FoldsToBinding(b, st.(bindings := st.bindings + [(x, Param(st.next, x))], next := st.next + 1),
                            [AstCloseFunction(x)] + rest)
    ensures FoldsToBinding(Function(x, b), st, rest)
  {
    BindFoldOpenFunction(x, b, st, rest);
    var p := Param(st.next, x);
    var r := BindTree(b, st.bindings + [(x, p)], st.next + 1);
    if r.Ok? {
      BindFoldCloseFunction(x, p, r.value.0, st, r.value.1, rest);
    }
  }

  lemma BindFoldOpenApply(f: Ast, a: Ast, st: BindState, rest: seq<AstToken>)
    ensures BindFold(AstEvents(Apply(f, a)) + rest, st)
         == BindFold(AstEvents(f) + (AstEvents(a) + ([AstCloseApply] + rest)), st)
  {
    var tail := AstEvents(f) + (AstEvents(a) + ([AstCloseApply] + rest));
    assert AstEvents(Apply(f, a)) + rest == [AstOpenApply] + tail;
    BindFoldCons(AstOpenApply, tail, st);
  }

  lemma BindFoldCloseApply(fn: Expr, arg: Expr, st: BindState, next: nat, rest: seq<AstToken>)
    ensures BindFold([AstCloseApply] + rest, BindState(st.stack + [fn] + [arg], st.bindings, next))
         == BindFold(rest, BindState(st.stack + [ApplyExpr(fn, arg)], st.bindings, next))
  {
    var inner := BindState(st.stack + [fn] + [arg], st.bindings, next);
    BindFoldCons(AstCloseApply, rest, inner);
    assert inner.stack[..|inner.stack| - 2] == st.stack;
  }

  lemma BindFoldApply(f: Ast, a: Ast, st: BindState, rest: seq<AstToken>)
    requires FoldsToBinding(f, st, AstEvents(a) + ([AstCloseApply] + rest))
    requires BindTree(f, st.bindings, st.next).Ok? ==>
      var rf := BindTree(f, st.bindings, st.next).value;
      FoldsToBinding(a, BindState(st.stack + [rf.0], st.bindings, rf.1), [AstCloseApply] + rest)
    ensures FoldsToBinding(Apply(f, a), st, rest)
  {
    BindFoldOpenApply(f, a, st, rest);
    var rf := BindTree(f, st.bindings, st.next);
    if rf.Ok? {
      var ra := BindTree(a, st.bindings, rf.value.1);
      if ra.Ok? {
        BindFoldCloseApply(rf.value.0, ra.value.0, st, ra.value.1, rest);
      }
    }
  }

  /**
   * Running the loop over a tree's events pushes the expression BindTree
   * builds and leaves the bindings as it found them, or fails as BindTree does.
   */
  lemma {:induction false} BindFoldEvents(t: Ast, st: BindState, rest: seq<AstToken>)
    ensures FoldsToBinding(t, st, rest)
  {
    match t
    case Name(x) =>
      BindFoldName(x, st, rest);
    case Function(x, b) =>
      BindFoldEvents(b, st.(bindings := st.bindings + [(x, Param(st.next, x))], next := st.next + 1),
                     [AstCloseFunction(x)] + rest);
      BindFoldFunction(x, b, st, rest);
    case Apply(f, a) =>
      BindFoldEvents(f, st, AstEvents(a) + ([AstCloseApply] + rest));
      var rf := BindTree(f, st.bindings, st.next);
      if rf.Ok? {
        BindFoldEvents(a, BindState(st.stack + [rf.value.0], st.bindings, rf.value.1), [AstCloseApply] + rest);
      }
      BindFoldApply(f, a, st, rest);
  }

  lemma BindFoldComputesBind(t: Ast, next: nat)
    ensures BindFold(AstEvents(t), BindState([], [], next)) == BindTree(t, [], next)
  {
    BindFoldEvents(t, BindState([], [], next), []);
    assert AstEvents(t) + [] == AstEvents(t);
  }

  /** One iteration of `bind`'s loop, read off the fold. */
  lemma BindFoldAt(events: seq<AstToken>, i: nat, st: BindState)
    requires i < |events|
    ensures var step := BindStep(events[i], st);
      BindFold(events[i..], st) == if step.Fail? then Fail(step.error) else BindFold(events[i + 1..], step.value)
  {
    assert events[i..][0] == events[i] && events[i..][1..] == events[i + 1..];
  }

  /** One iteration of `bind`'s loop: what an event does to the stack, the bindings and the counter. */
  method BindEvent(event: AstToken, stack: seq<Expr>, bindings: seq<(string, Param)>, counter: nat)
    returns (r: Result<BindState>)
    ensures r == BindStep(event, BindState(stack, bindings, counter))
  {
    match event {
      case AstName(x) =>
        var p := Lookup(bindings, x);
        if p.Fail? {
          return Fail(p.error);
        }
        return Ok(BindState(stack + [ParameterReference(p.value)], bindings, counter));
      case AstOpenFunction(x) =>
        return Ok(BindState(stack, bindings + [(x, Param(counter, x))], counter + 1));
      case AstCloseFunction(_) =>
        if bindings == [] || stack == [] {
          return Fail(Malformed);
        }
        var parameter := bindings[|bindings| - 1].1;
        var body := stack[|stack| - 1];
        return Ok(BindState(stack[..|stack| - 1] + [FunctionExpr(parameter, body)], bindings[..|bindings| - 1], counter));
      case AstOpenApply =>
        return Ok(BindState(stack, bindings, counter));
      case AstCloseApply =>
        if |stack| < 2 {
          return Fail(Malformed);
        }
        var arg := stack[|stack| - 1];
        var fn := stack[|stack| - 2];
        return Ok(BindState(stack[..|stack| - 2] + [ApplyExpr(fn, arg)], bindings, counter));
    }
  }

  /**
   * bind: walk the tree's events, pushing a counter parameter at each binder
   * and resolving each name through `lookup`. Parameters are numbered from
   * `next`; the second result is the next unused number.
   */
  method Bind(t: Ast, next: nat) returns (r: Result<(Expr, nat)>)
    ensures r == BindTree(t, [], next)
  {
    BindFoldComputesBind(t, next);
    var events := AstEvents(t);
    var stack: seq<Expr> := [];
    var bindings: seq<(string, Param)> := [];
    var counter := next;
    var i := 0;
    while i < |events|
      invariant 0 <= i <= |events|
      invariant BindFold(events[i..], BindState(stack, bindings, counter)) == BindTree(t, [], next)
      decreases |events| - i
    {
      BindFoldAt(events, i, BindState(stack, bindings, counter));
      var step := BindEvent(events[i], stack, bindings, counter);
      if step.Fail? {
        return Fail(step.error);
      }
      stack, bindings, counter := step.value.stack, step.value.bindings, step.value.next;
      i := i + 1;
    }
    if |stack| != 1 {
      return Fail(Malformed);
    }
    return Ok((stack[0], counter));
  }

  // ---------------------------------------------------------------------
  // What `bind` means.

  /** Every name of `t` has an enclosing binder or a binding in `names`. */
  predicate ClosedUnder(t: Ast, names: seq<string>)
  {
    match t
    case Name(x) => x in names
    case Function(x, b) => ClosedUnder(b, names + [x])
    case Apply(f, a) => ClosedUnder(f, names) && ClosedUnder(a, names)
  }

  /** The de Bruijn form of a raw tree: each name counts the binders up to its innermost namesake. */
  function AstNameless(t: Ast, names: seq<string>): Result<Nameless>
  {
    match t
    case Name(x) => if x in names then Ok(NVar(Distance(names, x))) else Fail(UnboundName)
    case Function(x, b) =>
      var body :- AstNameless(b, names + [x]);
      Ok(NLam(body))
    case Apply(f, a) =>
      var fn :- AstNameless(f, names);
      var arg :- AstNameless(a, names);
      Ok(NApp(fn, arg))
  }

  /** All parameters already bound are numbered below `next`. */
  predicate FreshFrom(bindings: seq<(string, Param)>, next: nat)
  {
    forall i :: 0 <= i < |bindings| ==> bindings[i].1.id < next
  }

  lemma NamesOfPush(bindings: seq<(string, Param)>, x: string, p: Param)
    ensures NamesOf(bindings + [(x, p)]) == NamesOf(bindings) + [x]
    ensures ParamsOf(bindings + [(x, p)]) == ParamsOf(bindings) + [p]
  {
  }

  /** Lookup counts as many binders as the innermost namesake is deep. */
  lemma {:induction false} ResolveDistance(bindings: seq<(string, Param)>, x: string)
    requires Distinct(ParamsOf(bindings)) && x in NamesOf(bindings)
    ensures Resolve(bindings, x).Ok? && Resolve(bindings, x).value in ParamsOf(bindings)
    ensures Distance(ParamsOf(bindings), Resolve(bindings, x).value) == Distance(NamesOf(bindings), x)
  {
    var n := |bindings|;
    var init := bindings[..n - 1];
    var ps, ns := ParamsOf(bindings), NamesOf(bindings);
    assert ps == ParamsOf(init) + [bindings[n - 1].1];
    assert ns == NamesOf(init) + [bindings[n - 1].0];
    if bindings[n - 1].0 != x {
      assert x in NamesOf(init);
      DistinctInit(ps);
      ResolveDistance(init, x);
      var p := Resolve(init, x).value;
      DistinctLastNotEarlier(ps, p);
    }
  }

  lemma DistinctInit<T>(s: seq<T>)
    requires Distinct(s) && s != []
    ensures Distinct(s[..|s| - 1])
  {
    var t := s[..|s| - 1];
    forall i, j | 0 <= i < j < |t| ensures t[i] != t[j] {
      assert t[i] == s[i] && t[j] == s[j];
    }
  }

  /** In a sequence without repeats, an element of the front is not the last one. */
  lemma DistinctLastNotEarlier<T>(s: seq<T>, p: T)
    requires Distinct(s) && s != [] && p in s[..|s| - 1]
    ensures s[|s| - 1] != p
  {
    var k :| 0 <= k < |s| - 1 && s[..|s| - 1][k] == p;
    assert s[k] == p;
  }

  lemma FreshPush(bindings: seq<(string, Param)>, x: string, next: nat)
    requires Distinct(ParamsOf(bindings)) && FreshFrom(bindings, next)
    ensures Param(next, x) !in ParamsOf(bindings)
    ensures Distinct(ParamsOf(bindings + [(x, Param(next, x))])) && FreshFrom(bindings + [(x, Param(next, x))], next + 1)
  {
    NamesOfPush(bindings, x, Param(next, x));
    DistinctPush(ParamsOf(bindings), Param(next, x));
  }

  /**
   * `bind` resolves names exactly as the nameless form of the raw tree
   * says: it succeeds just when the tree's de Bruijn form exists, and the
   * bound expression has that same de Bruijn form.
   */
  lemma {:induction false} BindMeaning(t: Ast, bindings: seq<(string, Param)>, next: nat)
    requires Distinct(ParamsOf(bindings)) && FreshFrom(bindings, next)
    ensures BindTree(t, bindings, next).Ok? <==> AstNameless(t, NamesOf(bindings)).Ok?
    ensures BindTree(t, bindings, next).Ok? ==>
      ToNameless(BindTree(t, bindings, next).value.0, ParamsOf(bindings)) == AstNameless(t, NamesOf(bindings))
  {
    match t
    case Name(x) =>
      ResolveInnermost(bindings, x);
      if x in NamesOf(bindings) {
        ResolveDistance(bindings, x);
      }
    case Function(x, b) =>
      var p := Param(next, x);
      FreshPush(bindings, x, next);
      NamesOfPush(bindings, x, p);
      BindMeaning(b, bindings + [(x, p)], next + 1);
    case Apply(f, a) =>
      BindMeaning(f, bindings, next);
      var rf := BindTree(f, bindings, next);
      if rf.Ok? {
        BindMeaning(a, bindings, rf.value.1);
      }
  }

  /** `bind` raises "Failed lookup" exactly when some name of the tree is free. */
  lemma {:induction false} BindFailsIffFree(t: Ast, bindings: seq<(string, Param)>, next: nat)
    ensures BindTree(t, bindings, next).Fail? <==> !ClosedUnder(t, NamesOf(bindings))
  {
    match t
    case Name(x) =>
      ResolveInnermost(bindings, x);
    case Function(x, b) =>
      NamesOfPush(bindings, x, Param(next, x));
      BindFailsIffFree(b, bindings + [(x, Param(next, x))], next + 1);
    case Apply(f, a) =>
      BindFailsIffFree(f, bindings, next);
      var rf := BindTree(f, bindings, next);
      if rf.Ok? {
        BindFailsIffFree(a, bindings, rf.value.1);
      }
  }

  /** A closed tree binds to an expression whose bitstring exists. */
  lemma BoundIsWellScoped(t: Ast, next: nat)
    requires ClosedUnder(t, [])
    ensures BindTree(t, [], next).Ok? && BitstringOf(BindTree(t, [], next).value.0).Ok?
  {
    BindFailsIffFree(t, [], next);
    BindMeaning(t, [], next);
  }

  /** Two closed trees, whatever their roots, bind to equal expressions exactly when their de Bruijn forms agree. */
  lemma BoundEqualIffAlpha(t1: Ast, t2: Ast, next1: nat, next2: nat)
    requires ClosedUnder(t1, []) && ClosedUnder(t2, [])
    ensures BindTree(t1, [], next1).Ok? && BindTree(t2, [], next2).Ok?
    ensures Equal(BindTree(t1, [], next1).value.0, BindTree(t2, [], next2).value.0) == Ok(true)
        <==> AstNameless(t1, []) == AstNameless(t2, [])
  {
    BindFailsIffFree(t1, [], next1);
    BindFailsIffFree(t2, [], next2);
    BindMeaning(t1, [], next1);
    BindMeaning(t2, [], next2);
    EqualIffSameNameless(BindTree(t1, [], next1).value.0, BindTree(t2, [], next2).value.0);
  }

  // ---------------------------------------------------------------------
  // Examples.

  /** \x. x binds its body to its own parameter. */
  lemma BindIdentity(next: nat)
    ensures BindTree(Function("x", Name("x")), [], next)
         == Ok((FunctionExpr(Param(next, "x"), ParameterReference(Param(next, "x"))), next + 1))
  {
    assert [] + [("x", Param(next, "x"))] == [("x", Param(next, "x"))];
  }

  /** In \x. \x. x the name refers to the inner binder. */
  lemma BindShadowed(next: nat)
    ensures BindTree(Function("x", Function("x", Name("x"))), [], next)
         == Ok((FunctionExpr(Param(next, "x"), FunctionExpr(Param(next + 1, "x"), ParameterReference(Param(next + 1, "x")))), next + 2))
  {
    var b1 := [("x", Param(next, "x"))];
    assert [] + [("x", Param(next, "x"))] == b1;
    var b2 := b1 + [("x", Param(next + 1, "x"))];
    assert Resolve(b2, "x") == Ok(Param(next + 1, "x"));
    assert BindTree(Name("x"), b2, next + 2) == Ok((ParameterReference(Param(next + 1, "x")), next + 2));
    assert BindTree(Function("x", Name("x")), b1, next + 1)
        == Ok((FunctionExpr(Param(next + 1, "x"), ParameterReference(Param(next + 1, "x"))), next + 2));
  }

  /** A free name fails the lookup. */
  lemma BindFreeName(next: nat)
    ensures BindTree(Function("x", Name("y")), [], next) == Fail(UnboundName)
  {
    var b1 := [("x", Param(next, "x"))];
    assert [] + [("x", Param(next, "x"))] == b1;
    assert Resolve(b1[..0], "y") == Fail(UnboundName);
    assert Resolve(b1, "y") == Fail(UnboundName);
  }

  /** \x. x and \y. y bind to equal expressions: the bitstring of both is 0010. */
  lemma AlphaInvariance(next1: nat, next2: nat)
    ensures BindTree(Function("x", Name("x")), [], next1).Ok? && BindTree(Function("y", Name("y")), [], next2).Ok?
    ensures BitstringOf(BindTree(Function("x", Name("x")), [], next1).value.0) == Ok("0010")
    ensures Equal(BindTree(Function("x", Name("x")), [], next1).value.0,
                  BindTree(Function("y", Name("y")), [], next2).value.0) == Ok(true)
  {
    BindIdentity(next1);
    assert [] + [("y", Param(next2, "y"))] == [("y", Param(next2, "y"))];
    IdentityBits(Param(next1, "x"));
    IdentityBits(Param(next2, "y"));
  }

  /** \x. \x. x binds like \x. \y. y (the inner binder wins): both encode as 000010. */
  lemma ShadowingPicksInnermost(next: nat)
    ensures BindTree(Function("x", Function("x", Name("x"))), [], next).Ok?
    ensures BindTree(Function("x", Function("y", Name("y"))), [], next).Ok?
    ensures BitstringOf(BindTree(Function("x", Function("x", Name("x"))), [], next).value.0) == Ok("000010")
    ensures Equal(BindTree(Function("x", Function("x", Name("x"))), [], next).value.0,
                  BindTree(Function("x", Function("y", Name("y"))), [], next).value.0) == Ok(true)
  {
    BindShadowed(next);
    var p0, p1, q1 := Param(next, "x"), Param(next + 1, "x"), Param(next + 1, "y");
    var b1 := [("x", p0)];
    assert [] + [("x", p0)] == b1;
    var b2 := b1 + [("y", q1)];
    assert Resolve(b2, "y") == Ok(q1);
    assert BindTree(Name("y"), b2, next + 2) == Ok((ParameterReference(q1), next + 2));
    assert BindTree(Function("y", Name("y")), b1, next + 1) == Ok((FunctionExpr(q1, ParameterReference(q1)), next + 2));
    InnerBits(p0, p1);
    InnerBits(p0, q1);
  }

  /** A function returning the identity encodes as 000010. */
  lemma InnerBits(x: Param, y: Param)
    requires x != y
    ensures BitstringOf(FunctionExpr(x, FunctionExpr(y, ParameterReference(y)))) == Ok("000010")
  {
    assert [] + [x] == [x] && [x] + [y] == [x, y];
    assert ToNameless(ParameterReference(y), [x, y]) == Ok(NVar(0));
    assert ToNameless(FunctionExpr(y, ParameterReference(y)), [x]) == Ok(NLam(NVar(0)));
    assert Encode(NLam(NLam(NVar(0)))) == "00" + ("00" + ("1" + "" + "0")) == "000010";
  }
}
