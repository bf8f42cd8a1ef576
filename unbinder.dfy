/**
 * `unbind` of church/expr.py: turn a binding-resolved expression back into
 * a raw, name-based tree, inventing for each binder a name that no binder
 * in scope already uses, so that binding the result again gives back the
 * same expression.
 */
module Unbinder {
  import opened Outcomes
  import opened Syntax
  import opened Exprs
  import opened Codec
  import opened Names
  import opened Binder
  import opened Seqs

  /**
   * The tree `unbind` builds for `e`, given the names already chosen for
   * the enclosing parameters and the set of names in scope; Malformed when
   * a reference has no chosen name or a binder re-binds a parameter in scope.
   */
  function UnbindTree(e: Expr, replacements: map<Param, string>, inScope: set<string>): (r: Result<Ast>)
    ensures r.Fail? ==> r.error == Malformed
  {
    match e
    case ParameterReference(p) =>
      if p in replacements then Ok(Name(replacements[p])) else Fail(Malformed)
    case FunctionExpr(p, b) =>
      var x := Avoiding(inScope, p.name);
      if x in inScope || p in replacements then Fail(Malformed)
      else
        var body :- UnbindTree(b, replacements[p := x], inScope + {x});
        Ok(Function(x, body))
    case ApplyExpr(f, a) =>
      var fn :- UnbindTree(f, replacements, inScope);
      var arg :- UnbindTree(a, replacements, inScope);
      Ok(Apply(fn, arg))
  }

  /** unbind(e) for a whole expression: nothing chosen, nothing in scope. */
  function UnbindOf(e: Expr): Result<Ast>
  {
    UnbindTree(e, map[], {})
  }

  // ---------------------------------------------------------------------
  // The loop of `unbind`, one piece at a time.

  /** An entry of the result stack: a binder's chosen name, or a finished subtree. */
  datatype Slot = NameSlot(name: string) | TreeSlot(tree: Ast)

  datatype UnbindState = UnbindState(stack: seq<Slot>, replacements: map<Param, string>, inScope: set<string>)

  /**
   * What one iteration of `unbind` does with one piece. A pop from a stack
   * too short, a missing key and a failed assert are all Malformed, and so
   * is a stack entry of the wrong kind (which no flattened expression produces).
   */
  function UnbindStep(piece: Piece, st: UnbindState): Result<UnbindState>
  {
    match piece
    case CloseApply =>
      var m := |st.stack|;
      if m < 2 || !st.stack[m - 2].TreeSlot? || !st.stack[m - 1].TreeSlot? then Fail(Malformed)
      else Ok(st.(stack := st.stack[..m - 2] + [TreeSlot(Apply(st.stack[m - 2].tree, st.stack[m - 1].tree))]))
    case OpenApply => Ok(st)
    case OpenFunction(p) =>
      var x := Avoiding(st.inScope, p.name);
      if x in st.inScope || p in st.replacements then Fail(Malformed)
      else Ok(UnbindState(st.stack + [NameSlot(x)], st.replacements[p := x], st.inScope + {x}))
    case CloseFunction(p) =>
      var m := |st.stack|;
      if m < 2 || !st.stack[m - 1].TreeSlot? || !st.stack[m - 2].NameSlot? then Fail(Malformed)
      else
        var x := st.stack[m - 2].name;
        if p !in st.replacements || x !in st.inScope then Fail(Malformed)
        else Ok(UnbindState(st.stack[..m - 2] + [TreeSlot(Function(x, st.stack[m - 1].tree))],
                            st.replacements - {p}, st.inScope - {x}))
    case NameRef(p) =>
      if p !in st.replacements then Fail(Malformed)
      else Ok(st.(stack := st.stack + [TreeSlot(Name(st.replacements[p]))]))
  }

  /** The outcome of `unbind`'s loop over `pieces`, then its final pop and checks. */
  function UnbindFold(pieces: seq<Piece>, st: UnbindState): Result<Ast>
  {
    if pieces == [] then
      if |st.stack| != 1 || !st.stack[0].TreeSlot? || st.replacements != map[] || st.inScope != {} then Fail(Malformed)
      else Ok(st.stack[0].tree)
    else
      match UnbindStep(pieces[0], st)
      case Fail(err) => Fail(err)
      case Ok(st') => UnbindFold(pieces[1..], st')
  }

  lemma UnbindFoldCons(x: Piece, t: seq<Piece>, st: UnbindState)
    ensures var step := UnbindStep(x, st);
      UnbindFold([x] + t, st) == if step.Fail? then Fail(step.error) else UnbindFold(t, step.value)
  {
    assert ([x] + t)[1..] == t;
  }

  /** The statement of UnbindFoldPieces for one expression. */
  ghost predicate FoldsToTree(e: Expr, st: UnbindState, rest: seq<Piece>)
  {
    var r := UnbindTree(e, st.replacements, st.inScope);
    UnbindFold(Pieces(e) + rest, st)
      == if r.Ok? then UnbindFold(rest, st.(stack := st.stack + [TreeSlot(r.value)])) else Fail(Malformed)
  }

  lemma UnbindFoldReference(p: Param, st: UnbindState, rest: seq<Piece>)
    ensures FoldsToTree(ParameterReference(p), st, rest)
  {
    UnbindFoldCons(NameRef(p), rest, st);
  }

  lemma UnbindFoldCloseFunction(p: Param, x: string, body: Ast, st: UnbindState, rest: seq<Piece>)
    requires p !in st.replacements && x !in st.inScope
    ensures UnbindFold([CloseFunction(p)] + rest,
                       UnbindState(st.stack + [NameSlot(x)] + [TreeSlot(body)], st.replacements[p := x], st.inScope + {x}))
         == UnbindFold(rest, st.(stack := st.stack + [TreeSlot(Function(x, body))]))
  {
    var inner := UnbindState(st.stack + [NameSlot(x)] + [TreeSlot(body)], st.replacements[p := x], st.inScope + {x});
    UnbindFoldCons(CloseFunction(p), rest, inner);
    var m := |inner.stack|;
    assert inner.stack[m - 2] == NameSlot(x) && inner.stack[m - 1] == TreeSlot(body);
    assert inner.stack[..m - 2] == st.stack;
    MapPushPop(st.replacements, p, x);
    assert st.inScope + {x} - {x} == st.inScope;
  }

  lemma UnbindFoldFunction(p: Param, b: Expr, st: UnbindState, rest: seq<Piece>)
    requires var x := Avoiding(st.inScope, p.name);
      FoldsToTree(b, UnbindState(st.stack + [NameSlot(x)], st.replacements[p := x], st.inScope + {x}),
                  [CloseFunction(p)] + rest)
    ensures FoldsToTree(FunctionExpr(p, b), st, rest)
  {
    var x := Avoiding(st.inScope, p.name);
    var tail := Pieces(b) + ([CloseFunction(p)] + rest);
    assert Pieces(FunctionExpr(p, b)) + rest == [OpenFunction(p)] + tail;
    UnbindFoldCons(OpenFunction(p), tail, st);
    AvoidingIsFirstFree(st.inScope, p.name);
    if p !in st.replacements {
      var inner := UnbindState(st.stack + [NameSlot(x)], st.replacements[p := x], st.inScope + {x});
      var r := UnbindTree(b, inner.replacements, inner.inScope);
      if r.Ok? {
        UnbindFoldCloseFunction(p, x, r.value, st, rest);
      }
    }
  }

  lemma UnbindFoldOpenApply(f: Expr, a: Expr, st: UnbindState, rest: seq<Piece>)
    ensures UnbindFold(Pieces(ApplyExpr(f, a)) + rest, st) == UnbindFold(Pieces(f) + (Pieces(a) + ([CloseApply] + rest)), st)
  {
    var tail := Pieces(f) + (Pieces(a) + ([CloseApply] + rest));
    assert Pieces(ApplyExpr(f, a)) + rest == [OpenApply] + tail;
    UnbindFoldCons(OpenApply, tail, st);
  }

  lemma UnbindFoldCloseApply(fn: Ast, arg: Ast, st: UnbindState, rest: seq<Piece>)
    ensures UnbindFold([CloseApply] + rest, st.(stack := st.stack + [TreeSlot(fn)] + [TreeSlot(arg)]))
         == UnbindFold(rest, st.(stack := st.stack + [TreeSlot(Apply(fn, arg))]))
  {
    var inner := st.(stack := st.stack + [TreeSlot(fn)] + [TreeSlot(arg)]);
    UnbindFoldCons(CloseApply, rest, inner);
    assert inner.stack[..|inner.stack| - 2] == st.stack;
  }

  lemma UnbindFoldApply(f: Expr, a: Expr, st: UnbindState, rest: seq<Piece>)
    requires FoldsToTree(f, st, Pieces(a) + ([CloseApply] + rest))
    requires UnbindTree(f, st.replacements, st.inScope).Ok? ==>
      FoldsToTree(a, st.(stack := st.stack + [TreeSlot(UnbindTree(f, st.replacements, st.inScope).value)]),
                  [CloseApply] + rest)
    ensures FoldsToTree(ApplyExpr(f, a), st, rest)
  {
    UnbindFoldOpenApply(f, a, st, rest);
    var rf := UnbindTree(f, st.replacements, st.inScope);
    if rf.Ok? {
      var ra := UnbindTree(a, st.replacements, st.inScope);
      if ra.Ok? {
        UnbindFoldCloseApply(rf.value, ra.value, st, rest);
      }
    }
  }

  /**
   * Running the loop over an expression's pieces pushes the tree UnbindTree
   * builds and leaves the names and the scope as it found them, or fails.
   */
  lemma {:induction false} UnbindFoldPieces(e: Expr, st: UnbindState, rest: seq<Piece>)
    ensures FoldsToTree(e, st, rest)
  {
    match e
    case ParameterReference(p) =>
      UnbindFoldReference(p, st, rest);
    case FunctionExpr(p, b) =>
      var x := Avoiding(st.inScope, p.name);
      UnbindFoldPieces(b, UnbindState(st.stack + [NameSlot(x)], st.replacements[p := x], st.inScope + {x}),
                       [CloseFunction(p)] + rest);
      UnbindFoldFunction(p, b, st, rest);
    case ApplyExpr(f, a) =>
      UnbindFoldPieces(f, st, Pieces(a) + ([CloseApply] + rest));
      var rf := UnbindTree(f, st.replacements, st.inScope);
      if rf.Ok? {
        UnbindFoldPieces(a, st.(stack := st.stack + [TreeSlot(rf.value)]), [CloseApply] + rest);
      }
      UnbindFoldApply(f, a, st, rest);
  }

  /** The loop over the whole walk, with its final checks, computes UnbindOf. */
  lemma UnbindFoldComputesUnbind(e: Expr)
    ensures UnbindFold(Pieces(e), UnbindState([], map[], {})) == UnbindOf(e)
  {
    UnbindFoldPieces(e, UnbindState([], map[], {}), []);
    assert Pieces(e) + [] == Pieces(e);
    if UnbindOf(e).Ok? {
      assert [] + [TreeSlot(UnbindOf(e).value)] == [TreeSlot(UnbindOf(e).value)];
    }
  }

  /** One iteration of `unbind`'s loop, read off the fold. */
  lemma UnbindFoldAt(pieces: seq<Piece>, i: nat, st: UnbindState)
    requires i < |pieces|
    ensures var step := UnbindStep(pieces[i], st);
      UnbindFold(pieces[i..], st) == if step.Fail? then Fail(step.error) else UnbindFold(pieces[i + 1..], step.value)
  {
    assert pieces[i..][0] == pieces[i] && pieces[i..][1..] == pieces[i + 1..];
  }

  /**
   * One iteration of `unbind`'s loop: at a binder choose a name avoiding the
   * names in scope, at a reference emit the chosen name, at a closing piece
   * pop what the subtree left.
   */
  method UnbindPiece(piece: Piece, resultStack: seq<Slot>, replacements: map<Param, string>, namesInScope: set<string>)
    returns (r: Result<UnbindState>)
    ensures r == UnbindStep(piece, UnbindState(resultStack, replacements, namesInScope))
  {
    match piece {
      case CloseApply =>
        var m := |resultStack|;
        if m < 2 || !resultStack[m - 1].TreeSlot? || !resultStack[m - 2].TreeSlot? {
          return Fail(Malformed);
        }
        var argument := resultStack[m - 1].tree;
        var fn := resultStack[m - 2].tree;
        return Ok(UnbindState(resultStack[..m - 2] + [TreeSlot(Apply(fn, argument))], replacements, namesInScope));
      case OpenApply =>
        return Ok(UnbindState(resultStack, replacements, namesInScope));
      case OpenFunction(p) =>
        var name := NameAvoiding(namesInScope, p.name);
        if name in namesInScope || p in replacements {
          return Fail(Malformed);
        }
        return Ok(UnbindState(resultStack + [NameSlot(name)], replacements[p := name], namesInScope + {name}));
      case CloseFunction(p) =>
        var m := |resultStack|;
        if m < 2 || !resultStack[m - 1].TreeSlot? || !resultStack[m - 2].NameSlot? {
          return Fail(Malformed);
        }
        var body := resultStack[m - 1].tree;
        var name := resultStack[m - 2].name;
        if p !in replacements || name !in namesInScope {
          return Fail(Malformed);
        }
        return Ok(UnbindState(resultStack[..m - 2] + [TreeSlot(Function(name, body))],
                              replacements - {p}, namesInScope - {name}));
      case NameRef(p) =>
        if p !in replacements {
          return Fail(Malformed);
        }
        return Ok(UnbindState(resultStack + [TreeSlot(Name(replacements[p]))], replacements, namesInScope));
    }
  }

  /**
   * unbind: walk the flattened expression; at each binder choose a name
   * avoiding the names in scope, at each reference emit the chosen name.
   */
  method Unbind(e: Expr) returns (r: Result<Ast>)
    ensures r == UnbindOf(e)
  {
    UnbindFoldComputesUnbind(e);
    var pieces := Flatten(e);
    var resultStack: seq<Slot> := [];
    var replacements: map<Param, string> := map[];
    var namesInScope: set<string> := {};
    var i := 0;
    while i < |pieces|
      invariant 0 <= i <= |pieces|
      invariant UnbindFold(pieces[i..], UnbindState(resultStack, replacements, namesInScope)) == UnbindOf(e)
      decreases |pieces| - i
    {
      UnbindFoldAt(pieces, i, UnbindState(resultStack, replacements, namesInScope));
      var step := UnbindPiece(pieces[i], resultStack, replacements, namesInScope);
      if step.Fail? {
        return Fail(step.error);
      }
      resultStack, replacements, namesInScope := step.value.stack, step.value.replacements, step.value.inScope;
      i := i + 1;
    }
    if |resultStack| != 1 || !resultStack[0].TreeSlot? || replacements != map[] || namesInScope != {} {
      return Fail(Malformed);
    }
    return Ok(resultStack[0].tree);
  }

  // ---------------------------------------------------------------------
  // What `unbind` means.

  /**
   * The state `unbind` keeps, read against the enclosing parameters `scope`
   * (outermost first): `names[i]` is the name chosen for `scope[i]`, the
   * chosen names are pairwise different, and the scope set holds exactly them.
   */
  ghost predicate Tracks(scope: seq<Param>, names: seq<string>, replacements: map<Param, string>, inScope: set<string>)
  {
    && |scope| == |names|
    && Distinct(scope)
    && Distinct(names)
    && (forall p :: p in replacements <==> p in scope)
    && (forall i :: 0 <= i < |scope| ==> replacements[scope[i]] == names[i])
    && (forall x :: x in inScope <==> x in names)
  }

  lemma TracksPush(scope: seq<Param>, names: seq<string>, replacements: map<Param, string>, inScope: set<string>,
                   p: Param, x: string)
    requires Tracks(scope, names, replacements, inScope)
    requires p !in replacements && x !in inScope
    ensures Tracks(scope + [p], names + [x], replacements[p := x], inScope + {x})
  {
    DistinctPush(scope, p);
    DistinctPush(names, x);
    var s, n := scope + [p], names + [x];
    forall i | 0 <= i < |s| ensures replacements[p := x][s[i]] == n[i] {
      if i < |scope| {
        assert s[i] == scope[i] && n[i] == names[i];
      }
    }
  }

  /** A parameter in scope is the one at some position, and its chosen name is the name there. */
  lemma TrackedName(scope: seq<Param>, names: seq<string>, replacements: map<Param, string>, inScope: set<string>, p: Param)
    requires Tracks(scope, names, replacements, inScope) && p in scope
    ensures replacements[p] in names && Distance(names, replacements[p]) == Distance(scope, p)
  {
    var i :| 0 <= i < |scope| && scope[i] == p;
    DistanceAt(scope, i);
    DistanceAt(names, i);
  }

  /**
   * `unbind` keeps the binding structure: under a state that tracks the
   * enclosing parameters, it succeeds exactly when the expression has a de
   * Bruijn form there, and the raw tree it builds has that same de Bruijn
   * form under the chosen names.
   */
  lemma {:induction false} UnbindMeaning(e: Expr, scope: seq<Param>, names: seq<string>,
                                         replacements: map<Param, string>, inScope: set<string>)
    requires Tracks(scope, names, replacements, inScope)
    ensures UnbindTree(e, replacements, inScope).Ok? <==> ToNameless(e, scope).Ok?
    ensures UnbindTree(e, replacements, inScope).Ok? ==>
      AstNameless(UnbindTree(e, replacements, inScope).value, names) == ToNameless(e, scope)
  {
    match e
    case ParameterReference(p) =>
      if p in scope {
        TrackedName(scope, names, replacements, inScope, p);
      }
    case FunctionExpr(p, b) =>
      var x := Avoiding(inScope, p.name);
      AvoidingIsFirstFree(inScope, p.name);
      if p !in replacements {
        TracksPush(scope, names, replacements, inScope, p, x);
        UnbindMeaning(b, scope + [p], names + [x], replacements[p := x], inScope + {x});
      }
    case ApplyExpr(f, a) =>
      UnbindMeaning(f, scope, names, replacements, inScope);
      UnbindMeaning(a, scope, names, replacements, inScope);
  }

  lemma TracksEmpty()
    ensures Tracks([], [], map[], {})
  {
  }

  /** unbind succeeds on exactly the expressions whose bitstring exists. */
  lemma UnbindSucceedsIff(e: Expr)
    ensures UnbindOf(e).Ok? <==> BitstringOf(e).Ok?
  {
    TracksEmpty();
    UnbindMeaning(e, [], [], map[], {});
  }

  /** Unbinding and binding keep the kind of the root node. */
  lemma RootKindKept(e: Expr, next: nat)
    requires UnbindOf(e).Ok? && BindTree(UnbindOf(e).value, [], next).Ok?
    ensures SameKind(BindTree(UnbindOf(e).value, [], next).value.0, e)
  {
  }

  /**
   * The round trip: binding what `unbind` produces gives an expression equal
   * to the original (same kind of root, same bitstring), for every
   * expression whose bitstring exists, whatever counter the binding starts from.
   */
  lemma RoundTrip(e: Expr, next: nat)
    requires BitstringOf(e).Ok?
    ensures UnbindOf(e).Ok? && BindTree(UnbindOf(e).value, [], next).Ok?
    ensures Equal(BindTree(UnbindOf(e).value, [], next).value.0, e) == Ok(true)
  {
    TracksEmpty();
    UnbindMeaning(e, [], [], map[], {});
    var t := UnbindOf(e).value;
    assert NamesOf([]) == [] && ParamsOf([]) == [];
    BindMeaning(t, [], next);
    var bound := BindTree(t, [], next).value.0;
    RootKindKept(e, next);
    EqualIffSameNameless(bound, e);
  }

  /** No binder of `t` reuses the name of a binder around it or a name of `outer`. */
  predicate NoShadowing(t: Ast, outer: set<string>)
  {
    match t
    case Name(_) => true
    case Function(x, b) => x !in outer && NoShadowing(b, outer + {x})
    case Apply(f, a) => NoShadowing(f, outer) && NoShadowing(a, outer)
  }

  /** Every name `unbind` invents is outside the names in scope where it is invented. */
  lemma {:induction false} UnbindAvoidsScope(e: Expr, replacements: map<Param, string>, inScope: set<string>)
    requires UnbindTree(e, replacements, inScope).Ok?
    ensures NoShadowing(UnbindTree(e, replacements, inScope).value, inScope)
  {
    match e
    case ParameterReference(p) =>
    case FunctionExpr(p, b) =>
      var x := Avoiding(inScope, p.name);
      UnbindAvoidsScope(b, replacements[p := x], inScope + {x});
    case ApplyExpr(f, a) =>
      UnbindAvoidsScope(f, replacements, inScope);
      UnbindAvoidsScope(a, replacements, inScope);
  }

  // ---------------------------------------------------------------------
  // Examples.

  /** Two binders both called x come back as x and x0. */
  lemma UnbindRenamesClash(p: Param, q: Param)
    requires p != q && p.name == "x" && q.name == "x"
    ensures UnbindOf(FunctionExpr(p, FunctionExpr(q, ApplyExpr(ParameterReference(p), ParameterReference(q)))))
         == Ok(Function("x", Function("x0", Apply(Name("x"), Name("x0")))))
  {
    AvoidingKeepsFreeBase({}, "x");
    AvoidingNext("x");
    var m1: map<Param, string> := map[][p := "x"];
    var m2 := m1[q := "x0"];
    assert {} + {"x"} == {"x"};
    var body := ApplyExpr(ParameterReference(p), ParameterReference(q));
    assert UnbindTree(body, m2, {"x", "x0"}) == Ok(Apply(Name("x"), Name("x0")));
    assert "x0" !in {"x"};
    assert {"x"} + {"x0"} == {"x", "x0"};
    assert Avoiding({"x"}, q.name) == "x0";
    assert q !in m1;
    assert UnbindTree(FunctionExpr(q, body), m1, {"x"}) == Ok(Function("x0", Apply(Name("x"), Name("x0"))));
  }

  /** With x taken, the next variant tried is x0. */
  lemma AvoidingNext(base: string)
    ensures Avoiding({base}, base) == base + "0"
  {
    FirstVariantIsBase(base);
    assert Suffix(1) == "0" by {
      assert Power10(0) == 1;
      assert SuffixFrom(1, 0) == SuffixFrom(0, 1);
      assert Numeral(0, 1) == Numeral(0, 0) + [DigitChars[0]];
    }
    assert Variant(base, 1) == base + "0";
    assert base + "0" != base by {
      assert |base + "0"| != |base|;
    }
    assert FreePosition({base}, base, 1) == 1;
  }
}
