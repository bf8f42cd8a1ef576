/**
 * `Expr.bitstring` and `Expr.__eq__` of church/expr.py. The bitstring is
 * the binary lambda calculus encoding of the expression's nameless (de
 * Bruijn) form, so two expressions compare equal exactly when they have the
 * same kind of root and are the same term up to the choice of parameters.
 */
module Codec {
  import opened Outcomes
  import opened Exprs
  import opened Seqs

  /** A term in de Bruijn form: a variable is the number of binders between it and its own. */
  datatype Nameless =
    | NVar(index: nat)
    | NLam(body: Nameless)
    | NApp(fn: Nameless, arg: Nameless)

  /** How many binders of `scope` (outermost first) lie above the innermost `p`. */
  function Distance<T(==)>(scope: seq<T>, p: T): nat
    requires p in scope
  {
    if scope[|scope| - 1] == p then 0 else Distance(scope[..|scope| - 1], p)  + 1
  }

  /**
   * The nameless form of `e` under the enclosing parameters `scope`, or
   * Malformed when a reference is not in scope or a binder re-binds a
   * parameter that is already in scope.
   */
  function ToNameless(e: Expr, scope: seq<Param>): (r: Result<Nameless>)
    ensures r.Fail? ==> r.error == Malformed
  {
    match e
    case ParameterReference(p) =>
      if p in scope then Ok(NVar(Distance(scope, p))) else Fail(Malformed)
    case FunctionExpr(p, b) =>
      if p in scope then Fail(Malformed)
      else
        var body :- ToNameless(b, scope + [p]);
        Ok(NLam(body))
    case ApplyExpr(f, a) =>
      var fn :- ToNameless(f, scope);
      var arg :- ToNameless(a, scope);
      Ok(NApp(fn, arg))
  }

  /** `"1" * n`, which is empty for n <= 0. */
  function Ones(n: int): string
    decreases n
  {
    if n <= 0 then "" else "1" + Ones(n - 1)
  }

  predicate IsBits(s: string)
  {
    forall i :: 0 <= i < |s| ==> s[i] == '0' || s[i] == '1'
  }

  /** The binary lambda calculus code: 01 application, 00 abstraction, 1^(i+1)0 variable i. */
  function Encode(d: Nameless): string
  {
    match d
    case NVar(i) => "1" + Ones(i) + "0"
    case NLam(b) => "00" + Encode(b)
    case NApp(f, a) => "01" + Encode(f) + Encode(a)
  }

  /** The value `bitstring` returns, or the failure it raises. */
  function BitstringOf(e: Expr): Result<string>
  {
    var d :- ToNameless(e, []);
    Ok(Encode(d))
  }

  function LeadingOnes(s: string): (k: nat)
    ensures k <= |s|
  {
    if s != [] && s[0] == '1' then 1 + LeadingOnes(s[1..]) else 0
  }

  /** Reads one code off the front of `s`, returning the term and what follows. */
  function Decode(s: string): (r: Option<(Nameless, string)>)
    ensures r.Some? ==> |r.value.1| < |s|
    decreases |s|
  {
    if |s| >= 2 && s[0] == '0' && s[1] == '0' then
      match Decode(s[2..])
      case None => None
      case Some((b, rest)) => Some((NLam(b), rest))
    else if |s| >= 2 && s[0] == '0' && s[1] == '1' then
      match Decode(s[2..])
      case None => None
      case Some((f, rest)) =>
        match Decode(rest)
        case None => None
        case Some((a, rest')) => Some((NApp(f, a), rest'))
    else if |s| >= 1 && s[0] == '1' then
      var k := LeadingOnes(s[1..]);
      if 1 + k < |s| && s[1 + k] == '0' then Some((NVar(k), s[k + 2..])) else None
    else None
  }

  lemma {:induction false} LeadingOnesOfOnes(n: nat, rest: string)
    ensures LeadingOnes(Ones(n) + "0" + rest) == n
  {
    if n > 0 {
      assert (Ones(n) + "0" + rest)[1..] == Ones(n - 1) + "0" + rest;
      LeadingOnesOfOnes(n - 1, rest);
    } else {
      assert Ones(n) + "0" + rest == "0" + rest;
    }
  }

  lemma {:induction false} OnesLength(n: nat)
    ensures |Ones(n)| == n && IsBits(Ones(n))
  {
    if n > 0 {
      OnesLength(n - 1);
    }
  }

  /** Decoding reads back exactly the term that was encoded, and leaves the rest untouched. */
  lemma {:induction false} DecodeEncode(d: Nameless, rest: string)
    ensures Decode(Encode(d) + rest) == Some((d, rest))
  {
    match d
    case NVar(i) =>
      DecodeVar(i, rest);
    case NLam(b) =>
      DecodeEncode(b, rest);
      DecodeLam(b, rest);
    case NApp(f, a) =>
      DecodeEncode(f, Encode(a) + rest);
      DecodeEncode(a, rest);
      DecodeApp(f, a, rest);
  }

  lemma DecodeVar(i: nat, rest: string)
    ensures Decode(Encode(NVar(i)) + rest) == Some((NVar(i), rest))
  {
    var s := Encode(NVar(i)) + rest;
    OnesLength(i);
    assert s[1..] == Ones(i) + "0" + rest;
    LeadingOnesOfOnes(i, rest);
    assert s[1 + i] == '0';
    assert s[i + 2..] == rest;
  }

  lemma DecodeLam(b: Nameless, rest: string)
    requires Decode(Encode(b) + rest) == Some((b, rest))
    ensures Decode(Encode(NLam(b)) + rest) == Some((NLam(b), rest))
  {
    DropTwo("00", Encode(b), "", rest);
  }

  lemma DecodeApp(f: Nameless, a: Nameless, rest: string)
    requires Decode(Encode(f) + (Encode(a) + rest)) == Some((f, Encode(a) + rest))
    requires Decode(Encode(a) + rest) == Some((a, rest))
    ensures Decode(Encode(NApp(f, a)) + rest) == Some((NApp(f, a), rest))
  {
    DropTwo("01", Encode(f), Encode(a), rest);
  }

  /** Different terms have different codes. */
  lemma EncodeInjective(d1: Nameless, d2: Nameless)
    requires Encode(d1) == Encode(d2)
    ensures d1 == d2
  {
    DecodeEncode(d1, "");
    DecodeEncode(d2, "");
    assert Encode(d1) + "" == Encode(d2) + "";
  }

  /** Every code is a string of 0s and 1s. */
  lemma {:induction false} EncodeIsBits(d: Nameless)
    ensures IsBits(Encode(d))
  {
    match d
    case NVar(i) => OnesLength(i);
    case NLam(b) => EncodeIsBits(b);
    case NApp(f, a) => EncodeIsBits(f); EncodeIsBits(a);
  }

  // ---------------------------------------------------------------------
  // The loop of `bitstring`, one piece at a time.

  /** What one iteration of `bitstring` does with one piece. */
  function BitsStep(piece: Piece, bindings: map<Param, nat>, bits: string): Result<(map<Param, nat>, string)>
  {
    match piece
    case OpenApply => Ok((bindings, bits + "01"))
    case CloseApply => Ok((bindings, bits))
    case OpenFunction(p) =>
      if p in bindings then Fail(Malformed) else Ok((bindings[p := |bindings|], bits + "00"))
    case CloseFunction(p) =>
      if p !in bindings then Fail(Malformed)
      else if bindings[p] != |bindings - {p}| then Fail(Malformed)
      else Ok((bindings - {p}, bits))
    case NameRef(p) =>
      if p !in bindings then Fail(Malformed)
      else Ok((bindings, bits + "1" + Ones(|bindings| - 1 - bindings[p]) + "0"))
  }

  /** The outcome of running `bitstring`'s loop over `pieces` from the given state. */
  function BitsFold(pieces: seq<Piece>, bindings: map<Param, nat>, bits: string): Result<string>
  {
    if pieces == [] then Ok(bits)
    else
      match BitsStep(pieces[0], bindings, bits)
      case Fail(err) => Fail(err)
      case Ok((bindings', bits')) => BitsFold(pieces[1..], bindings', bits')
  }

  predicate Distinct<T(==)>(scope: seq<T>)
  {
    forall i, j :: 0 <= i < j < |scope| ==> scope[i] != scope[j]
  }

  /** The dictionary `bitstring` keeps: each parameter in scope mapped to its nesting level. */
  function Levels(scope: seq<Param>): map<Param, nat>
  {
    if scope == [] then map[]
    else Levels(scope[..|scope| - 1])[scope[|scope| - 1] := |scope| - 1]
  }

  lemma {:induction false} LevelsFacts(scope: seq<Param>)
    requires Distinct(scope)
    ensures forall p :: p in Levels(scope) <==> p in scope
    ensures |Levels(scope)| == |scope|
    ensures forall p :: p in scope ==> Levels(scope)[p] == |scope| - 1 - Distance(scope, p)
  {
    if scope != [] {
      var init := scope[..|scope| - 1];
      LevelsFacts(init);
      assert forall p :: p in scope <==> p in init || p == scope[|scope| - 1];
      assert scope[|scope| - 1] !in init;
    }
  }

  /** In a sequence without repeats, the distance of an element is counted from its position. */
  lemma {:induction false} DistanceAt<T>(scope: seq<T>, i: nat)
    requires Distinct(scope) && i < |scope|
    ensures Distance(scope, scope[i]) == |scope| - 1 - i
    decreases |scope|
  {
    if i < |scope| - 1 {
      var init := scope[..|scope| - 1];
      assert init[i] == scope[i];
      DistanceAt(init, i);
    }
  }

  lemma DistinctPush<T>(scope: seq<T>, p: T)
    requires Distinct(scope) && p !in scope
    ensures Distinct(scope + [p])
  {
    var s := scope + [p];
    forall i, j | 0 <= i < j < |s|
      ensures s[i] != s[j]
    {
      if j == |scope| {
        assert s[i] == scope[i];
      } else {
        assert s[i] == scope[i] && s[j] == scope[j];
      }
    }
  }

  lemma LevelsPush(scope: seq<Param>, p: Param)
    requires Distinct(scope) && p !in scope
    ensures Levels(scope + [p]) == Levels(scope)[p := |scope|]
    ensures Levels(scope + [p]) - {p} == Levels(scope)
  {
    LevelsSnoc(scope, p);
    LevelsFacts(scope);
    MapPushPop(Levels(scope), p, |scope|);
  }

  /** The innermost binder gets the next level; the others keep theirs. */
  lemma LevelsSnoc(scope: seq<Param>, p: Param)
    ensures Levels(scope + [p]) == Levels(scope)[p := |scope|]
  {
    var s := scope + [p];
    Below1(scope, p);
    assert s != [] && s[|s| - 1] == p && s[..|s| - 1] == scope;
  }

  /** One loop iteration, then the rest of the loop. */
  lemma BitsFoldCons(x: Piece, t: seq<Piece>, bindings: map<Param, nat>, bits: string)
    ensures var step := BitsStep(x, bindings, bits);
      BitsFold([x] + t, bindings, bits)
        == if step.Fail? then Fail(step.error) else BitsFold(t, step.value.0, step.value.1)
  {
    assert ([x] + t)[1..] == t;
  }

  /** The statement of BitsFoldPieces for one expression. */
  ghost predicate FoldsToCode(e: Expr, scope: seq<Param>, rest: seq<Piece>, bits: string)
  {
    BitsFold(Pieces(e) + rest, Levels(scope), bits)
      == if ToNameless(e, scope).Ok?
         then BitsFold(rest, Levels(scope), bits + Encode(ToNameless(e, scope).value))
         else Fail(Malformed)
  }

  lemma BitsFoldReference(p: Param, scope: seq<Param>, rest: seq<Piece>, bits: string)
    requires Distinct(scope)
    ensures FoldsToCode(ParameterReference(p), scope, rest, bits)
  {
    LevelsFacts(scope);
    BitsFoldCons(NameRef(p), rest, Levels(scope), bits);
    if p in scope {
      AppendThree(bits, "1", Ones(|scope| - 1 - Levels(scope)[p]), "0");
    }
  }

  lemma BitsFoldOpenFunction(p: Param, b: Expr, scope: seq<Param>, rest: seq<Piece>, bits: string)
    requires Distinct(scope) && p !in scope
    ensures BitsFold(Pieces(FunctionExpr(p, b)) + rest, Levels(scope), bits)
         == BitsFold(Pieces(b) + ([CloseFunction(p)] + rest), Levels(scope + [p]), bits + "00")
  {
    var tail := Pieces(b) + ([CloseFunction(p)] + rest);
    assert Pieces(FunctionExpr(p, b)) + rest == [OpenFunction(p)] + tail;
    LevelsFacts(scope);
    LevelsPush(scope, p);
    BitsFoldCons(OpenFunction(p), tail, Levels(scope), bits);
  }

  lemma BitsFoldCloseFunction(p: Param, scope: seq<Param>, rest: seq<Piece>, code: string)
    requires Distinct(scope) && p !in scope
    ensures BitsFold([CloseFunction(p)] + rest, Levels(scope + [p]), code) == BitsFold(rest, Levels(scope), code)
  {
    LevelsFacts(scope);
    LevelsPush(scope, p);
    BitsFoldCons(CloseFunction(p), rest, Levels(scope + [p]), code);
  }

  lemma BitsFoldFunction(p: Param, b: Expr, scope: seq<Param>, rest: seq<Piece>, bits: string)
    requires Distinct(scope) && p !in scope
    requires FoldsToCode(b, scope + [p], [CloseFunction(p)] + rest, bits + "00")
    ensures FoldsToCode(FunctionExpr(p, b), scope, rest, bits)
  {
    BitsFoldOpenFunction(p, b, scope, rest, bits);
    if ToNameless(b, scope + [p]).Ok? {
      BitsFoldFunctionBody(p, ToNameless(b, scope + [p]).value, scope, rest, bits);
    }
  }

  lemma BitsFoldFunctionBody(p: Param, body: Nameless, scope: seq<Param>, rest: seq<Piece>, bits: string)
    requires Distinct(scope) && p !in scope
    ensures BitsFold([CloseFunction(p)] + rest, Levels(scope + [p]), bits + "00" + Encode(body))
         == BitsFold(rest, Levels(scope), bits + Encode(NLam(body)))
  {
    BitsFoldCloseFunction(p, scope, rest, bits + "00" + Encode(body));
    assert bits + "00" + Encode(body) == bits + Encode(NLam(body));
  }

  lemma BitsFoldOpenApply(f: Expr, a: Expr, rest: seq<Piece>, levels: map<Param, nat>, bits: string)
    ensures BitsFold(Pieces(ApplyExpr(f, a)) + rest, levels, bits)
         == BitsFold(Pieces(f) + (Pieces(a) + ([CloseApply] + rest)), levels, bits + "01")
  {
    var tail := Pieces(f) + (Pieces(a) + ([CloseApply] + rest));
    assert Pieces(ApplyExpr(f, a)) + rest == [OpenApply] + tail;
    BitsFoldCons(OpenApply, tail, levels, bits);
  }

  lemma BitsFoldApply(f: Expr, a: Expr, scope: seq<Param>, rest: seq<Piece>, bits: string)
    requires Distinct(scope)
    requires FoldsToCode(f, scope, Pieces(a) + ([CloseApply] + rest), bits + "01")
    requires ToNameless(f, scope).Ok? ==>
      FoldsToCode(a, scope, [CloseApply] + rest, bits + "01" + Encode(ToNameless(f, scope).value))
    ensures FoldsToCode(ApplyExpr(f, a), scope, rest, bits)
  {
    var e := ApplyExpr(f, a);
    var levels := Levels(scope);
    BitsFoldOpenApply(f, a, rest, levels, bits);
    var nf, na := ToNameless(f, scope), ToNameless(a, scope);
    if nf.Ok? && na.Ok? {
      var code := bits + "01" + Encode(nf.value) + Encode(na.value);
      BitsFoldCons(CloseApply, rest, levels, code);
      AppendThree(bits, "01", Encode(nf.value), Encode(na.value));
    }
  }

  /**
   * Running the loop over an expression's pieces appends the code of the
   * expression's nameless form and leaves the dictionary as it found it, or
   * fails exactly when the nameless form does not exist.
   */
  lemma {:induction false} BitsFoldPieces(e: Expr, scope: seq<Param>, rest: seq<Piece>, bits: string)
    requires Distinct(scope)
    ensures FoldsToCode(e, scope, rest, bits)
  {
    match e
    case ParameterReference(p) =>
      BitsFoldReference(p, scope, rest, bits);
    case FunctionExpr(p, b) =>
      if p in scope {
        LevelsFacts(scope);
        assert Pieces(e) + rest == [OpenFunction(p)] + (Pieces(b) + ([CloseFunction(p)] + rest));
        BitsFoldCons(OpenFunction(p), Pieces(b) + ([CloseFunction(p)] + rest), Levels(scope), bits);
      } else {
        DistinctPush(scope, p);
        BitsFoldPieces(b, scope + [p], [CloseFunction(p)] + rest, bits + "00");
        BitsFoldFunction(p, b, scope, rest, bits);
      }
    case ApplyExpr(f, a) =>
      BitsFoldPieces(f, scope, Pieces(a) + ([CloseApply] + rest), bits + "01");
      if ToNameless(f, scope).Ok? {
        BitsFoldPieces(a, scope, [CloseApply] + rest, bits + "01" + Encode(ToNameless(f, scope).value));
      }
      BitsFoldApply(f, a, scope, rest, bits);
  }

  /** The loop over the whole walk computes the encoding of the nameless form. */
  lemma BitsFoldComputesBitstring(e: Expr)
    ensures BitsFold(Pieces(e), map[], "") == BitstringOf(e)
  {
    BitsFoldPieces(e, [], [], "");
    assert Pieces(e) + [] == Pieces(e);
    if ToNameless(e, []).Ok? {
      assert "" + Encode(ToNameless(e, []).value) == Encode(ToNameless(e, []).value);
    }
  }

  /** One iteration of `bitstring`'s loop, read off the fold. */
  lemma BitsFoldAt(pieces: seq<Piece>, i: nat, bindings: map<Param, nat>, bits: string)
    requires i < |pieces|
    ensures var step := BitsStep(pieces[i], bindings, bits);
      BitsFold(pieces[i..], bindings, bits)
      == if step.Fail? then Fail(step.error) else BitsFold(pieces[i + 1..], step.value.0, step.value.1)
  {
    assert pieces[i..][0] == pieces[i] && pieces[i..][1..] == pieces[i + 1..];
  }

  /** One iteration of `bitstring`'s loop: the bits a piece appends and the level it records or checks. */
  method BitsPiece(piece: Piece, bindings: map<Param, nat>, bits: string) returns (r: Result<(map<Param, nat>, string)>)
    ensures r == BitsStep(piece, bindings, bits)
  {
    match piece {
      case OpenApply =>
        return Ok((bindings, bits + "01"));
      case CloseApply =>
        return Ok((bindings, bits));
      case OpenFunction(p) =>
        if p in bindings {
          return Fail(Malformed);
        }
        var level := |bindings|;
        return Ok((bindings[p := level], bits + "00"));
      case CloseFunction(p) =>
        if p !in bindings {
          return Fail(Malformed);
        }
        var level := bindings[p];
        var remaining := bindings - {p};
        if level != |remaining| {
          return Fail(Malformed);
        }
        return Ok((remaining, bits));
      case NameRef(p) =>
        if p !in bindings {
          return Fail(Malformed);
        }
        var index := |bindings| - 1 - bindings[p];
        return Ok((bindings, bits + "1" + Ones(index) + "0"));
    }
  }

  /** bitstring: walk the flattened expression, recording each parameter's nesting level. */
  method Bitstring(e: Expr) returns (r: Result<string>)
    ensures r == BitstringOf(e)
  {
    BitsFoldComputesBitstring(e);
    var pieces := Flatten(e);
    var bindings: map<Param, nat> := map[];
    var bits := "";
    var i := 0;
    while i < |pieces|
      invariant 0 <= i <= |pieces|
      invariant BitsFold(pieces[i..], bindings, bits) == BitstringOf(e)
      decreases |pieces| - i
    {
      BitsFoldAt(pieces, i, bindings, bits);
      var step := BitsPiece(pieces[i], bindings, bits);
      if step.Fail? {
        return Fail(step.error);
      }
      bindings, bits := step.value.0, step.value.1;
      i := i + 1;
    }
    return Ok(bits);
  }

  // ---------------------------------------------------------------------
  // Equality.

  predicate SameKind(e1: Expr, e2: Expr)
  {
    (e1.ApplyExpr? && e2.ApplyExpr?) || (e1.FunctionExpr? && e2.FunctionExpr?)
      || (e1.ParameterReference? && e2.ParameterReference?)
  }

  /** `__eq__`: same class, then the two bitstrings (self's first); a failing bitstring propagates. */
  function Equal(e1: Expr, e2: Expr): Result<bool>
  {
    if !SameKind(e1, e2) then Ok(false)
    else
      var b1 :- BitstringOf(e1);
      var b2 :- BitstringOf(e2);
      Ok(b1 == b2)
  }

  method AreEqual(e1: Expr, e2: Expr) returns (r: Result<bool>)
    ensures r == Equal(e1, e2)
  {
    if !SameKind(e1, e2) {
      return Ok(false);
    }
    var b1 := Bitstring(e1);
    if b1.Fail? {
      return Fail(b1.error);
    }
    var b2 := Bitstring(e2);
    if b2.Fail? {
      return Fail(b2.error);
    }
    return Ok(b1.value == b2.value);
  }

  /** Equality holds exactly between terms of one kind with the same nameless form. */
  lemma EqualIffSameNameless(e1: Expr, e2: Expr)
    ensures Equal(e1, e2) == Ok(true)
        <==> SameKind(e1, e2) && ToNameless(e1, []).Ok? && ToNameless(e1, []) == ToNameless(e2, [])
  {
    if Equal(e1, e2) == Ok(true) {
      EncodeInjective(ToNameless(e1, []).value, ToNameless(e2, []).value);
    }
  }

  /** Comparing raises exactly when the kinds agree and one side is not a well-scoped term. */
  lemma EqualFailsIff(e1: Expr, e2: Expr)
    ensures Equal(e1, e2).Fail?
        <==> SameKind(e1, e2) && (ToNameless(e1, []).Fail? || ToNameless(e2, []).Fail?)
  {
  }

  // ---------------------------------------------------------------------
  // Independence from the choice of parameters.

  ghost predicate Injective(f: Param -> Param)
  {
    forall a: Param, b: Param :: f(a) == f(b) ==> a == b
  }

  /** Replace every parameter, bound and referenced, by its image under `f`. */
  function Rename(e: Expr, f: Param -> Param): Expr
  {
    match e
    case ApplyExpr(g, a) => ApplyExpr(Rename(g, f), Rename(a, f))
    case FunctionExpr(p, b) => FunctionExpr(f(p), Rename(b, f))
    case ParameterReference(p) => ParameterReference(f(p))
  }

  function RenameAll(scope: seq<Param>, f: Param -> Param): (r: seq<Param>)
    ensures |r| == |scope| && forall i :: 0 <= i < |scope| ==> r[i] == f(scope[i])
  {
    if scope == [] then [] else RenameAll(scope[..|scope| - 1], f) + [f(scope[|scope| - 1])]
  }

  lemma {:induction false} DistanceRenamed(scope: seq<Param>, f: Param -> Param, p: Param)
    requires Injective(f)
    ensures (f(p) in RenameAll(scope, f)) <==> (p in scope)
    ensures p in scope ==> Distance(RenameAll(scope, f), f(p)) == Distance(scope, p)
  {
    if scope != [] {
      var init := scope[..|scope| - 1];
      DistanceRenamed(init, f, p);
      assert RenameAll(scope, f)[..|scope| - 1] == RenameAll(init, f);
      assert forall q :: q in scope <==> q in init || q == scope[|scope| - 1];
      var r := RenameAll(scope, f);
      assert forall q :: q in r <==> q in RenameAll(init, f) || q == r[|r| - 1];
    }
  }

  /**
   * Renaming parameters one-to-one leaves the nameless form, and so the
   * bitstring, unchanged: the encoding sees binding structure only.
   */
  lemma {:induction false} RenamePreservesNameless(e: Expr, scope: seq<Param>, f: Param -> Param)
    requires Injective(f)
    ensures ToNameless(Rename(e, f), RenameAll(scope, f)) == ToNameless(e, scope)
  {
    match e
    case ParameterReference(p) =>
      DistanceRenamed(scope, f, p);
    case FunctionExpr(p, b) =>
      DistanceRenamed(scope, f, p);
      assert RenameAll(scope + [p], f) == RenameAll(scope, f) + [f(p)];
      RenamePreservesNameless(b, scope + [p], f);
    case ApplyExpr(g, a) =>
      RenamePreservesNameless(g, scope, f);
      RenamePreservesNameless(a, scope, f);
  }

  /** A well-scoped expression equals every one-to-one renaming of itself. */
  lemma RenamedIsEqual(e: Expr, f: Param -> Param)
    requires Injective(f) && ToNameless(e, []).Ok?
    ensures Equal(Rename(e, f), e) == Ok(true)
  {
    RenamePreservesNameless(e, [], f);
    assert RenameAll([], f) == [];
  }

  // ---------------------------------------------------------------------
  // Concrete encodings.

  /** The identity function encodes as 0010. */
  lemma IdentityBits(x: Param)
    ensures BitstringOf(FunctionExpr(x, ParameterReference(x))) == Ok("0010")
  {
    assert [] + [x] == [x];
    assert ToNameless(ParameterReference(x), [x]) == Ok(NVar(0));
    assert Encode(NLam(NVar(0))) == "00" + ("1" + "" + "0") == "0010";
  }

  /** The first projection \x y. x encodes as 0000110. */
  lemma FirstProjectionBits(x: Param, y: Param)
    requires x != y
    ensures BitstringOf(FunctionExpr(x, FunctionExpr(y, ParameterReference(x)))) == Ok("0000110")
  {
    assert [] + [x] == [x] && [x] + [y] == [x, y];
    assert Distance([x, y], x) == 1 by {
      assert [x, y][..1] == [x];
    }
    assert ToNameless(ParameterReference(x), [x, y]) == Ok(NVar(1));
    assert ToNameless(FunctionExpr(y, ParameterReference(x)), [x]) == Ok(NLam(NVar(1)));
    assert Ones(1) == "1";
    assert Encode(NLam(NLam(NVar(1)))) == "00" + ("00" + ("1" + "1" + "0")) == "0000110";
  }

  /** Application \f x. f x encodes as 00000111010. */
  lemma ApplicationBits(f: Param, x: Param)
    requires f != x
    ensures BitstringOf(FunctionExpr(f, FunctionExpr(x, ApplyExpr(ParameterReference(f), ParameterReference(x)))))
         == Ok("00000111010")
  {
    assert [] + [f] == [f] && [f] + [x] == [f, x];
    assert Distance([f, x], f) == 1 by {
      assert [f, x][..1] == [f];
    }
    var body := ApplyExpr(ParameterReference(f), ParameterReference(x));
    assert ToNameless(body, [f, x]) == Ok(NApp(NVar(1), NVar(0)));
    assert ToNameless(FunctionExpr(x, body), [f]) == Ok(NLam(NApp(NVar(1), NVar(0))));
    assert Ones(1) == "1";
    assert Encode(NApp(NVar(1), NVar(0))) == "01" + ("1" + "1" + "0") + ("1" + "" + "0");
    assert Encode(NLam(NLam(NApp(NVar(1), NVar(0))))) == "0000" + "01" + "110" + "10" == "00000111010";
  }

  /** A reference that no binder encloses makes bitstring raise. */
  lemma FreeReferenceFails(x: Param)
    ensures BitstringOf(ParameterReference(x)) == Fail(Malformed)
  {
  }

  /** A parameter object bound again inside its own body trips bitstring's assertion. */
  lemma RebindingFails(x: Param)
    ensures BitstringOf(FunctionExpr(x, FunctionExpr(x, ParameterReference(x)))) == Fail(Malformed)
  {
    assert [] + [x] == [x];
    assert ToNameless(FunctionExpr(x, ParameterReference(x)), [x]) == Fail(Malformed);
  }
}
