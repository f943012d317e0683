/**
 The host-side compiler: source expressions, whose queries name a column and a rotation, to
 bytecode, whose queries are positions in the constraint system's query lists.
 */
module ExpressionEncoder {
  import opened Wrappers
  import opened Bytes
  import opened Fields
  import opened Plonk
  import opened Expression
  import opened ExpressionLanguage

  datatype Expr<F> =
    | Const(c: F)
    | Selector(index: nat)
    | FixedQuery(column: nat, rotation: i32)
    | AdviceQuery(column: nat, rotation: i32)
    | InstanceQuery(column: nat, rotation: i32)
    | UserChallenge(index: nat)
    | Neg(a: Expr<F>)
    | Add(a: Expr<F>, b: Expr<F>)
    | Mul(a: Expr<F>, b: Expr<F>)
    | Scale(a: Expr<F>, c: F)

  type QueryList = seq<(nat, i32)>

  datatype ConstraintSystem = ConstraintSystem(advice: QueryList, fixed: QueryList, instance: QueryList)

  datatype EncodeError = SelectorPresent | UnresolvedQueryIndex

  // ----- resolution -----

  /** The first position of a query in its list. */
  method FindQuery(queries: QueryList, column: nat, rotation: i32) returns (r: Option<nat>)
    ensures r == FirstIndex(queries, column, rotation)
  {
    for i := 0 to |queries|
      invariant FirstIndex(queries, column, rotation) == FirstFrom(queries, column, rotation, i)
    {
      if queries[i].0 == column && queries[i].1 == rotation {
        return Some(i);
      }
    }
    return None;
  }

  ghost function FirstFrom(queries: QueryList, column: nat, rotation: i32, i: nat): Option<nat>
    requires i <= |queries|
    decreases |queries| - i
  {
    if i == |queries| then None else if queries[i] == (column, rotation) then Some(i) else FirstFrom(queries, column, rotation, i + 1)
  }

  ghost function FirstIndex(queries: QueryList, column: nat, rotation: i32): Option<nat> {
    FirstFrom(queries, column, rotation, 0)
  }

  lemma {:induction false} FirstIsQuery(queries: QueryList, column: nat, rotation: i32, i: nat)
    requires i <= |queries|
    ensures var r := FirstFrom(queries, column, rotation, i);
      if r.Some? then i <= r.value < |queries| && queries[r.value] == (column, rotation) && (column, rotation) !in queries[i..r.value]
      else (column, rotation) !in queries[i..]
    decreases |queries| - i
  {
    if i < |queries| && queries[i] != (column, rotation) {
      FirstIsQuery(queries, column, rotation, i + 1);
      var r := FirstFrom(queries, column, rotation, i);
      if r.Some? {
        assert queries[i..r.value] == [queries[i]] + queries[i + 1..r.value];
      } else {
        assert queries[i..] == [queries[i]] + queries[i + 1..];
      }
    }
  }

  /** The cast of an index to 32 bits. */
  function AsU32(i: nat): u32 {
    i % 0x1_0000_0000
  }

  /** The index-level expression, or the first error met in post-order. */
  ghost function Resolve<F(!new)>(e: Expr<F>, cs: ConstraintSystem): Result<IExpr<F>, EncodeError> {
    match e
    case Const(c) => Ok(Constant(c))
    case Selector(_) => Err(SelectorPresent)
    case FixedQuery(c, r) =>
      var i := FirstIndex(cs.fixed, c, r);
      if i.None? then Err(UnresolvedQueryIndex) else Ok(Fixed(AsU32(i.value)))
    case AdviceQuery(c, r) =>
      var i := FirstIndex(cs.advice, c, r);
      if i.None? then Err(UnresolvedQueryIndex) else Ok(Advice(AsU32(i.value)))
    case InstanceQuery(c, r) =>
      var i := FirstIndex(cs.instance, c, r);
      if i.None? then Err(UnresolvedQueryIndex) else Ok(Instance(AsU32(i.value)))
    case UserChallenge(i) => if i > 255 then Err(UnresolvedQueryIndex) else Ok(Challenge(i))
    case Neg(a) =>
      var ra := Resolve(a, cs);
      if ra.Err? then ra else Ok(Negated(ra.value))
    case Add(a, b) =>
      var ra, rb := Resolve(a, cs), Resolve(b, cs);
      if ra.Err? then ra else if rb.Err? then rb else Ok(Sum(ra.value, rb.value))
    case Mul(a, b) =>
      var ra, rb := Resolve(a, cs), Resolve(b, cs);
      if ra.Err? then ra else if rb.Err? then rb else Ok(Product(ra.value, rb.value))
    case Scale(a, c) =>
      var ra := Resolve(a, cs);
      if ra.Err? then ra else Ok(Scaled(ra.value, c))
  }

  // ----- the encoder -----

  /** Appends the bytes of an expression to the output, in post-order. */
  method Walk<F(!new)>(f: Field<F>, e: Expr<F>, cs: ConstraintSystem, out: seq<byte>) returns (r: Result<seq<byte>, EncodeError>)
    ensures r == if Resolve(e, cs).Ok? then Ok(out + Encode(f, Resolve(e, cs).value)) else Err(Resolve(e, cs).error)
    decreases e, 1
  {
    hide FirstIndex, ScalarBytes, LeBytes;
    match e
    case Const(c) =>
      return Ok(out + ([OP_CONST] + ScalarBytes(f, c)));
    case Selector(_) =>
      return Err(SelectorPresent);
    case FixedQuery(c, rot) =>
      var i := FindQuery(cs.fixed, c, rot);
      if i.None? {
        return Err(UnresolvedQueryIndex);
      }
      return Ok(out + ([OP_FIXED] + LeBytes(AsU32(i.value), 4)));
    case AdviceQuery(c, rot) =>
      var i := FindQuery(cs.advice, c, rot);
      if i.None? {
        return Err(UnresolvedQueryIndex);
      }
      return Ok(out + ([OP_ADVICE] + LeBytes(AsU32(i.value), 4)));
    case InstanceQuery(c, rot) =>
      var i := FindQuery(cs.instance, c, rot);
      if i.None? {
        return Err(UnresolvedQueryIndex);
      }
      return Ok(out + ([OP_INSTANCE] + LeBytes(AsU32(i.value), 4)));
    case UserChallenge(i) =>
      if i > 255 {
        return Err(UnresolvedQueryIndex);
      }
      return Ok(out + ([OP_CHALLENGE] + [i]));
    case Neg(a) =>
      var first := Walk(f, a, cs, out);
      if first.Err? {
        return first;
      }
      assert first.value + [OP_NEG] == out + (Encode(f, Resolve(a, cs).value) + [OP_NEG]);
      return Ok(first.value + [OP_NEG]);
    case Add(a, b) =>
      r := WalkBoth(f, e, a, b, cs, out);
      if r.Ok? {
        ghost var both := Encode(f, Resolve(a, cs).value) + Encode(f, Resolve(b, cs).value);
        assert r.value + [OP_ADD] == out + (both + [OP_ADD]);
        r := Ok(r.value + [OP_ADD]);
      }
    case Mul(a, b) =>
      r := WalkBoth(f, e, a, b, cs, out);
      if r.Ok? {
        ghost var both := Encode(f, Resolve(a, cs).value) + Encode(f, Resolve(b, cs).value);
        assert r.value + [OP_MUL] == out + (both + [OP_MUL]);
        r := Ok(r.value + [OP_MUL]);
      }
    case Scale(a, c) =>
      var first := Walk(f, a, cs, out);
      if first.Err? {
        return first;
      }
      assert first.value + ([OP_SCALE] + ScalarBytes(f, c)) == out + (Encode(f, Resolve(a, cs).value) + ([OP_SCALE] + ScalarBytes(f, c)));
      return Ok(first.value + ([OP_SCALE] + ScalarBytes(f, c)));
  }

  /** Both operands of a binary node, left first. */
  method WalkBoth<F(!new)>(f: Field<F>, ghost e: Expr<F>, a: Expr<F>, b: Expr<F>, cs: ConstraintSystem, out: seq<byte>)
    returns (r: Result<seq<byte>, EncodeError>)
    requires a < e && b < e
    ensures r == if Resolve(a, cs).Err? then Err(Resolve(a, cs).error) else if Resolve(b, cs).Err? then Err(Resolve(b, cs).error)
                 else Ok(out + (Encode(f, Resolve(a, cs).value) + Encode(f, Resolve(b, cs).value)))
    decreases e, 0
  {
    hide Resolve, Encode;
    var first := Walk(f, a, cs, out);
    if first.Err? {
      return first;
    }
    var second := Walk(f, b, cs, first.value);
    if second.Ok? {
      ghost var ea, eb := Encode(f, Resolve(a, cs).value), Encode(f, Resolve(b, cs).value);
      assert out + ea + eb == out + (ea + eb);
    }
    return second;
  }

  // ----- meaning -----

  /** Values of columns at rotations, and the challenges drawn. */
  datatype Assignment<F> = Assignment(advice: (nat, int) -> F, fixed: (nat, int) -> F, instance: (nat, int) -> F, challenges: seq<F>)

  /** The meaning of an expression without selectors whose challenges have been drawn. */
  ghost function Meaning<F(!new)>(f: Field<F>, e: Expr<F>, v: Assignment<F>): Option<F> {
    match e
    case Const(c) => Some(c)
    case Selector(_) => None
    case FixedQuery(c, r) => Some(v.fixed(c, r))
    case AdviceQuery(c, r) => Some(v.advice(c, r))
    case InstanceQuery(c, r) => Some(v.instance(c, r))
    case UserChallenge(i) => At(v.challenges, i)
    case Neg(a) =>
      var va := Meaning(f, a, v);
      if va.None? then None else Some(f.neg(va.value))
    case Add(a, b) =>
      var va, vb := Meaning(f, a, v), Meaning(f, b, v);
      if va.None? || vb.None? then None else Some(f.add(va.value, vb.value))
    case Mul(a, b) =>
      var va, vb := Meaning(f, a, v), Meaning(f, b, v);
      if va.None? || vb.None? then None else Some(f.mul(va.value, vb.value))
    case Scale(a, c) =>
      var va := Meaning(f, a, v);
      if va.None? then None else Some(f.mul(va.value, c))
  }

  ghost predicate Evaluates<F(!new)>(queries: QueryList, evals: seq<F>, value: (nat, int) -> F) {
    && |queries| <= |evals| && |queries| <= 0x1_0000_0000
    && forall i :: 0 <= i < |queries| ==> evals[i] == value(queries[i].0, queries[i].1)
  }

  /** The evaluation lists hold the value of each query of the constraint system, in order. */
  ghost predicate Matches<F(!new)>(cs: ConstraintSystem, ctx: EvalContext<F>, v: Assignment<F>) {
    && Evaluates(cs.advice, ctx.advice, v.advice) && Evaluates(cs.fixed, ctx.fixed, v.fixed)
    && Evaluates(cs.instance, ctx.instance, v.instance)
    && ctx.challenges == v.challenges
  }

  lemma QueryValue<F(!new)>(queries: QueryList, evals: seq<F>, value: (nat, int) -> F, c: nat, r: i32)
    requires Evaluates(queries, evals, value) && FirstIndex(queries, c, r).Some?
    ensures At(evals, AsU32(FirstIndex(queries, c, r).value)) == Some(value(c, r))
  {
    FirstIsQuery(queries, c, r, 0);
  }

  lemma {:induction false} ResolvedMeaning<F(!new)>(f: Field<F>, e: Expr<F>, cs: ConstraintSystem, ctx: EvalContext<F>, v: Assignment<F>)
    requires Matches(cs, ctx, v) && Resolve(e, cs).Ok?
    ensures Denote(f, Resolve(e, cs).value, ctx) == Meaning(f, e, v)
  {
    hide FirstIndex, Evaluates, AsU32;
    match e
    case FixedQuery(c, r) => QueryValue(cs.fixed, ctx.fixed, v.fixed, c, r);
    case AdviceQuery(c, r) => QueryValue(cs.advice, ctx.advice, v.advice, c, r);
    case InstanceQuery(c, r) => QueryValue(cs.instance, ctx.instance, v.instance, c, r);
    case Neg(a) => ResolvedMeaning(f, a, cs, ctx, v);
    case Scale(a, c) => ResolvedMeaning(f, a, cs, ctx, v);
    case Add(a, b) =>
      ResolvedMeaning(f, a, cs, ctx, v);
      ResolvedMeaning(f, b, cs, ctx, v);
    case Mul(a, b) =>
      ResolvedMeaning(f, a, cs, ctx, v);
      ResolvedMeaning(f, b, cs, ctx, v);
    case _ =>
  }

  /** Compile and run: the bytecode of an expression evaluates to the expression's meaning; encoding
      fails exactly when the expression mentions a selector, an unlisted query or a large challenge. */
  method CompileAndEvaluate<F(!new)>(f: Field<F>, e: Expr<F>, cs: ConstraintSystem, ctx: EvalContext<F>, ghost v: Assignment<F>)
    returns (r: Result<Result<F, Error>, EncodeError>)
    requires Encodable(f) && Matches(cs, ctx, v)
    ensures r.Err? <==> !Compilable(e, cs)
    ensures r.Ok? ==> r.value == if Meaning(f, e, v).Some? then Ok(Meaning(f, e, v).value) else Err(InvalidGateBytecode)
  {
    hide Encodable, Matches, Encode, Denote, Meaning, Outcome;
    CompilableIffResolves(e, cs);
    var bytecode := Walk(f, e, cs, []);
    if bytecode.Err? {
      return Err(bytecode.error);
    }
    assert [] + Encode(f, Resolve(e, cs).value) == Encode(f, Resolve(e, cs).value);
    EncodedExpressionEvaluates(f, Resolve(e, cs).value, ctx);
    ResolvedMeaning(f, e, cs, ctx, v);
    var value := Evaluate(f, bytecode.value, ctx);
    return Ok(value);
  }

  /** Selector-free, with every query listed and every challenge index in one byte. */
  ghost predicate Compilable<F(!new)>(e: Expr<F>, cs: ConstraintSystem) {
    match e
    case Const(_) => true
    case Selector(_) => false
    case FixedQuery(c, r) => (c, r) in cs.fixed
    case AdviceQuery(c, r) => (c, r) in cs.advice
    case InstanceQuery(c, r) => (c, r) in cs.instance
    case UserChallenge(i) => i <= 255
    case Neg(a) => Compilable(a, cs)
    case Add(a, b) => Compilable(a, cs) && Compilable(b, cs)
    case Mul(a, b) => Compilable(a, cs) && Compilable(b, cs)
    case Scale(a, _) => Compilable(a, cs)
  }

  lemma {:induction false} CompilableIffResolves<F(!new)>(e: Expr<F>, cs: ConstraintSystem)
    ensures Compilable(e, cs) <==> Resolve(e, cs).Ok?
  {
    match e
    case FixedQuery(c, r) => FirstIsQuery(cs.fixed, c, r, 0);
    case AdviceQuery(c, r) => FirstIsQuery(cs.advice, c, r, 0);
    case InstanceQuery(c, r) => FirstIsQuery(cs.instance, c, r, 0);
    case Neg(a) => CompilableIffResolves(a, cs);
    case Scale(a, _) => CompilableIffResolves(a, cs);
    case Add(a, b) =>
      CompilableIffResolves(a, cs);
      CompilableIffResolves(b, cs);
    case Mul(a, b) =>
      CompilableIffResolves(a, cs);
      CompilableIffResolves(b, cs);
    case _ =>
  }
}
