/**
 The bytecode as a language: every expression evaluates to its value on any stack and before any
 suffix, and every accepted bytecode is the encoding of exactly one expression.
 */
module ExpressionLanguage {
  import opened Wrappers
  import opened Bytes
  import opened Fields
  import opened Plonk
  import opened Expression

  // ----- from expressions to values -----

  /** An index operand read back. */
  lemma IndexOperand<F(!new)>(values: seq<F>, i: u32, rest: seq<byte>, stack: seq<F>)
    ensures PushIndexed(values, LeBytes(i, 4) + rest, stack) == PushAt(values, i, rest, stack)
  {
    hide LeVal, LeBytes, PushAt;
    FourBytes(LeBytes(i, 4));
    U32Range();
    LeReadWrite(i, 4);
    var b := LeBytes(i, 4) + rest;
    assert b[..4] == LeBytes(i, 4) && b[4..] == rest;
  }

  /** The bytes of an expression on any stack, before any suffix: its value is pushed, or the
      evaluation fails because some index is out of range. */
  lemma {:induction false} RunEncode<F(!new)>(f: Field<F>, e: IExpr<F>, rest: seq<byte>, stack: seq<F>, ctx: EvalContext<F>)
    requires Encodable(f)
    ensures Run(f, Encode(f, e) + rest, stack, ctx) ==
            if Denote(f, e, ctx).Some? then Run(f, rest, stack + [Denote(f, e, ctx).value], ctx) else Err(InvalidGateBytecode)
    decreases e, 1
  {
    hide Encodable, Instruction, ScalarBytes, ScalarFromBytes, LeBytes, LeVal, Pow256;
    match e
    case Constant(c) => RunConstant(f, c, rest, stack, ctx);
    case Advice(i) => RunIndexed(f, OP_ADVICE, ctx.advice, i, rest, stack, ctx);
    case Fixed(i) => RunIndexed(f, OP_FIXED, ctx.fixed, i, rest, stack, ctx);
    case Instance(i) => RunIndexed(f, OP_INSTANCE, ctx.instance, i, rest, stack, ctx);
    case Challenge(n) => RunChallenge(f, n, rest, stack, ctx);
    case Negated(a) =>
      RunEncode(f, a, [OP_NEG] + rest, stack, ctx);
      assert Encode(f, e) + rest == Encode(f, a) + ([OP_NEG] + rest);
      if Denote(f, a, ctx).Some? {
        RunNeg(f, Denote(f, a, ctx).value, rest, stack, ctx);
      }
    case Sum(a, b) => RunBinary(f, e, a, b, OP_ADD, rest, stack, ctx);
    case Product(a, b) => RunBinary(f, e, a, b, OP_MUL, rest, stack, ctx);
    case Scaled(a, c) =>
      var tail := [OP_SCALE] + ScalarBytes(f, c) + rest;
      RunEncode(f, a, tail, stack, ctx);
      assert Encode(f, e) + rest == Encode(f, a) + tail;
      if Denote(f, a, ctx).Some? {
        RunScale(f, Denote(f, a, ctx).value, c, rest, stack, ctx);
      }
  }

  lemma {:induction false} RunBinary<F(!new)>(f: Field<F>, e: IExpr<F>, a: IExpr<F>, b: IExpr<F>, op: byte, rest: seq<byte>,
                                              stack: seq<F>, ctx: EvalContext<F>)
    requires Encodable(f) && a < e && b < e
    requires (op == OP_ADD && e == Sum(a, b)) || (op == OP_MUL && e == Product(a, b))
    ensures Run(f, Encode(f, e) + rest, stack, ctx) ==
            if Denote(f, e, ctx).Some? then Run(f, rest, stack + [Denote(f, e, ctx).value], ctx) else Err(InvalidGateBytecode)
    decreases e, 0
  {
    hide Encodable, Instruction, ScalarBytes, LeBytes, Run;
    var va, vb := Denote(f, a, ctx), Denote(f, b, ctx);
    assert Encode(f, e) + rest == Encode(f, a) + (Encode(f, b) + ([op] + rest));
    RunEncode(f, a, Encode(f, b) + ([op] + rest), stack, ctx);
    if va.Some? {
      RunEncode(f, b, [op] + rest, stack + [va.value], ctx);
      if vb.Some? {
        assert stack + [va.value] + [vb.value] == stack + [va.value, vb.value];
        RunArithmetic(f, op, va.value, vb.value, rest, stack, ctx);
      }
    }
  }

  lemma RunConstant<F(!new)>(f: Field<F>, c: F, rest: seq<byte>, stack: seq<F>, ctx: EvalContext<F>)
    requires Encodable(f)
    ensures Run(f, [OP_CONST] + ScalarBytes(f, c) + rest, stack, ctx) == Run(f, rest, stack + [c], ctx)
  {
    hide Encodable, ScalarBytes, ScalarFromBytes;
    ScalarRoundTrip(f, c);
    var b := [OP_CONST] + ScalarBytes(f, c) + rest;
    assert b[1..][..32] == ScalarBytes(f, c) && b[1..][32..] == rest;
  }

  lemma RunScale<F(!new)>(f: Field<F>, v: F, c: F, rest: seq<byte>, stack: seq<F>, ctx: EvalContext<F>)
    requires Encodable(f)
    ensures Run(f, [OP_SCALE] + ScalarBytes(f, c) + rest, stack + [v], ctx) == Run(f, rest, stack + [f.mul(v, c)], ctx)
  {
    hide Encodable, ScalarBytes, ScalarFromBytes;
    ScalarRoundTrip(f, c);
    var b := [OP_SCALE] + ScalarBytes(f, c) + rest;
    assert b[1..][..32] == ScalarBytes(f, c) && b[1..][32..] == rest;
    assert (stack + [v])[..|stack|] == stack;
  }

  lemma RunIndexed<F(!new)>(f: Field<F>, op: byte, values: seq<F>, i: u32, rest: seq<byte>, stack: seq<F>, ctx: EvalContext<F>)
    requires (op == OP_ADVICE && values == ctx.advice) || (op == OP_FIXED && values == ctx.fixed) || (op == OP_INSTANCE && values == ctx.instance)
    ensures Run(f, [op] + LeBytes(i, 4) + rest, stack, ctx) ==
            if i < |values| then Run(f, rest, stack + [values[i]], ctx) else Err(InvalidGateBytecode)
  {
    hide LeBytes, PushIndexed;
    var b := [op] + LeBytes(i, 4) + rest;
    assert b[1..] == LeBytes(i, 4) + rest;
    IndexOperand(values, i, rest, stack);
  }

  lemma RunChallenge<F(!new)>(f: Field<F>, n: byte, rest: seq<byte>, stack: seq<F>, ctx: EvalContext<F>)
    ensures Run(f, [OP_CHALLENGE] + [n] + rest, stack, ctx) ==
            if n < |ctx.challenges| then Run(f, rest, stack + [ctx.challenges[n]], ctx) else Err(InvalidGateBytecode)
  {
    var b := [OP_CHALLENGE] + [n] + rest;
    assert b[1..][0] == n && b[1..][1..] == rest;
  }

  lemma RunNeg<F(!new)>(f: Field<F>, v: F, rest: seq<byte>, stack: seq<F>, ctx: EvalContext<F>)
    ensures Run(f, [OP_NEG] + rest, stack + [v], ctx) == Run(f, rest, stack + [f.neg(v)], ctx)
  {
    var b := [OP_NEG] + rest;
    assert b[1..] == rest && (stack + [v])[..|stack|] == stack;
  }

  lemma RunArithmetic<F(!new)>(f: Field<F>, op: byte, v: F, w: F, rest: seq<byte>, stack: seq<F>, ctx: EvalContext<F>)
    requires op == OP_ADD || op == OP_MUL
    ensures Run(f, [op] + rest, stack + [v, w], ctx) == Run(f, rest, stack + [if op == OP_ADD then f.add(v, w) else f.mul(v, w)], ctx)
  {
    var b := [op] + rest;
    assert b[1..] == rest && (stack + [v, w])[..|stack|] == stack;
  }

  /** Compiler correctness at the level of indices. */
  lemma EncodedExpressionEvaluates<F(!new)>(f: Field<F>, e: IExpr<F>, ctx: EvalContext<F>)
    requires Encodable(f)
    ensures Outcome(f, Encode(f, e), ctx) == if Denote(f, e, ctx).Some? then Ok(Denote(f, e, ctx).value) else Err(InvalidGateBytecode)
  {
    hide Encodable, Encode, Denote;
    RunEncode(f, e, [], [], ctx);
    assert Encode(f, e) + [] == Encode(f, e);
  }

  // ----- from bytes to expressions -----

  datatype ParseState<F> = ParseState(bytes: seq<byte>, stack: seq<IExpr<F>>)

  /** One instruction run on expressions instead of values. */
  ghost function ParseOne<F(!new)>(f: Field<F>, b: seq<byte>, stack: seq<IExpr<F>>): (r: Option<ParseState<F>>)
    requires b != []
    ensures r.Some? ==> |r.value.bytes| < |b|
  {
    var op, operand, n := b[0], b[1..], |stack|;
    if op == OP_CONST then
      if |operand| < 32 || ScalarFromBytes(f, operand[..32]).None? then None
      else Some(ParseState(operand[32..], stack + [Constant(ScalarFromBytes(f, operand[..32]).value)]))
    else if op == OP_ADVICE || op == OP_FIXED || op == OP_INSTANCE then
      if |operand| < 4 then None
      else
        FourBytes(operand[..4]);
        var i: u32 := LeVal(operand[..4]);
        Some(ParseState(operand[4..], stack + [if op == OP_ADVICE then Advice(i) else if op == OP_FIXED then Fixed(i) else Instance(i)]))
    else if op == OP_CHALLENGE then
      if operand == [] then None else Some(ParseState(operand[1..], stack + [Challenge(operand[0])]))
    else if op == OP_NEG then
      if n < 1 then None else Some(ParseState(operand, stack[..n - 1] + [Negated(stack[n - 1])]))
    else if op == OP_ADD then
      if n < 2 then None else Some(ParseState(operand, stack[..n - 2] + [Sum(stack[n - 2], stack[n - 1])]))
    else if op == OP_MUL then
      if n < 2 then None else Some(ParseState(operand, stack[..n - 2] + [Product(stack[n - 2], stack[n - 1])]))
    else if op == OP_SCALE then
      if |operand| < 32 || ScalarFromBytes(f, operand[..32]).None? || n < 1 then None
      else Some(ParseState(operand[32..], stack[..n - 1] + [Scaled(stack[n - 1], ScalarFromBytes(f, operand[..32]).value)]))
    else None
  }

  ghost function Parse<F(!new)>(f: Field<F>, b: seq<byte>, stack: seq<IExpr<F>>): Option<seq<IExpr<F>>>
    decreases |b|
  {
    if b == [] then Some(stack)
    else
      var s := ParseOne(f, b, stack);
      if s.None? then None else Parse(f, s.value.bytes, s.value.stack)
  }

  ghost function EncodeAll<F(!new)>(f: Field<F>, es: seq<IExpr<F>>): seq<byte>
  {
    if es == [] then [] else EncodeAll(f, es[..|es| - 1]) + Encode(f, es[|es| - 1])
  }

  lemma EncodeAllSnoc<F(!new)>(f: Field<F>, es: seq<IExpr<F>>, e: IExpr<F>)
    ensures EncodeAll(f, es + [e]) == EncodeAll(f, es) + Encode(f, e)
  {
    assert (es + [e])[..|es|] == es;
  }

  lemma Pushed<F(!new)>(f: Field<F>, es: seq<IExpr<F>>, e: IExpr<F>, rest: seq<byte>)
    ensures EncodeAll(f, es + [e]) + rest == EncodeAll(f, es) + (Encode(f, e) + rest)
  {
    hide EncodeAll, Encode;
    EncodeAllSnoc(f, es, e);
  }

  lemma Reduced<F(!new)>(f: Field<F>, es: seq<IExpr<F>>, a: IExpr<F>, e: IExpr<F>, tail: seq<byte>, rest: seq<byte>)
    requires Encode(f, e) == Encode(f, a) + tail
    ensures EncodeAll(f, es + [e]) + rest == EncodeAll(f, es + [a]) + (tail + rest)
  {
    hide EncodeAll, Encode;
    EncodeAllSnoc(f, es, e);
    EncodeAllSnoc(f, es, a);
  }

  lemma Joined<F(!new)>(f: Field<F>, es: seq<IExpr<F>>, a: IExpr<F>, b: IExpr<F>, e: IExpr<F>, op: byte, rest: seq<byte>)
    requires Encode(f, e) == Encode(f, a) + Encode(f, b) + [op]
    ensures EncodeAll(f, es + [e]) + rest == EncodeAll(f, es + [a] + [b]) + ([op] + rest)
  {
    hide EncodeAll, Encode;
    EncodeAllSnoc(f, es, e);
    EncodeAllSnoc(f, es, a);
    EncodeAllSnoc(f, es + [a], b);
  }

  /** An instruction that pushes a leaf. */
  lemma LeafKeepsBytes<F(!new)>(f: Field<F>, b: seq<byte>, es: seq<IExpr<F>>)
    requires Encodable(f) && b != [] && b[0] <= OP_CHALLENGE && ParseOne(f, b, es).Some?
    ensures EncodeAll(f, ParseOne(f, b, es).value.stack) + ParseOne(f, b, es).value.bytes == EncodeAll(f, es) + b
  {
    hide Encodable, EncodeAll, ScalarBytes, ScalarFromBytes, LeVal, LeBytes;
    var op, operand, s := b[0], b[1..], ParseOne(f, b, es).value;
    var e := s.stack[|es|];
    if op == OP_CONST {
      BytesRoundTrip(f, operand[..32]);
      assert b == [op] + operand[..32] + operand[32..];
    } else if op == OP_CHALLENGE {
      assert b == [op] + [operand[0]] + operand[1..];
    } else {
      LeWriteRead(operand[..4]);
      assert b == [op] + operand[..4] + operand[4..];
    }
    assert b == Encode(f, e) + s.bytes;
    Pushed(f, es, e, s.bytes);
  }

  /** One instruction moves bytes from the input into the encoding of the stack. */
  lemma ParseOneKeepsBytes<F(!new)>(f: Field<F>, b: seq<byte>, es: seq<IExpr<F>>)
    requires Encodable(f) && b != [] && ParseOne(f, b, es).Some?
    ensures EncodeAll(f, ParseOne(f, b, es).value.stack) + ParseOne(f, b, es).value.bytes == EncodeAll(f, es) + b
  {
    hide Encodable, EncodeAll, ScalarBytes, ScalarFromBytes, LeVal, LeBytes;
    var op, operand, n := b[0], b[1..], |es|;
    var s := ParseOne(f, b, es).value;
    if op <= OP_CHALLENGE {
      LeafKeepsBytes(f, b, es);
    } else if op == OP_NEG {
      assert es == es[..n - 1] + [es[n - 1]] && b == [op] + operand;
      Reduced(f, es[..n - 1], es[n - 1], Negated(es[n - 1]), [op], operand);
    } else if op == OP_ADD || op == OP_MUL {
      assert es == es[..n - 2] + [es[n - 2]] + [es[n - 1]] && b == [op] + operand;
      Joined(f, es[..n - 2], es[n - 2], es[n - 1], s.stack[n - 2], op, operand);
    } else {
      BytesRoundTrip(f, operand[..32]);
      assert es == es[..n - 1] + [es[n - 1]] && b == [op] + operand[..32] + operand[32..];
      Reduced(f, es[..n - 1], es[n - 1], s.stack[n - 1], [op] + operand[..32], operand[32..]);
    }
  }

  lemma {:induction false} ParseKeepsBytes<F(!new)>(f: Field<F>, b: seq<byte>, es: seq<IExpr<F>>)
    requires Encodable(f) && Parse(f, b, es).Some?
    ensures EncodeAll(f, Parse(f, b, es).value) == EncodeAll(f, es) + b
    decreases |b|
  {
    hide Encodable, EncodeAll, ParseOne;
    if b != [] {
      ParseOneKeepsBytes(f, b, es);
      var s := ParseOne(f, b, es).value;
      ParseKeepsBytes(f, s.bytes, s.stack);
    } else {
      assert EncodeAll(f, es) + b == EncodeAll(f, es);
    }
  }

  // ----- unique readability -----

  lemma {:induction false} ParseEncode<F(!new)>(f: Field<F>, e: IExpr<F>, rest: seq<byte>, es: seq<IExpr<F>>)
    requires Encodable(f)
    ensures Parse(f, Encode(f, e) + rest, es) == Parse(f, rest, es + [e])
    decreases e, 1
  {
    hide Encodable, ScalarBytes, ScalarFromBytes, LeBytes, LeVal, ParseOne, Parse;
    match e
    case Constant(c) => ParseLeaf(f, e, rest, es);
    case Advice(i) => ParseLeaf(f, e, rest, es);
    case Fixed(i) => ParseLeaf(f, e, rest, es);
    case Instance(i) => ParseLeaf(f, e, rest, es);
    case Challenge(n) => ParseLeaf(f, e, rest, es);
    case Negated(a) =>
      assert Encode(f, e) + rest == Encode(f, a) + ([OP_NEG] + rest);
      ParseEncode(f, a, [OP_NEG] + rest, es);
      ParseUnary(f, a, rest, es);
    case Sum(a, b) => ParseOperands(f, e, a, b, OP_ADD, rest, es);
    case Product(a, b) => ParseOperands(f, e, a, b, OP_MUL, rest, es);
    case Scaled(a, c) =>
      var tail := [OP_SCALE] + ScalarBytes(f, c) + rest;
      assert Encode(f, e) + rest == Encode(f, a) + tail;
      ParseEncode(f, a, tail, es);
      ParseScaled(f, a, c, rest, es);
  }

  lemma {:induction false} ParseOperands<F(!new)>(f: Field<F>, e: IExpr<F>, a: IExpr<F>, b: IExpr<F>, op: byte, rest: seq<byte>, es: seq<IExpr<F>>)
    requires Encodable(f) && a < e && b < e
    requires (op == OP_ADD && e == Sum(a, b)) || (op == OP_MUL && e == Product(a, b))
    ensures Parse(f, Encode(f, e) + rest, es) == Parse(f, rest, es + [e])
    decreases e, 0
  {
    hide Encodable, ScalarBytes, LeBytes, ParseOne, Parse;
    assert Encode(f, e) + rest == Encode(f, a) + (Encode(f, b) + ([op] + rest));
    ParseEncode(f, a, Encode(f, b) + ([op] + rest), es);
    ParseEncode(f, b, [op] + rest, es + [a]);
    ParseBinary(f, a, b, op, rest, es);
  }

  lemma ParseLeaf<F(!new)>(f: Field<F>, e: IExpr<F>, rest: seq<byte>, es: seq<IExpr<F>>)
    requires Encodable(f) && (e.Constant? || e.Advice? || e.Fixed? || e.Instance? || e.Challenge?)
    ensures Parse(f, Encode(f, e) + rest, es) == Parse(f, rest, es + [e])
  {
    hide Encodable, ScalarBytes, ScalarFromBytes, LeBytes, LeVal;
    var b := Encode(f, e) + rest;
    if e.Constant? {
      ScalarRoundTrip(f, e.c);
      assert b[1..][..32] == ScalarBytes(f, e.c) && b[1..][32..] == rest;
    } else if e.Challenge? {
      assert b[1..][0] == e.n && b[1..][1..] == rest;
    } else {
      U32Range();
      LeReadWrite(e.i, 4);
      assert b[1..][..4] == LeBytes(e.i, 4) && b[1..][4..] == rest;
    }
  }

  lemma ParseUnary<F(!new)>(f: Field<F>, a: IExpr<F>, rest: seq<byte>, es: seq<IExpr<F>>)
    ensures Parse(f, [OP_NEG] + rest, es + [a]) == Parse(f, rest, es + [Negated(a)])
  {
    var b := [OP_NEG] + rest;
    assert b[1..] == rest && (es + [a])[..|es|] == es;
  }

  lemma ParseBinary<F(!new)>(f: Field<F>, a: IExpr<F>, b: IExpr<F>, op: byte, rest: seq<byte>, es: seq<IExpr<F>>)
    requires op == OP_ADD || op == OP_MUL
    ensures Parse(f, [op] + rest, es + [a] + [b]) == Parse(f, rest, es + [if op == OP_ADD then Sum(a, b) else Product(a, b)])
  {
    hide ScalarFromBytes, LeVal;
    var bytes := [op] + rest;
    assert bytes[1..] == rest && (es + [a] + [b])[..|es|] == es;
  }

  lemma ParseScaled<F(!new)>(f: Field<F>, a: IExpr<F>, c: F, rest: seq<byte>, es: seq<IExpr<F>>)
    requires Encodable(f)
    ensures Parse(f, [OP_SCALE] + ScalarBytes(f, c) + rest, es + [a]) == Parse(f, rest, es + [Scaled(a, c)])
  {
    hide Encodable, ScalarBytes, ScalarFromBytes;
    ScalarRoundTrip(f, c);
    var b := [OP_SCALE] + ScalarBytes(f, c) + rest;
    assert b[1..][..32] == ScalarBytes(f, c) && b[1..][32..] == rest;
    assert (es + [a])[..|es|] == es;
  }

  /** No two expressions have the same bytes. */
  lemma UniqueReadability<F(!new)>(f: Field<F>, d: IExpr<F>, e: IExpr<F>)
    requires Encodable(f) && Encode(f, d) == Encode(f, e)
    ensures d == e
  {
    hide Encodable, Encode;
    ParseEncode(f, d, [], []);
    ParseEncode(f, e, [], []);
    assert Encode(f, d) + [] == Encode(f, e) + [];
    assert ([] + [d])[0] == ([] + [e])[0];
  }

  // ----- what the evaluator accepts -----

  ghost predicate Holds<F(!new)>(f: Field<F>, es: seq<IExpr<F>>, stack: seq<F>, ctx: EvalContext<F>) {
    |es| == |stack| && forall i :: 0 <= i < |es| ==> Denote(f, es[i], ctx) == Some(stack[i])
  }

  lemma RunOneParses<F(!new)>(f: Field<F>, b: seq<byte>, es: seq<IExpr<F>>, stack: seq<F>, ctx: EvalContext<F>)
    requires b != [] && Holds(f, es, stack, ctx) && Instruction(f, b, stack, ctx).Ok?
    ensures ParseOne(f, b, es).Some?
    ensures ParseOne(f, b, es).value.bytes == Instruction(f, b, stack, ctx).value.bytes
    ensures Holds(f, ParseOne(f, b, es).value.stack, Instruction(f, b, stack, ctx).value.stack, ctx)
  {
    hide ScalarFromBytes, LeVal;
  }

  lemma {:induction false} RunParses<F(!new)>(f: Field<F>, b: seq<byte>, es: seq<IExpr<F>>, stack: seq<F>, ctx: EvalContext<F>)
    requires Holds(f, es, stack, ctx) && Run(f, b, stack, ctx).Ok?
    ensures Parse(f, b, es).Some? && Holds(f, Parse(f, b, es).value, Run(f, b, stack, ctx).value, ctx)
    decreases |b|
  {
    hide Instruction, ParseOne, Holds;
    if b != [] {
      RunOneParses(f, b, es, stack, ctx);
      var s, p := Instruction(f, b, stack, ctx).value, ParseOne(f, b, es).value;
      RunParses(f, s.bytes, p.stack, s.stack, ctx);
    }
  }

  /** Every bytecode the evaluator accepts is the encoding of an expression with that value; by
      unique readability, of exactly one. */
  lemma AcceptedBytecodeIsAnExpression<F(!new)>(f: Field<F>, b: seq<byte>, ctx: EvalContext<F>)
    requires Encodable(f) && Outcome(f, b, ctx).Ok?
    ensures exists e :: Encode(f, e) == b && Denote(f, e, ctx) == Some(Outcome(f, b, ctx).value)
    ensures forall d, e :: Encode(f, d) == b && Encode(f, e) == b ==> d == e
  {
    hide Encodable, Encode, Denote, Run, Parse;
    assert Holds(f, [], [], ctx);
    RunParses(f, b, [], [], ctx);
    ParseKeepsBytes(f, b, []);
    var es := Parse(f, b, []).value;
    var e := es[0];
    assert es == [] + [e];
    EncodeAllSnoc(f, [], e);
    assert EncodeAll(f, []) == [];
    assert [] + Encode(f, e) == Encode(f, e) && [] + b == b;
    forall d, e | Encode(f, d) == b && Encode(f, e) == b ensures d == e {
      UniqueReadability(f, d, e);
    }
  }

  /** The bytes of every form of expression. */
  lemma Opcodes<F(!new)>(f: Field<F>, c: F, i: u32, n: byte, a: IExpr<F>, b: IExpr<F>)
    ensures Encode(f, Constant(c)) == [0x00] + ScalarBytes(f, c)
    ensures Encode(f, Advice(i)) == [0x01] + LeBytes(i, 4) && Encode(f, Fixed(i)) == [0x02] + LeBytes(i, 4)
    ensures Encode(f, Instance(i)) == [0x03] + LeBytes(i, 4)
    ensures Encode<F>(f, Challenge(n)) == [0x04, n]
    ensures Encode(f, Negated(a)) == Encode(f, a) + [0x05]
    ensures Encode(f, Sum(a, b)) == Encode(f, a) + Encode(f, b) + [0x06]
    ensures Encode(f, Product(a, b)) == Encode(f, a) + Encode(f, b) + [0x07]
    ensures Encode(f, Scaled(a, c)) == Encode(f, a) + [0x08] + ScalarBytes(f, c)
  {
    hide ScalarBytes, LeBytes;
  }
}
