/**
 Gate expressions as postfix bytecode: the evaluator, and the language of expressions its bytecode
 encodes.
 */
module Expression {
  import opened Wrappers
  import opened Bytes
  import opened Fields
  import opened Plonk

  const OP_CONST: byte := 0x00
  const OP_ADVICE: byte := 0x01
  const OP_FIXED: byte := 0x02
  const OP_INSTANCE: byte := 0x03
  const OP_CHALLENGE: byte := 0x04
  const OP_NEG: byte := 0x05
  const OP_ADD: byte := 0x06
  const OP_MUL: byte := 0x07
  const OP_SCALE: byte := 0x08

  datatype EvalContext<F> = EvalContext(advice: seq<F>, fixed: seq<F>, instance: seq<F>, challenges: seq<F>)

  /** An expression whose queries are indices into the evaluation lists. */
  datatype IExpr<F> =
    | Constant(c: F)
    | Advice(i: u32)
    | Fixed(i: u32)
    | Instance(i: u32)
    | Challenge(n: byte)
    | Negated(a: IExpr<F>)
    | Sum(a: IExpr<F>, b: IExpr<F>)
    | Product(a: IExpr<F>, b: IExpr<F>)
    | Scaled(a: IExpr<F>, c: F)

  // ----- scalars and integers as bytes -----

  /** Elements fit in 32 bytes, as canonical integers. */
  ghost predicate Encodable<F(!new)>(f: Field<F>) {
    f.Valid() && f.Canonical() && f.order <= Pow256(32)
  }

  /** The representative, which is never negative when canonical. */
  function ScalarBytes<F(!new)>(f: Field<F>, a: F): (b: seq<byte>)
    ensures |b| == 32
  {
    BeBytes(if f.rep(a) < 0 then 0 else f.rep(a), 32)
  }

  function ScalarFromBytes<F(!new)>(f: Field<F>, b: seq<byte>): Option<F> {
    if BeVal(b) < f.order then Some(f.of(BeVal(b))) else None
  }

  lemma ScalarRoundTrip<F(!new)>(f: Field<F>, a: F)
    requires Encodable(f)
    ensures ScalarFromBytes(f, ScalarBytes(f, a)) == Some(a)
  {
    hide Pow256, BeVal, BeBytes;
    assert 0 <= f.rep(a) < f.order;
    BeReadWrite(f.rep(a), 32);
  }

  lemma BytesRoundTrip<F(!new)>(f: Field<F>, b: seq<byte>)
    requires Encodable(f) && |b| == 32 && ScalarFromBytes(f, b).Some?
    ensures ScalarBytes(f, ScalarFromBytes(f, b).value) == b
  {
    hide Pow256, BeVal, BeBytes;
    BeWriteRead(b);
    SmallResidue(BeVal(b), f.order);
    assert f.rep(f.of(BeVal(b))) == BeVal(b) % f.order;
  }

  lemma SmallResidue(a: nat, n: nat)
    requires a < n
    ensures a % n == a
  {
  }

  // ----- the language -----

  /** Postfix bytes of an expression. */
  ghost function Encode<F(!new)>(f: Field<F>, e: IExpr<F>): (b: seq<byte>)
    ensures b != []
  {
    match e
    case Constant(c) => [OP_CONST] + ScalarBytes(f, c)
    case Advice(i) => [OP_ADVICE] + LeBytes(i, 4)
    case Fixed(i) => [OP_FIXED] + LeBytes(i, 4)
    case Instance(i) => [OP_INSTANCE] + LeBytes(i, 4)
    case Challenge(n) => [OP_CHALLENGE] + [n]
    case Negated(a) => Encode(f, a) + [OP_NEG]
    case Sum(a, b) => Encode(f, a) + Encode(f, b) + [OP_ADD]
    case Product(a, b) => Encode(f, a) + Encode(f, b) + [OP_MUL]
    case Scaled(a, c) => Encode(f, a) + ([OP_SCALE] + ScalarBytes(f, c))
  }

  function At<F>(s: seq<F>, i: nat): Option<F> {
    if i < |s| then Some(s[i]) else None
  }

  /** The value of an expression, if all its indices are in range. */
  ghost function Denote<F(!new)>(f: Field<F>, e: IExpr<F>, ctx: EvalContext<F>): Option<F> {
    match e
    case Constant(c) => Some(c)
    case Advice(i) => At(ctx.advice, i)
    case Fixed(i) => At(ctx.fixed, i)
    case Instance(i) => At(ctx.instance, i)
    case Challenge(n) => At(ctx.challenges, n)
    case Negated(a) =>
      var va := Denote(f, a, ctx);
      if va.None? then None else Some(f.neg(va.value))
    case Sum(a, b) =>
      var va, vb := Denote(f, a, ctx), Denote(f, b, ctx);
      if va.None? || vb.None? then None else Some(f.add(va.value, vb.value))
    case Product(a, b) =>
      var va, vb := Denote(f, a, ctx), Denote(f, b, ctx);
      if va.None? || vb.None? then None else Some(f.mul(va.value, vb.value))
    case Scaled(a, c) =>
      var va := Denote(f, a, ctx);
      if va.None? then None else Some(f.mul(va.value, c))
  }

  // ----- one instruction -----

  /** The remaining bytes and the stack after one instruction, the top of the stack last. */
  datatype State<F> = State(bytes: seq<byte>, stack: seq<F>)

  ghost function PushAt<F>(values: seq<F>, i: nat, rest: seq<byte>, stack: seq<F>): Result<State<F>, Error> {
    if i < |values| then Ok(State(rest, stack + [values[i]])) else Err(InvalidGateBytecode)
  }

  ghost function PushIndexed<F>(values: seq<F>, operand: seq<byte>, stack: seq<F>): Result<State<F>, Error> {
    if |operand| < 4 then Err(InvalidGateBytecode)
    else PushAt(values, LeVal(operand[..4]), operand[4..], stack)
  }

  ghost function Instruction<F(!new)>(f: Field<F>, b: seq<byte>, stack: seq<F>, ctx: EvalContext<F>): (r: Result<State<F>, Error>)
    requires b != []
    ensures r.Ok? ==> |r.value.bytes| < |b|
  {
    var op, operand, n := b[0], b[1..], |stack|;
    if op == OP_CONST then
      if |operand| < 32 then Err(InvalidGateBytecode)
      else
        var c := ScalarFromBytes(f, operand[..32]);
        if c.None? then Err(PublicInputOutOfRange) else Ok(State(operand[32..], stack + [c.value]))
    else if op == OP_ADVICE then PushIndexed(ctx.advice, operand, stack)
    else if op == OP_FIXED then PushIndexed(ctx.fixed, operand, stack)
    else if op == OP_INSTANCE then PushIndexed(ctx.instance, operand, stack)
    else if op == OP_CHALLENGE then
      if operand == [] then Err(InvalidGateBytecode) else PushAt(ctx.challenges, operand[0], operand[1..], stack)
    else if op == OP_NEG then
      if n < 1 then Err(InvalidGateBytecode) else Ok(State(operand, stack[..n - 1] + [f.neg(stack[n - 1])]))
    else if op == OP_ADD then
      if n < 2 then Err(InvalidGateBytecode)
      else Ok(State(operand, stack[..n - 2] + [f.add(stack[n - 2], stack[n - 1])]))
    else if op == OP_MUL then
      if n < 2 then Err(InvalidGateBytecode)
      else Ok(State(operand, stack[..n - 2] + [f.mul(stack[n - 2], stack[n - 1])]))
    else if op == OP_SCALE then
      if |operand| < 32 then Err(InvalidGateBytecode)
      else
        var c := ScalarFromBytes(f, operand[..32]);
        if c.None? then Err(PublicInputOutOfRange)
        else if n < 1 then Err(InvalidGateBytecode)
        else Ok(State(operand[32..], stack[..n - 1] + [f.mul(stack[n - 1], c.value)]))
    else Err(InvalidGateBytecode)
  }

  /** All remaining instructions, from any stack. */
  ghost function Run<F(!new)>(f: Field<F>, b: seq<byte>, stack: seq<F>, ctx: EvalContext<F>): Result<seq<F>, Error>
    decreases |b|
  {
    if b == [] then Ok(stack)
    else
      var s := Instruction(f, b, stack, ctx);
      if s.Err? then Err(s.error) else Run(f, s.value.bytes, s.value.stack, ctx)
  }

  ghost function Outcome<F(!new)>(f: Field<F>, b: seq<byte>, ctx: EvalContext<F>): Result<F, Error> {
    var s := Run(f, b, [], ctx);
    if s.Err? then Err(s.error) else if |s.value| != 1 then Err(InvalidGateBytecode) else Ok(s.value[0])
  }

  // ----- the evaluator -----

  /** One byte off the front: put back before what is left, it gives what was there. */
  method ReadU8(b: seq<byte>, cur: nat) returns (r: Result<(byte, nat), Error>)
    requires cur <= |b|
    ensures r.Err? <==> b[cur..] == []
    ensures r.Err? ==> r.error == InvalidGateBytecode
    ensures r.Ok? ==> r.value.1 <= |b| && b[cur..] == [r.value.0] + b[r.value.1..]
  {
    if cur >= |b| {
      return Err(InvalidGateBytecode);
    }
    return Ok((b[cur], cur + 1));
  }

  lemma FourBytes(b: seq<byte>)
    requires |b| == 4
    ensures LeVal(b) < 0x1_0000_0000 && b == [b[0], b[1], b[2], b[3]]
  {
    U32Bound(b);
  }

  /** Four bytes off the front: the encoding of the word before what is left is what was there. */
  method ReadU32(b: seq<byte>, cur: nat) returns (r: Result<(u32, nat), Error>)
    requires cur <= |b|
    ensures r.Err? <==> |b[cur..]| < 4
    ensures r.Err? ==> r.error == InvalidGateBytecode
    ensures r.Ok? ==> r.value.1 <= |b| && b[cur..] == LeBytes(r.value.0, 4) + b[r.value.1..]
  {
    hide LeVal, LeBytes;
    if cur + 4 > |b| {
      return Err(InvalidGateBytecode);
    }
    var four := b[cur..cur + 4];
    FourBytes(four);
    LeWriteRead(four);
    assert b[cur..] == four + b[cur + 4..];
    return Ok((LeVal([b[cur], b[cur + 1], b[cur + 2], b[cur + 3]]), cur + 4));
  }

  /** 32 bytes off the front. */
  method Read32(b: seq<byte>, cur: nat) returns (r: Result<(seq<byte>, nat), Error>)
    requires cur <= |b|
    ensures r.Err? <==> |b[cur..]| < 32
    ensures r.Err? ==> r.error == InvalidGateBytecode
    ensures r.Ok? ==> |r.value.0| == 32 && r.value.1 <= |b| && b[cur..] == r.value.0 + b[r.value.1..]
  {
    if cur + 32 > |b| {
      return Err(InvalidGateBytecode);
    }
    assert b[cur..] == b[cur..cur + 32] + b[cur + 32..];
    return Ok((b[cur..cur + 32], cur + 32));
  }

  method IndexedOperand<F(!new)>(bytecode: seq<byte>, cur: nat, values: seq<F>, stack: seq<F>) returns (r: Result<(seq<F>, nat), Error>)
    requires cur <= |bytecode|
    ensures var s := PushIndexed(values, bytecode[cur..], stack);
      r == if s.Err? then Err(s.error) else Ok((s.value.stack, cur + 4))
    ensures r.Ok? ==> cur + 4 <= |bytecode| && PushIndexed(values, bytecode[cur..], stack).value.bytes == bytecode[cur + 4..]
  {
    var idx := ReadU32(bytecode, cur);
    assert cur + 4 <= |bytecode| ==> bytecode[cur..][..4] == bytecode[cur..cur + 4] && bytecode[cur..][4..] == bytecode[cur + 4..];
    if idx.Err? {
      return Err(idx.error);
    }
    U32Range();
    LeReadWrite(idx.value.0, 4);
    assert bytecode[cur..][..4] == LeBytes(idx.value.0, 4);
    if idx.value.0 >= |values| {
      return Err(InvalidGateBytecode);
    }
    return Ok((stack + [values[idx.value.0]], cur + 4));
  }

  /** One instruction of the loop: what it does to the cursor and the stack. */
  method Execute<F(!new)>(f: Field<F>, bytecode: seq<byte>, at: nat, stack: seq<F>, ctx: EvalContext<F>) returns (r: Result<(seq<F>, nat), Error>)
    requires at < |bytecode|
    ensures var s := Instruction(f, bytecode[at..], stack, ctx);
      && (r.Err? <==> s.Err?) && (r.Err? ==> r.error == s.error)
      && (r.Ok? ==> at < r.value.1 <= |bytecode| && s.value == State(bytecode[r.value.1..], r.value.0))
  {
    hide BeVal, LeVal, PushIndexed;
    var op, cur, n := bytecode[at], at + 1, |stack|;
    ghost var operand := bytecode[cur..];
    assert bytecode[at..][1..] == operand && bytecode[at..][0] == op;
    assert cur + 32 <= |bytecode| ==> operand[..32] == bytecode[cur..cur + 32] && operand[32..] == bytecode[cur + 32..];
    if op == OP_CONST {
      var bytes := Read32(bytecode, cur);
      if bytes.Err? {
        return Err(bytes.error);
      }
      var c := ScalarFromBytes(f, bytes.value.0);
      if c.None? {
        return Err(PublicInputOutOfRange);
      }
      return Ok((stack + [c.value], cur + 32));
    } else if op == OP_ADVICE {
      r := IndexedOperand(bytecode, cur, ctx.advice, stack);
    } else if op == OP_FIXED {
      r := IndexedOperand(bytecode, cur, ctx.fixed, stack);
    } else if op == OP_INSTANCE {
      r := IndexedOperand(bytecode, cur, ctx.instance, stack);
    } else if op == OP_CHALLENGE {
      var idx := ReadU8(bytecode, cur);
      if idx.Err? {
        return Err(idx.error);
      }
      assert operand[0] == bytecode[cur] && operand[1..] == bytecode[cur + 1..];
      if idx.value.0 >= |ctx.challenges| {
        return Err(InvalidGateBytecode);
      }
      return Ok((stack + [ctx.challenges[idx.value.0]], cur + 1));
    } else if op == OP_NEG {
      if n < 1 {
        return Err(InvalidGateBytecode);
      }
      return Ok((stack[..n - 1] + [f.neg(stack[n - 1])], cur));
    } else if op == OP_ADD {
      if n < 2 {
        return Err(InvalidGateBytecode);
      }
      return Ok((stack[..n - 2] + [f.add(stack[n - 2], stack[n - 1])], cur));
    } else if op == OP_MUL {
      if n < 2 {
        return Err(InvalidGateBytecode);
      }
      return Ok((stack[..n - 2] + [f.mul(stack[n - 2], stack[n - 1])], cur));
    } else if op == OP_SCALE {
      var bytes := Read32(bytecode, cur);
      if bytes.Err? {
        return Err(bytes.error);
      }
      var c := ScalarFromBytes(f, bytes.value.0);
      if c.None? {
        return Err(PublicInputOutOfRange);
      }
      if n < 1 {
        return Err(InvalidGateBytecode);
      }
      return Ok((stack[..n - 1] + [f.mul(stack[n - 1], c.value)], cur + 32));
    } else {
      return Err(InvalidGateBytecode);
    }
  }

  /** The loop over the bytecode with its operand stack. */
  method Evaluate<F(!new)>(f: Field<F>, bytecode: seq<byte>, ctx: EvalContext<F>) returns (r: Result<F, Error>)
    ensures r == Outcome(f, bytecode, ctx)
  {
    hide Instruction;
    var stack: seq<F> := [];
    var cur := 0;
    assert bytecode[0..] == bytecode;
    while cur < |bytecode|
      invariant cur <= |bytecode|
      invariant Run(f, bytecode[cur..], stack, ctx) == Run(f, bytecode, [], ctx)
    {
      var step := Execute(f, bytecode, cur, stack, ctx);
      if step.Err? {
        return Err(step.error);
      }
      stack, cur := step.value.0, step.value.1;
    }
    if |stack| != 1 {
      return Err(InvalidGateBytecode);
    }
    return Ok(stack[0]);
  }
}
