/** Instruction encoding: opcode byte, then big-endian operands. */
module Bytecode {
  import opened Options

  type byte = x: int | 0 <= x < 256

  datatype BinOp =
    | OpAdd | OpSub | OpMul | OpDiv | OpMod
    | OpEqual | OpNotEqual | OpGreater | OpGreaterEqual | OpLess | OpLessEqual
    | OpBitAnd | OpBitOr | OpBitXor

  datatype Instr =
    | Constant(index: nat) | Pop | PushTrue | PushFalse | PushNil
    | Binary(op: BinOp) | Negate | Bang | Dup
    | Jump(target: nat) | JumpNotTruthy(target: nat) | JumpTruthy(target: nat) | SetWhileEnd(target: nat)
    | GetLocal(slot: nat) | SetLocal(slot: nat)

  /** Opcode numbers, in the order of the opcode table. */
  function BinOpCode(op: BinOp): byte {
    match op
    case OpAdd => 5 case OpSub => 6 case OpMul => 7 case OpDiv => 8 case OpMod => 9
    case OpEqual => 13 case OpNotEqual => 14
    case OpGreater => 15 case OpGreaterEqual => 16 case OpLess => 17 case OpLessEqual => 18
    case OpBitAnd => 102 case OpBitOr => 103 case OpBitXor => 104
  }

  function OpCode(i: Instr): byte {
    match i
    case Constant(_) => 0 case Pop => 1 case PushTrue => 2 case PushFalse => 3 case PushNil => 4
    case Binary(op) => BinOpCode(op)
    case Bang => 12 case Jump(_) => 19 case JumpNotTruthy(_) => 20 case JumpTruthy(_) => 22
    case GetLocal(_) => 37 case SetLocal(_) => 38 case SetWhileEnd(_) => 91 case Dup => 99 case Negate => 110
  }

  /** The operand of an instruction and its width in bytes. */
  function Operand(i: Instr): nat {
    match i
    case Constant(k) => k
    case Jump(t) => t case JumpNotTruthy(t) => t case JumpTruthy(t) => t case SetWhileEnd(t) => t
    case GetLocal(s) => s case SetLocal(s) => s
    case _ => 0
  }

  function OperandWidth(i: Instr): (w: nat)
    ensures w <= 2
  {
    match i
    case Constant(_) => 2
    case Jump(_) => 2 case JumpNotTruthy(_) => 2 case JumpTruthy(_) => 2 case SetWhileEnd(_) => 2
    case GetLocal(_) => 1 case SetLocal(_) => 1
    case _ => 0
  }

  function Width(i: Instr): (w: nat)
    ensures 1 <= w <= 3
  {
    1 + OperandWidth(i)
  }

  function OperandBytes(operand: nat, width: nat): seq<byte>
    requires width <= 2
  {
    if width == 2 then [(operand / 256) % 256, operand % 256]
    else if width == 1 then [operand % 256]
    else []
  }

  function Encode(i: Instr): (b: seq<byte>)
    ensures |b| == Width(i)
  {
    [OpCode(i)] + OperandBytes(Operand(i), OperandWidth(i))
  }

  /** Make: an instruction buffer is allocated at its full length and filled operand by operand. */
  method Make(i: Instr) returns (b: array<byte>)
    ensures fresh(b) && b[..] == Encode(i)
  {
    b := new byte[Width(i)](_ => 0);
    b[0] := OpCode(i);
    var offset := 1;
    if OperandWidth(i) == 2 {
      b[offset], b[offset + 1] := (Operand(i) / 256) % 256, Operand(i) % 256;
    } else if OperandWidth(i) == 1 {
      b[offset] := Operand(i) % 256;
    }
    assert b[..] == Encode(i);
  }

  /** Operands that survive encoding. */
  predicate Encodable(i: Instr) {
    match OperandWidth(i)
    case 2 => Operand(i) < 65536
    case 1 => Operand(i) < 256
    case _ => true
  }

  function DecodeBinOp(code: byte): Option<BinOp> {
    match code
    case 5 => Some(OpAdd) case 6 => Some(OpSub) case 7 => Some(OpMul) case 8 => Some(OpDiv) case 9 => Some(OpMod)
    case 13 => Some(OpEqual) case 14 => Some(OpNotEqual)
    case 15 => Some(OpGreater) case 16 => Some(OpGreaterEqual) case 17 => Some(OpLess) case 18 => Some(OpLessEqual)
    case 102 => Some(OpBitAnd) case 103 => Some(OpBitOr) case 104 => Some(OpBitXor)
    case _ => None
  }

  function ReadUint16(code: seq<byte>, pos: nat): Option<nat> {
    if pos + 1 >= |code| then None else
    var high: int, low: int := code[pos], code[pos + 1];
    Some(high * 256 + low)
  }

  function ReadUint8(code: seq<byte>, pos: nat): Option<nat> {
    if pos < |code| then Some(code[pos]) else None
  }

  /** The instruction at a position of the code, as the machine reads it. */
  function Decode(code: seq<byte>, pos: nat): Option<Instr> {
    if pos >= |code| then None else
    var wide, narrow := ReadUint16(code, pos + 1), ReadUint8(code, pos + 1);
    match code[pos]
    case 0 => if wide.Some? then Some(Constant(wide.value)) else None
    case 1 => Some(Pop) case 2 => Some(PushTrue) case 3 => Some(PushFalse) case 4 => Some(PushNil)
    case 12 => Some(Bang)
    case 19 => if wide.Some? then Some(Jump(wide.value)) else None
    case 20 => if wide.Some? then Some(JumpNotTruthy(wide.value)) else None
    case 22 => if wide.Some? then Some(JumpTruthy(wide.value)) else None
    case 37 => if narrow.Some? then Some(GetLocal(narrow.value)) else None
    case 38 => if narrow.Some? then Some(SetLocal(narrow.value)) else None
    case 91 => if wide.Some? then Some(SetWhileEnd(wide.value)) else None
    case 99 => Some(Dup)
    case 110 => Some(Negate)
    case b => var op := DecodeBinOp(b); if op.Some? then Some(Binary(op.value)) else None
  }

  /** Decoding at the start of an encoded instruction gives it back, whatever surrounds it. */
  lemma {:induction false} DecodeEncode(before: seq<byte>, i: Instr, after: seq<byte>)
    requires Encodable(i)
    ensures Decode(before + Encode(i) + after, |before|) == Some(i)
  {
    var code := before + Encode(i) + after;
    var p := |before|;
    assert code[p..p + Width(i)] == Encode(i);
    assert code[p] == OpCode(i);
    if OperandWidth(i) == 2 {
      assert code[p + 1] == Encode(i)[1] && code[p + 2] == Encode(i)[2];
    } else if OperandWidth(i) == 1 {
      assert code[p + 1] == Encode(i)[1];
    }
    if i.Binary? { assert DecodeBinOp(BinOpCode(i.op)) == Some(i.op); }
  }

  // ---------------------------------------------------------------- pieces of code

  /** Instructions in order, as the concatenation tree the code generator builds. */
  datatype Code = Nop | One(i: Instr) | Cat(a: Code, b: Code)

  function Size(c: Code): nat {
    match c
    case Nop => 0
    case One(i) => Width(i)
    case Cat(a, b) => Size(a) + Size(b)
  }

  function Flatten(c: Code): (b: seq<byte>)
    ensures |b| == Size(c)
  {
    match c
    case Nop => []
    case One(i) => Encode(i)
    case Cat(a, b) => Flatten(a) + Flatten(b)
  }

  /** What the machine reads at a position. */
  type Fetch = nat -> Option<Instr>

  function Reader(code: seq<byte>): Fetch {
    (pos: nat) => Decode(code, pos)
  }

  /** The program holds these instructions from `pos` on, each readable at its own position. */
  ghost predicate Holds(fetch: Fetch, pos: nat, c: Code)
    decreases c
  {
    match c
    case Nop => true
    case One(i) => fetch(pos) == Some(i)
    case Cat(a, b) => Holds(fetch, pos, a) && Holds(fetch, pos + Size(a), b)
  }

  /** One instruction followed by more code. */
  function Emit(i: Instr, rest: Code): Code {
    Cat(One(i), rest)
  }

  lemma {:induction false} SizeEmit(i: Instr, rest: Code)
    ensures Size(Emit(i, rest)) == Width(i) + Size(rest)
  {
  }

  predicate AllEncodable(c: Code) {
    match c
    case Nop => true
    case One(i) => Encodable(i)
    case Cat(a, b) => AllEncodable(a) && AllEncodable(b)
  }

  lemma {:induction false} FlattenHolds(before: seq<byte>, c: Code, after: seq<byte>)
    requires AllEncodable(c)
    ensures Holds(Reader(before + Flatten(c) + after), |before|, c)
    decreases c
  {
    match c
    case Nop =>
    case One(i) => DecodeEncode(before, i, after);
    case Cat(a, b) =>
      assert before + (Flatten(a) + Flatten(b)) + after == before + Flatten(a) + (Flatten(b) + after);
      FlattenHolds(before, a, Flatten(b) + after);
      assert before + (Flatten(a) + Flatten(b)) + after == (before + Flatten(a)) + Flatten(b) + after;
      FlattenHolds(before + Flatten(a), b, after);
  }
}
