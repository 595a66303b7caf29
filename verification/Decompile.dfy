/** The ahead-of-time tier reads loop bodies back from bytecode. On code compiled from local integer assignments its
    parser returns the assignments that were compiled. */
module Decompile {
  import opened Options
  import opened Int64
  import opened Bytecode
  import opened CodeGen
  import opened Scopes
  import opened Machine
  import opened SimulationSteps
  import opened Constructs
  import opened CompileCorrect
  import A = AotExpr
  import V = AotValidate
  import W = AotWhile

  // ---------------------------------------------------------------- parseBody

  /** The parser's position, its expression stack, and the assignments found so far. */
  datatype Parse = Parse(pos: nat, stack: seq<A.Expr>, found: seq<V.Assignment>)

  function OpOfCode(code: byte): Option<A.Op> {
    match code
    case 5 => Some(A.Add) case 6 => Some(A.Sub) case 7 => Some(A.Mul) case 9 => Some(A.Mod)
    case 102 => Some(A.BitAnd) case 103 => Some(A.BitOr) case 104 => Some(A.BitXor)
    case _ => None
  }

  /** readIntegerConstant: only constants that are machine integers. */
  function ReadConstant(code: seq<byte>, pool: seq<int>, pos: nat, end: nat): Option<int64> {
    var index := ReadUint16(code, pos + 1);
    if pos + 2 >= end || index.None? || index.value >= |pool| || !Fits(pool[index.value]) then None
    else Some(pool[index.value])
  }

  /** One instruction of the body; None when the body is not a list of integer assignments. */
  function ParseOne(code: seq<byte>, pool: seq<int>, end: nat, s: Parse): (r: Option<Parse>)
    requires s.pos < end <= |code|
    ensures r.Some? ==> s.pos < r.value.pos <= end
  {
    var op, depth := code[s.pos], |s.stack|;
    if op == 37 || op == 159 then
      if s.pos + 1 >= end then None
      else Some(Parse(s.pos + 2, s.stack + [A.Local(code[s.pos + 1])], s.found))
    else if op == 0 then
      var v := ReadConstant(code, pool, s.pos, end);
      if v.None? then None else Some(Parse(s.pos + 3, s.stack + [A.Const(v.value)], s.found))
    else if OpOfCode(op).Some? then
      if depth < 2 then None
      else Some(Parse(s.pos + 1, s.stack[..depth - 2] + [A.Bin(OpOfCode(op).value, s.stack[depth - 2], s.stack[depth - 1])], s.found))
    else if op == 108 || op == 110 then
      if depth == 0 then None else Some(Parse(s.pos + 1, s.stack[..depth - 1] + [A.Neg(s.stack[depth - 1])], s.found))
    else if op == 38 then
      if depth == 0 || s.pos + 1 >= end then None
      else Some(Parse(s.pos + 2, s.stack, s.found + [V.Assignment(code[s.pos + 1], s.stack[depth - 1])]))
    else if op == 1 then
      if depth == 0 then None else Some(Parse(s.pos + 1, s.stack[..depth - 1], s.found))
    else None
  }

  function ParseFrom(code: seq<byte>, pool: seq<int>, end: nat, s: Parse): Option<seq<V.Assignment>>
    requires s.pos <= end <= |code|
    decreases end - s.pos, 1
  {
    if s.pos == end then (if s.stack == [] then Some(s.found) else None) else ParseOn(code, pool, end, s)
  }

  function ParseOn(code: seq<byte>, pool: seq<int>, end: nat, s: Parse): Option<seq<V.Assignment>>
    requires s.pos < end <= |code|
    decreases end - s.pos, 0
  {
    var next := ParseOne(code, pool, end, s);
    if next.None? then None else ParseFrom(code, pool, end, next.value)
  }

  /** The parser as the source runs it, with a mutable stack and list. */
  method ParseBody(code: seq<byte>, pool: seq<int>, start: nat, end: nat) returns (body: Option<seq<V.Assignment>>)
    requires start <= end <= |code|
    ensures body == ParseFrom(code, pool, end, Parse(start, [], []))
  {
    var pos, stack, found := start, [], [];
    while pos < end
      invariant pos <= end
      invariant ParseFrom(code, pool, end, Parse(pos, stack, found)) == ParseFrom(code, pool, end, Parse(start, [], []))
      decreases end - pos
    {
      var next := ParseOne(code, pool, end, Parse(pos, stack, found));
      assert ParseFrom(code, pool, end, Parse(pos, stack, found)) == ParseOn(code, pool, end, Parse(pos, stack, found));
      if next.None? { return None; }
      pos, stack, found := next.value.pos, next.value.stack, next.value.found;
    }
    body := if stack == [] then Some(found) else None;
  }

  // ---------------------------------------------------------------- what was compiled

  function OpOf(op: BinOp): Option<A.Op> {
    match op
    case OpAdd => Some(A.Add) case OpSub => Some(A.Sub) case OpMul => Some(A.Mul) case OpMod => Some(A.Mod)
    case OpBitAnd => Some(A.BitAnd) case OpBitOr => Some(A.BitOr) case OpBitXor => Some(A.BitXor)
    case _ => None
  }

  /** Integer arithmetic without nested assignments. */
  predicate Simple(e: Expr) {
    match e
    case Int(v) => Fits(v)
    case Var(_) => true
    case Infix(op, l, r) => OpOf(op).Some? && Simple(l) && Simple(r)
    case Minus(x) => Simple(x)
    case _ => false
  }

  predicate SimpleAssignment(e: Expr) {
    (e.Assign? && Simple(e.value)) || (e.OpAssign? && OpOf(e.op).Some? && Simple(e.value))
  }

  predicate StraightLine(b: Block) {
    b.Stmt? ==> SimpleAssignment(b.first) && StraightLine(b.rest)
  }

  function Tree(e: Expr, names: seq<string>): A.Expr
    requires Simple(e)
  {
    match e
    case Int(v) => A.Const(v)
    case Var(name) => A.Local(IndexOf(names, name))
    case Infix(op, l, r) => A.Bin(OpOf(op).value, Tree(l, names), Tree(r, names))
    case Minus(x) => A.Neg(Tree(x, names))
  }

  function TreeOf(e: Expr, names: seq<string>): V.Assignment
    requires SimpleAssignment(e)
  {
    var slot := IndexOf(names, e.name);
    if e.Assign? then V.Assignment(slot, Tree(e.value, names))
    else V.Assignment(slot, A.Bin(OpOf(e.op).value, A.Local(slot), Tree(e.value, names)))
  }

  function Trees(b: Block, names: seq<string>): seq<V.Assignment>
    requires StraightLine(b)
  {
    if b.Empty? then [] else [TreeOf(b.first, names)] + Trees(b.rest, names)
  }

  // ---------------------------------------------------------------- parsing undoes compiling

  lemma {:induction false} ParseNext(code: seq<byte>, pool: seq<int>, end: nat, s: Parse, i: Instr, next: Parse)
    requires s.pos + Width(i) <= end <= |code| && Decode(code, s.pos) == Some(i)
    requires ParseOne(code, pool, end, s) == Some(next)
    ensures ParseFrom(code, pool, end, s) == ParseFrom(code, pool, end, next)
  {
    assert ParseFrom(code, pool, end, s) == ParseOn(code, pool, end, s);
  }

  /** What the parser does with each instruction of compiled assignments. */
  lemma {:induction false} ParseInstr(code: seq<byte>, pool: seq<int>, end: nat, s: Parse, i: Instr)
    requires s.pos + Width(i) <= end <= |code| && Decode(code, s.pos) == Some(i)
    ensures var depth, next := |s.stack|, s.pos + Width(i);
            && (i.GetLocal? ==> ParseOne(code, pool, end, s) == Some(Parse(next, s.stack + [A.Local(i.slot)], s.found)))
            && (i.Constant? && i.index < |pool| && Fits(pool[i.index]) ==>
                  ParseOne(code, pool, end, s) == Some(Parse(next, s.stack + [A.Const(pool[i.index])], s.found)))
            && (i.Binary? && OpOf(i.op).Some? && depth >= 2 ==>
                  ParseOne(code, pool, end, s)
                  == Some(Parse(next, s.stack[..depth - 2] + [A.Bin(OpOf(i.op).value, s.stack[depth - 2], s.stack[depth - 1])], s.found)))
            && (i == Negate && depth >= 1 ==>
                  ParseOne(code, pool, end, s) == Some(Parse(next, s.stack[..depth - 1] + [A.Neg(s.stack[depth - 1])], s.found)))
            && (i.SetLocal? && depth >= 1 ==>
                  ParseOne(code, pool, end, s) == Some(Parse(next, s.stack, s.found + [V.Assignment(i.slot, s.stack[depth - 1])])))
            && (i == Pop && depth >= 1 ==> ParseOne(code, pool, end, s) == Some(Parse(next, s.stack[..depth - 1], s.found)))
  {
    DecodedByte(code, s.pos, i);
  }

  /** The opcode byte of a decoded instruction. */
  lemma {:induction false} DecodedByte(code: seq<byte>, pos: nat, i: Instr)
    requires Decode(code, pos) == Some(i)
    ensures pos < |code| && code[pos] == OpCode(i)
  {
    if i.Binary? { assert DecodeBinOp(code[pos]) == Some(i.op); }
  }

  /** The code of an expression pushes its tree. */
  lemma {:induction false} ParseExpr(code: seq<byte>, u: Tables, end: nat, e: Expr, base: nat, t: Tables, stack: seq<A.Expr>, found: seq<V.Assignment>)
    requires Simple(e) && Linked(u, e, base, t) && end <= |code|
    requires Holds(Reader(code), base, GenExpr(e, base, t).code) && base + Size(GenExpr(e, base, t).code) <= end
    ensures ParseFrom(code, u.pool, end, Parse(base, stack, found))
            == ParseFrom(code, u.pool, end, Parse(base + Size(GenExpr(e, base, t).code), stack + [Tree(e, u.names)], found))
    decreases e, 1
  {
    match e
    case Infix(_, _, _) => ParseInfix(code, u, end, e, base, t, stack, found);
    case Minus(_) => ParseMinus(code, u, end, e, base, t, stack, found);
    case _ => ParseLeaf(code, u, end, e, base, t, stack, found);
  }

  lemma {:induction false} ParseLeaf(code: seq<byte>, u: Tables, end: nat, e: Expr, base: nat, t: Tables, stack: seq<A.Expr>, found: seq<V.Assignment>)
    requires (e.Int? || e.Var?) && Simple(e) && Linked(u, e, base, t) && end <= |code|
    requires Holds(Reader(code), base, GenExpr(e, base, t).code) && base + Size(GenExpr(e, base, t).code) <= end
    ensures ParseFrom(code, u.pool, end, Parse(base, stack, found))
            == ParseFrom(code, u.pool, end, Parse(base + Size(GenExpr(e, base, t).code), stack + [Tree(e, u.names)], found))
  {
    var i := GenExpr(e, base, t).code.a.i;
    HoldsEmit(Reader(code), base, i, Nop);
    SizeEmit(i, Nop);
    if e.Int? { SameConstant(e.number, WithConstant(t, e.number), u); } else { SameSlot(e.name, t, u); }
    ParseInstr(code, u.pool, end, Parse(base, stack, found), i);
    ParseNext(code, u.pool, end, Parse(base, stack, found), i, Parse(base + Width(i), stack + [Tree(e, u.names)], found));
  }

  lemma {:induction false} ParseInfix(code: seq<byte>, u: Tables, end: nat, e: Expr, base: nat, t: Tables, stack: seq<A.Expr>, found: seq<V.Assignment>)
    requires e.Infix? && Simple(e) && Linked(u, e, base, t) && end <= |code|
    requires Holds(Reader(code), base, GenExpr(e, base, t).code) && base + Size(GenExpr(e, base, t).code) <= end
    ensures ParseFrom(code, u.pool, end, Parse(base, stack, found))
            == ParseFrom(code, u.pool, end, Parse(base + Size(GenExpr(e, base, t).code), stack + [Tree(e, u.names)], found))
    decreases e, 0
  {
    hide *;
    InfixTree(e, u.names);
    InfixCode(code, u, e, base, t);
    var x := GenExpr(e.left, base, t);
    var q := base + Size(x.code);
    var y := GenExpr(e.right, q, x.tables);
    ParseExpr(code, u, end, e.left, base, t, stack, found);
    ParseExpr(code, u, end, e.right, q, x.tables, stack + [Tree(e.left, u.names)], found);
    ParseBinary(code, u.pool, end, q + Size(y.code), e.op, stack, Tree(e.left, u.names), Tree(e.right, u.names), found);
  }

  /** The left code, the right code, the operator. */
  lemma {:induction false} InfixCode(code: seq<byte>, u: Tables, e: Expr, base: nat, t: Tables)
    requires e.Infix? && Linked(u, e, base, t) && Holds(Reader(code), base, GenExpr(e, base, t).code)
    ensures var x := GenExpr(e.left, base, t); var y := GenExpr(e.right, base + Size(x.code), x.tables);
            && Linked(u, e.left, base, t) && Linked(u, e.right, base + Size(x.code), x.tables)
            && Size(GenExpr(e, base, t).code) == Size(x.code) + Size(y.code) + 1
            && Holds(Reader(code), base, x.code) && Holds(Reader(code), base + Size(x.code), y.code)
            && Decode(code, base + Size(x.code) + Size(y.code)) == Some(Binary(e.op))
  {
    hide Extends, Names, Decode, Holds, Linked, GenExpr, Size;
    NodeUnfolds(e, base, t);
    PairLinked(u, e, base, t);
    var x := GenExpr(e.left, base, t);
    InfixParts(Reader(code), base, x.code, GenExpr(e.right, base + Size(x.code), x.tables).code, e.op);
  }

  lemma {:induction false} InfixTree(e: Expr, names: seq<string>)
    requires e.Infix? && Simple(e)
    ensures Simple(e.left) && Simple(e.right) && OpOf(e.op).Some?
    ensures Tree(e, names) == A.Bin(OpOf(e.op).value, Tree(e.left, names), Tree(e.right, names))
  {
  }

  lemma {:induction false} ParseBinary(code: seq<byte>, pool: seq<int>, end: nat, pos: nat, op: BinOp, stack: seq<A.Expr>, x: A.Expr, y: A.Expr, found: seq<V.Assignment>)
    requires OpOf(op).Some? && pos + 1 <= end <= |code| && Decode(code, pos) == Some(Binary(op))
    ensures ParseFrom(code, pool, end, Parse(pos, stack + [x] + [y], found))
            == ParseFrom(code, pool, end, Parse(pos + 1, stack + [A.Bin(OpOf(op).value, x, y)], found))
  {
    var s := Parse(pos, stack + [x] + [y], found);
    assert s.stack[..|s.stack| - 2] == stack && s.stack[|s.stack| - 2] == x && s.stack[|s.stack| - 1] == y && Width(Binary(op)) == 1;
    hide *;
    ParseInstr(code, pool, end, s, Binary(op));
    ParseNext(code, pool, end, s, Binary(op), Parse(pos + 1, stack + [A.Bin(OpOf(op).value, x, y)], found));
  }

  lemma {:induction false} ParseNegate(code: seq<byte>, pool: seq<int>, end: nat, pos: nat, stack: seq<A.Expr>, x: A.Expr, found: seq<V.Assignment>)
    requires pos + 1 <= end <= |code| && Decode(code, pos) == Some(Negate)
    ensures ParseFrom(code, pool, end, Parse(pos, stack + [x], found))
            == ParseFrom(code, pool, end, Parse(pos + 1, stack + [A.Neg(x)], found))
  {
    var s := Parse(pos, stack + [x], found);
    assert s.stack[..|s.stack| - 1] == stack && s.stack[|s.stack| - 1] == x && Width(Negate) == 1;
    hide *;
    ParseInstr(code, pool, end, s, Negate);
    ParseNext(code, pool, end, s, Negate, Parse(pos + 1, stack + [A.Neg(x)], found));
  }

  lemma {:induction false} PartsMinus(fetch: Fetch, base: nat, x: Code)
    requires Holds(fetch, base, Cat(x, Last(Negate)))
    ensures Size(Cat(x, Last(Negate))) == Size(x) + 1
    ensures Holds(fetch, base, x) && fetch(base + Size(x)) == Some(Negate)
  {
    SizeEmit(Negate, Nop);
    HoldsEmit(fetch, base + Size(x), Negate, Nop);
  }

  lemma {:induction false} ParseMinus(code: seq<byte>, u: Tables, end: nat, e: Expr, base: nat, t: Tables, stack: seq<A.Expr>, found: seq<V.Assignment>)
    requires e.Minus? && Simple(e) && Linked(u, e, base, t) && end <= |code|
    requires Holds(Reader(code), base, GenExpr(e, base, t).code) && base + Size(GenExpr(e, base, t).code) <= end
    ensures ParseFrom(code, u.pool, end, Parse(base, stack, found))
            == ParseFrom(code, u.pool, end, Parse(base + Size(GenExpr(e, base, t).code), stack + [Tree(e, u.names)], found))
    decreases e, 0
  {
    NodeUnfolds(e, base, t);
    hide Extends, Names, ParseFrom, Decode, Holds, Size, GenNode, GenOperator, GenExpr, Simple;
    var x := GenExpr(e.operand, base, t);
    var q, v := base + Size(x.code), Tree(e.operand, u.names);
    PartsMinus(Reader(code), base, x.code);
    ParseExpr(code, u, end, e.operand, base, t, stack, found);
    ParseNegate(code, u.pool, end, q, stack, v, found);
  }

  /** A store and the pop of its value end an assignment. */
  lemma {:induction false} ParseStore(code: seq<byte>, pool: seq<int>, end: nat, pos: nat, slot: nat, x: A.Expr, found: seq<V.Assignment>)
    requires pos + 3 <= end <= |code| && Decode(code, pos) == Some(SetLocal(slot)) && Decode(code, pos + 2) == Some(Pop)
    ensures ParseFrom(code, pool, end, Parse(pos, [x], found))
            == ParseFrom(code, pool, end, Parse(pos + 3, [], found + [V.Assignment(slot, x)]))
  {
    var s, m := Parse(pos, [x], found), Parse(pos + 2, [x], found + [V.Assignment(slot, x)]);
    ParseInstr(code, pool, end, s, SetLocal(slot));
    ParseNext(code, pool, end, s, SetLocal(slot), m);
    ParseInstr(code, pool, end, m, Pop);
    ParseNext(code, pool, end, m, Pop, Parse(pos + 3, [], m.found));
  }

  /** One statement. */
  lemma {:induction false} ParseAssignment(code: seq<byte>, u: Tables, end: nat, e: Expr, base: nat, t: Tables, found: seq<V.Assignment>)
    requires SimpleAssignment(e) && Linked(u, e, base, t) && end <= |code|
    requires var q := base + Size(GenExpr(e, base, t).code);
             Holds(Reader(code), base, GenExpr(e, base, t).code) && Decode(code, q) == Some(Pop) && q + 1 <= end
    ensures ParseFrom(code, u.pool, end, Parse(base, [], found))
            == ParseFrom(code, u.pool, end, Parse(base + Size(GenExpr(e, base, t).code) + 1, [], found + [TreeOf(e, u.names)]))
  {
    if e.Assign? { ParseAssign(code, u, end, e, base, t, found); } else { ParseOpAssign(code, u, end, e, base, t, found); }
  }

  lemma {:induction false} PartsAssign(fetch: Fetch, base: nat, k: nat, x: Code)
    requires Holds(fetch, base, Cat(x, Last(SetLocal(k))))
    ensures Size(Cat(x, Last(SetLocal(k)))) == Size(x) + 2
    ensures Holds(fetch, base, x) && fetch(base + Size(x)) == Some(SetLocal(k))
  {
    SizeEmit(SetLocal(k), Nop);
    HoldsEmit(fetch, base + Size(x), SetLocal(k), Nop);
  }

  /** Where the parts of a plain assignment's code lie. */
  lemma {:induction false} AssignLayout(fetch: Fetch, u: Tables, e: Expr, base: nat, t: Tables)
    requires e.Assign? && Linked(u, e, base, t) && Holds(fetch, base, GenExpr(e, base, t).code)
    ensures var x := GenExpr(e.value, base, WithLocal(t, e.name));
            && Linked(u, e.value, base, WithLocal(t, e.name)) && Holds(fetch, base, x.code)
            && fetch(base + Size(x.code)) == Some(SetLocal(IndexOf(u.names, e.name)))
            && Size(GenExpr(e, base, t).code) == Size(x.code) + 2
  {
    NodeUnfolds(e, base, t);
    assert Scoped(e.value, Names(t) + {e.name});
    hide GenExpr, Scoped, Extends, WithLocal, IndexOf, Names, Holds, Size;
    var x, k := GenExpr(e.value, base, WithLocal(t, e.name)), IndexOf(u.names, e.name);
    DefinedSlot(u, e.value, base, t, e.name);
    assert GenExpr(e, base, t) == Gen(Cat(x.code, Last(SetLocal(k))), x.tables);
    hide GenAssign;
    PartsAssign(fetch, base, IndexOf(u.names, e.name), GenExpr(e.value, base, WithLocal(t, e.name)).code);
  }

  lemma {:induction false} ParseAssign(code: seq<byte>, u: Tables, end: nat, e: Expr, base: nat, t: Tables, found: seq<V.Assignment>)
    requires SimpleAssignment(e) && e.Assign? && Linked(u, e, base, t) && end <= |code|
    requires var q := base + Size(GenExpr(e, base, t).code);
             Holds(Reader(code), base, GenExpr(e, base, t).code) && Decode(code, q) == Some(Pop) && q + 1 <= end
    ensures ParseFrom(code, u.pool, end, Parse(base, [], found))
            == ParseFrom(code, u.pool, end, Parse(base + Size(GenExpr(e, base, t).code) + 1, [], found + [TreeOf(e, u.names)]))
  {
    hide Linked, ParseFrom, Decode, GenExpr, Size, Holds, WithLocal, IndexOf;
    AssignLayout(Reader(code), u, e, base, t);
    var x, k := GenExpr(e.value, base, WithLocal(t, e.name)), IndexOf(u.names, e.name);
    ParseExpr(code, u, end, e.value, base, WithLocal(t, e.name), [], found);
    ParseValueStore(code, u.pool, end, base, Size(x.code), k, Tree(e.value, u.names), found);
  }

  /** The code of a plain assignment, once its value is parsed. */
  lemma {:induction false} ParseValueStore(code: seq<byte>, pool: seq<int>, end: nat, base: nat, n: nat, k: nat, v: A.Expr, found: seq<V.Assignment>)
    requires base + n + 3 <= end <= |code| && Reader(code)(base + n) == Some(SetLocal(k)) && Decode(code, base + n + 2) == Some(Pop)
    requires ParseFrom(code, pool, end, Parse(base, [], found)) == ParseFrom(code, pool, end, Parse(base + n, [] + [v], found))
    ensures ParseFrom(code, pool, end, Parse(base, [], found))
            == ParseFrom(code, pool, end, Parse(base + n + 3, [], found + [V.Assignment(k, v)]))
  {
    hide ParseFrom, Decode;
    assert [] + [v] == [v];
    ParseStore(code, pool, end, base + n, k, v, found);
  }

  lemma {:induction false} OpAssignCode(u: Tables, e: Expr, base: nat, t: Tables)
    requires e.OpAssign? && Linked(u, e, base, t)
    ensures var x, k := GenExpr(e.value, base + 2, WithLocal(t, e.name)), IndexOf(u.names, e.name);
            && Linked(u, e.value, base + 2, WithLocal(t, e.name))
            && GenExpr(e, base, t).code == Emit(GetLocal(k), Cat(x.code, Emit(Binary(e.op), Last(SetLocal(k)))))
  {
    NodeUnfolds(e, base, t);
    assert Scoped(e.value, Names(t) + {e.name});
    hide GenExpr, Scoped, Extends, WithLocal, IndexOf, Names;
    DefinedSlot(u, e.value, base + 2, t, e.name);
  }

  /** Where the parts of a compound assignment's code lie. */
  lemma {:induction false} OpAssignLayout(fetch: Fetch, u: Tables, e: Expr, base: nat, t: Tables)
    requires e.OpAssign? && Linked(u, e, base, t) && Holds(fetch, base, GenExpr(e, base, t).code)
    ensures var x, k := GenExpr(e.value, base + 2, WithLocal(t, e.name)), IndexOf(u.names, e.name);
            && Linked(u, e.value, base + 2, WithLocal(t, e.name)) && Holds(fetch, base + 2, x.code)
            && fetch(base) == Some(GetLocal(k)) && fetch(base + 2 + Size(x.code)) == Some(Binary(e.op))
            && fetch(base + 3 + Size(x.code)) == Some(SetLocal(k)) && Size(GenExpr(e, base, t).code) == Size(x.code) + 5
  {
    OpAssignCode(u, e, base, t);
    hide Linked, GenExpr, WithLocal, IndexOf, Emit, Holds, Size;
    var x, k := GenExpr(e.value, base + 2, WithLocal(t, e.name)), IndexOf(u.names, e.name);
    OpAssignParts(fetch, base, k, x.code, e.op);
  }

  lemma {:induction false} ParseOpAssign(code: seq<byte>, u: Tables, end: nat, e: Expr, base: nat, t: Tables, found: seq<V.Assignment>)
    requires SimpleAssignment(e) && e.OpAssign? && Linked(u, e, base, t) && end <= |code|
    requires var q := base + Size(GenExpr(e, base, t).code);
             Holds(Reader(code), base, GenExpr(e, base, t).code) && Decode(code, q) == Some(Pop) && q + 1 <= end
    ensures ParseFrom(code, u.pool, end, Parse(base, [], found))
            == ParseFrom(code, u.pool, end, Parse(base + Size(GenExpr(e, base, t).code) + 1, [], found + [TreeOf(e, u.names)]))
  {
    hide Linked, ParseFrom, Decode, GenExpr, Size, Holds, WithLocal, IndexOf;
    OpAssignLayout(Reader(code), u, e, base, t);
    var x, k := GenExpr(e.value, base + 2, WithLocal(t, e.name)), IndexOf(u.names, e.name);
    ReadsOpAssign(code, base, k, Size(x.code), e.op);
    ParseExpr(code, u, end, e.value, base + 2, WithLocal(t, e.name), [A.Local(k)], found);
    ParseLoadOperate(code, u.pool, end, base, k, Size(x.code), e.op, Tree(e.value, u.names), found);
  }

  lemma {:induction false} ReadsOpAssign(code: seq<byte>, base: nat, k: nat, n: nat, op: BinOp)
    requires var fetch := Reader(code);
             && fetch(base) == Some(GetLocal(k)) && fetch(base + 2 + n) == Some(Binary(op)) && fetch(base + 3 + n) == Some(SetLocal(k))
    ensures Decode(code, base) == Some(GetLocal(k)) && Decode(code, base + 2 + n) == Some(Binary(op))
    ensures Decode(code, base + 3 + n) == Some(SetLocal(k))
  {
    hide Decode;
  }

  /** The code of a compound assignment, once its operand is parsed. */
  lemma {:induction false} ParseLoadOperate(code: seq<byte>, pool: seq<int>, end: nat, base: nat, k: nat, n: nat, op: BinOp, v: A.Expr, found: seq<V.Assignment>)
    requires OpOf(op).Some? && base + n + 6 <= end <= |code|
    requires Decode(code, base) == Some(GetLocal(k)) && Decode(code, base + 2 + n) == Some(Binary(op))
    requires Decode(code, base + 3 + n) == Some(SetLocal(k)) && Decode(code, base + 5 + n) == Some(Pop)
    requires ParseFrom(code, pool, end, Parse(base + 2, [A.Local(k)], found))
             == ParseFrom(code, pool, end, Parse(base + 2 + n, [A.Local(k)] + [v], found))
    ensures ParseFrom(code, pool, end, Parse(base, [], found))
            == ParseFrom(code, pool, end, Parse(base + 6 + n, [], found + [V.Assignment(k, A.Bin(OpOf(op).value, A.Local(k), v))]))
  {
    hide ParseFrom, Decode;
    var q, now := base + 2 + n, A.Local(k);
    var tree := A.Bin(OpOf(op).value, now, v);
    assert [] + [now] == [now] && [] + [tree] == [tree];
    ParseInstr(code, pool, end, Parse(base, [], found), GetLocal(k));
    ParseNext(code, pool, end, Parse(base, [], found), GetLocal(k), Parse(base + 2, [now], found));
    ParseBinary(code, pool, end, q, op, [], now, v, found);
    ParseStore(code, pool, end, q + 1, k, tree, found);
  }

  lemma {:induction false} ParseBlock(code: seq<byte>, u: Tables, end: nat, b: Block, base: nat, t: Tables, found: seq<V.Assignment>)
    requires StraightLine(b) && LinkedBlock(u, b, base, t) && end <= |code|
    requires Holds(Reader(code), base, GenBlock(b, base, t).code) && base + Size(GenBlock(b, base, t).code) == end
    ensures ParseFrom(code, u.pool, end, Parse(base, [], found)) == Some(found + Trees(b, u.names))
    decreases b, 1
  {
    if b.Empty? {
      assert found + [] == found;
    } else {
      ParseStatement(code, u, end, b, base, t, found);
    }
  }

  lemma {:induction false} StatementLayout(fetch: Fetch, b: Block, base: nat, t: Tables)
    requires b.Stmt? && Holds(fetch, base, GenBlock(b, base, t).code)
    ensures var x := GenExpr(b.first, base, t);
            var q := base + Size(x.code);
            var y := GenBlock(b.rest, q + 1, x.tables);
            && Holds(fetch, base, x.code) && fetch(q) == Some(Pop) && Holds(fetch, q + 1, y.code)
            && Size(GenBlock(b, base, t).code) == Size(x.code) + 1 + Size(y.code)
  {
    assert GenBlock(b, base, t) == GenStatement(b, base, t);
    var x := GenExpr(b.first, base, t);
    var q := base + Size(x.code);
    var y := GenBlock(b.rest, q + 1, x.tables);
    HoldsEmit(fetch, q, Pop, y.code);
    SizeEmit(Pop, y.code);
  }

  lemma {:induction false} ParseStatement(code: seq<byte>, u: Tables, end: nat, b: Block, base: nat, t: Tables, found: seq<V.Assignment>)
    requires b.Stmt? && StraightLine(b) && LinkedBlock(u, b, base, t) && end <= |code|
    requires Holds(Reader(code), base, GenBlock(b, base, t).code) && base + Size(GenBlock(b, base, t).code) == end
    ensures ParseFrom(code, u.pool, end, Parse(base, [], found)) == Some(found + Trees(b, u.names))
    decreases b, 0
  {
    hide Linked, LinkedBlock, ParseFrom, Decode, Holds, GenExpr, GenBlock, Size;
    StatementLayout(Reader(code), b, base, t);
    var x := GenExpr(b.first, base, t);
    BlockLinked(u, b, base, t);
    ParseAssignment(code, u, end, b.first, base, t, found);
    ParseBlock(code, u, end, b.rest, base + Size(x.code) + 1, x.tables, found + [TreeOf(b.first, u.names)]);
    assert found + [TreeOf(b.first, u.names)] + Trees(b.rest, u.names) == found + ([TreeOf(b.first, u.names)] + Trees(b.rest, u.names));
  }
}
