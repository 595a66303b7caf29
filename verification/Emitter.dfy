/** The compiler as the source runs it. */
module Emitter {
  // Bytes are appended, jumps are emitted with a placeholder and patched in place, and the constant pool and the symbol
  // store grow. Each method is tied to the code generator of CodeGen.

  import opened Options
  import opened Bytecode
  import opened CodeGen
  import opened Scopes
  import opened Patching

  class Compiler {
    var instructions: seq<byte>
    var constants: seq<int>
    var integerConstants: map<int, nat>
    var store: map<string, nat>
    var maxSymbols: nat
    ghost var names: seq<string>

    /** The index maps agree with the lists they index, and no name is listed twice. */
    ghost predicate Valid()
      reads `constants, `integerConstants, `store, `maxSymbols, `names
    {
      && maxSymbols == |names| && Distinct(names)
      && (forall v :: v in integerConstants <==> v in constants)
      && (forall v :: v in constants ==> integerConstants[v] == IndexOf(constants, v))
      && (forall x :: x in store <==> x in names)
      && (forall x :: x in names ==> store[x] == IndexOf(names, x))
    }

    ghost function Tab(): Tables
      reads `constants, `names
    {
      Tables(names, constants)
    }

    constructor ()
      ensures Valid() && instructions == [] && Tab() == Tables([], [])
    {
      instructions, constants, integerConstants, store, maxSymbols, names := [], [], map[], map[], 0, [];
    }

    /** Append an instruction; its position is returned. */
    method Emit(i: Instr) returns (pos: nat)
      modifies `instructions
      ensures pos == |old(instructions)| && instructions == Append(old(instructions), One(i))
    {
      var ins := Make(i);
      pos := |instructions|;
      instructions := instructions + ins[..];
    }

    /** Overwrite the operand of the jump at pos. */
    method ChangeOperand(pos: nat, target: nat)
      requires pos + 2 < |instructions|
      modifies `instructions
      ensures instructions == Patch(old(instructions), pos, target)
    {
      instructions := instructions[pos + 1 := (target / 256) % 256];
      instructions := instructions[pos + 2 := target % 256];
    }

    /** An integer already in the pool keeps its index. */
    method AddConstant(v: int) returns (index: nat)
      requires Valid()
      modifies `constants, `integerConstants
      ensures Valid() && Tab() == WithConstant(old(Tab()), v) && index == IndexOf(constants, v)
    {
      if v in integerConstants { return integerConstants[v]; }
      index := |constants|;
      IndexAfter(constants, v);
      constants := constants + [v];
      integerConstants := integerConstants[v := index];
    }

    /** Resolve a local of this scope, defining it when it is new. */
    method ResolveOrDefine(name: string) returns (slot: nat)
      requires Valid()
      modifies `store, `maxSymbols, `names
      ensures Valid() && Tab() == WithLocal(old(Tab()), name) && slot == IndexOf(names, name) && name in names
    {
      if name in store { return store[name]; }
      slot := maxSymbols;
      IndexAfter(names, name);
      names := names + [name];
      store := store[name := slot];
      maxSymbols := maxSymbols + 1;
    }

    // -------------------------------------------------------------- expressions

    /** Compile appends exactly the generated code of the node. */
    method CompileExpr(e: Expr)
      requires Valid()
      modifies this
      ensures Valid()
      ensures instructions == Append(old(instructions), GenExpr(e, |old(instructions)|, old(Tab())).code)
      ensures Tab() == GenExpr(e, |old(instructions)|, old(Tab())).tables
      decreases e, 3
    {
      hide Append;
      match e
      case Int(v) =>
        var index := AddConstant(v);
        EmitLast(Constant(index));
      case True => EmitLast(PushTrue);
      case False => EmitLast(PushFalse);
      case Nil => EmitLast(PushNil);
      case Var(name) => CompileVariable(name);
      case _ => CompileNode(e);
    }

    method EmitLast(i: Instr)
      modifies `instructions
      ensures instructions == Append(old(instructions), Last(i))
    {
      AppendLast(instructions, i);
      var _ := Emit(i);
    }

    /** Programs that read only assigned names never reach the second branch: any other name compiles to a method call,
        which is not part of this model. */
    method CompileVariable(name: string)
      requires Valid()
      modifies `instructions
      ensures instructions == Append(old(instructions), Last(GetLocal(IndexOf(names, name))))
    {
      if name in store {
        EmitLast(GetLocal(store[name]));
      } else {
        EmitLast(GetLocal(maxSymbols));
      }
    }

    method CompileNode(e: Expr)
      requires Valid() && IsNode(e)
      modifies this
      ensures Valid()
      ensures instructions == Append(old(instructions), GenNode(e, |old(instructions)|, old(Tab())).code)
      ensures Tab() == GenNode(e, |old(instructions)|, old(Tab())).tables
      decreases e, 2
    {
      hide Append;
      if IsOperator(e) { CompileOperator(e); } else if IsStore(e) { CompileStore(e); } else { CompileControl(e); }
    }

    method CompileOperator(e: Expr)
      requires Valid() && IsOperator(e)
      modifies this
      ensures Valid()
      ensures instructions == Append(old(instructions), GenOperator(e, |old(instructions)|, old(Tab())).code)
      ensures Tab() == GenOperator(e, |old(instructions)|, old(Tab())).tables
      decreases e, 1
    {
      hide Append;
      match e
      case Infix(_, _, _) => CompileInfix(e);
      case And(_, _) => CompileLogical(e);
      case Or(_, _) => CompileLogical(e);
      case Not(_) => CompileUnary(e);
      case Minus(_) => CompileUnary(e);
    }

    method CompileStore(e: Expr)
      requires Valid() && IsStore(e)
      modifies this
      ensures Valid()
      ensures instructions == Append(old(instructions), GenStore(e, |old(instructions)|, old(Tab())).code)
      ensures Tab() == GenStore(e, |old(instructions)|, old(Tab())).tables
      decreases e, 1
    {
      hide Append;
      match e
      case Assign(_, _) => CompileAssign(e);
      case OpAssign(_, _, _) => CompileOpAssign(e);
      case LogicalAssign(_, _, _) => CompileLogicalAssign(e);
    }

    method CompileControl(e: Expr)
      requires Valid() && IsNode(e) && !IsOperator(e) && !IsStore(e)
      modifies this
      ensures Valid()
      ensures instructions == Append(old(instructions), GenControl(e, |old(instructions)|, old(Tab())).code)
      ensures Tab() == GenControl(e, |old(instructions)|, old(Tab())).tables
      decreases e, 1
    {
      hide Append;
      match e
      case Ternary(_, _, _) => CompileTernary(e);
      case If(_, _, _, _) => CompileIf(e);
      case While(_, _) => CompileWhile(e);
    }

    method CompileInfix(e: Expr)
      requires Valid() && e.Infix?
      modifies this
      ensures Valid()
      ensures instructions == Append(old(instructions), GenInfix(e, |old(instructions)|, old(Tab())).code)
      ensures Tab() == GenInfix(e, |old(instructions)|, old(Tab())).tables
      decreases e, 0
    {
      hide Append, GenExpr, Valid;
      ghost var start, x := instructions, GenExpr(e.left, |instructions|, Tab());
      CompileExpr(e.left);
      ghost var y := GenExpr(e.right, |instructions|, Tab());
      CompileExpr(e.right);
      EmitLast(Binary(e.op));
      AppendCat(Append(start, x.code), y.code, Last(Binary(e.op)));
      AppendCat(start, x.code, Cat(y.code, Last(Binary(e.op))));
    }

    method CompileUnary(e: Expr)
      requires Valid() && (e.Not? || e.Minus?)
      modifies this
      ensures Valid()
      ensures instructions == Append(old(instructions), GenUnary(e, |old(instructions)|, old(Tab())).code)
      ensures Tab() == GenUnary(e, |old(instructions)|, old(Tab())).tables
      decreases e, 0
    {
      hide Append, GenExpr, Valid;
      ghost var start, x := instructions, GenExpr(e.operand, |instructions|, Tab());
      CompileExpr(e.operand);
      EmitLast(if e.Not? then Bang else Negate);
      AppendCat(start, x.code, Last(if e.Not? then Bang else Negate));
    }

    /** Duplicate the value, jump over the second operand, pop, and patch the jump when the operand's end is known. */
    method CompileLogical(e: Expr)
      requires Valid() && (e.And? || e.Or?)
      modifies this
      ensures Valid()
      ensures instructions == Append(old(instructions), GenLogical(e, |old(instructions)|, old(Tab())).code)
      ensures Tab() == GenLogical(e, |old(instructions)|, old(Tab())).tables
      decreases e, 0
    {
      hide Append, GenExpr, Patch, Valid;
      ghost var start, x := instructions, GenExpr(e.left, |instructions|, Tab());
      CompileExpr(e.left);
      var _ := Emit(Dup);
      ghost var before := instructions;
      var jumpPos := Emit(BranchOp(e.Or?, PLACEHOLDER));
      var _ := Emit(Pop);
      ghost var y := GenExpr(e.right, |instructions|, Tab());
      CompileExpr(e.right);
      ghost var end := |instructions|;
      AppendCat(Append(before, One(BranchOp(e.Or?, PLACEHOLDER))), One(Pop), y.code);
      PatchJump(before, BranchOp(e.Or?, PLACEHOLDER), BranchOp(e.Or?, end), Bytecode.Emit(Pop, y.code));
      ChangeOperand(jumpPos, |instructions|);
      AppendLogical(start, x.code, e.Or?, end, y.code);
    }

    // -------------------------------------------------------------- assignments

    /** The right-hand side, then the store, which keeps the value on the stack. */
    method CompileAndStore(value: Expr, name: string)
      requires Valid() && name in names
      modifies this
      ensures Valid()
      ensures var x := GenExpr(value, |old(instructions)|, old(Tab()));
              && instructions == Append(Append(old(instructions), x.code), One(SetLocal(IndexOf(x.tables.names, name))))
              && Tab() == x.tables
      decreases value, 5
    {
      hide Append, GenExpr, Valid, IndexOf, WithLocal;
      CompileOperand(value, name);
      var slot := ResolveOrDefine(name);
      var _ := Emit(SetLocal(slot));
    }

    /** The right-hand side, while the target stays defined. */
    method CompileOperand(value: Expr, name: string)
      requires Valid() && name in names
      modifies this
      ensures Valid() && name in names && WithLocal(Tab(), name) == Tab()
      ensures instructions == Append(old(instructions), GenExpr(value, |old(instructions)|, old(Tab())).code)
      ensures Tab() == GenExpr(value, |old(instructions)|, old(Tab())).tables
      decreases value, 4
    {
      hide Append, GenExpr, Valid;
      DefinedStays(value, |instructions|, Tab(), name);
      CompileExpr(value);
    }

    method CompileAssign(e: Expr)
      requires Valid() && e.Assign?
      modifies this
      ensures Valid()
      ensures instructions == Append(old(instructions), GenAssign(e, |old(instructions)|, old(Tab())).code)
      ensures Tab() == GenAssign(e, |old(instructions)|, old(Tab())).tables
      decreases e, 0
    {
      hide Append, GenExpr, IndexOf, WithLocal, Valid;
      var _ := ResolveOrDefine(e.name);
      ghost var start, x := instructions, GenExpr(e.value, |instructions|, Tab());
      CompileAndStore(e.value, e.name);
      ghost var store := SetLocal(IndexOf(x.tables.names, e.name));
      AppendLast(Append(start, x.code), store);
      AppendCat(start, x.code, Last(store));
    }

    /** The current value, the operand, the operator, the store. */
    method CompileOpAssign(e: Expr)
      requires Valid() && e.OpAssign?
      modifies this
      ensures Valid()
      ensures instructions == Append(old(instructions), GenOpAssign(e, |old(instructions)|, old(Tab())).code)
      ensures Tab() == GenOpAssign(e, |old(instructions)|, old(Tab())).tables
      decreases e, 0
    {
      hide Append, GenExpr, IndexOf, WithLocal, Valid;
      ghost var start := instructions;
      var slot := ResolveOrDefine(e.name);
      ghost var k := slot;
      var _ := Emit(GetLocal(slot));
      ghost var x := GenExpr(e.value, |instructions|, Tab());
      CompileOperand(e.value, e.name);
      var _ := Emit(Binary(e.op));
      slot := ResolveOrDefine(e.name);
      EmitLast(SetLocal(slot));
      AppendOpAssign(start, GetLocal(k), x.code, Binary(e.op), SetLocal(slot));
    }

    /** The current value, duplicated and tested; the jump is to be patched. */
    method OpenLogicalAssign(name: string, isOr: bool) returns (skip: nat)
      requires Valid()
      modifies this
      ensures Valid() && Tab() == WithLocal(old(Tab()), name) && name in names
      ensures var load := Append(Append(old(instructions), One(GetLocal(IndexOf(names, name)))), One(Dup));
              && instructions == Append(Append(load, One(BranchOp(isOr, PLACEHOLDER))), One(Pop)) && skip == |load|
    {
      hide Append, Valid, IndexOf, WithLocal;
      var slot := ResolveOrDefine(name);
      var _ := Emit(GetLocal(slot));
      var _ := Emit(Dup);
      skip := Emit(BranchOp(isOr, PLACEHOLDER));
      var _ := Emit(Pop);
    }

    /** The jump after the store, and both placeholders patched to what follows. */
    method CloseLogicalAssign(skip: nat, ghost before: seq<byte>, ghost isOr: bool, ghost x: Code, ghost slot: nat)
      requires skip == |before|
      requires instructions == Append(Append(Append(Append(before, One(BranchOp(isOr, PLACEHOLDER))), One(Pop)), x), One(SetLocal(slot)))
      modifies `instructions
      ensures |instructions| == |old(instructions)| + 3
      ensures var end := |instructions|;
              instructions == Append(Append(Append(Append(Append(before, One(BranchOp(isOr, end))), One(Pop)), x), One(SetLocal(slot))), One(Jump(end)))
    {
      hide Append, Patch;
      var jumpEnd := Emit(Jump(PLACEHOLDER));
      PatchTwice(before, isOr, x, slot, |instructions|);
      ChangeOperand(skip, |instructions|);
      ChangeOperand(jumpEnd, |instructions|);
    }

    /** Like a logical operator, with the store and a second jump to the same place after the operand. */
    method CompileLogicalAssign(e: Expr)
      requires Valid() && e.LogicalAssign?
      modifies this
      ensures Valid()
      ensures instructions == Append(old(instructions), GenLogicalAssign(e, |old(instructions)|, old(Tab())).code)
      ensures Tab() == GenLogicalAssign(e, |old(instructions)|, old(Tab())).tables
      decreases e, 0
    {
      hide Append, GenExpr, IndexOf, WithLocal, Patch, Valid;
      ghost var start := instructions;
      var skip := OpenLogicalAssign(e.name, e.isOr);
      ghost var k := IndexOf(names, e.name);
      ghost var before := Append(Append(start, One(GetLocal(k))), One(Dup));
      ghost var x := GenExpr(e.value, |instructions|, Tab());
      CompileAndStore(e.value, e.name);
      ghost var last := IndexOf(x.tables.names, e.name);
      CloseLogicalAssign(skip, before, e.isOr, x.code, last);
      AppendLogicalAssign(start, k, e.isOr, |instructions|, x.code, last);
    }

    // -------------------------------------------------------------- control flow

    /** Compile the condition and leave a jump to be patched. */
    method CompileTest(cond: Expr, onTrue: bool) returns (pos: nat)
      requires Valid()
      modifies this
      ensures Valid()
      ensures var x := GenExpr(cond, |old(instructions)|, old(Tab()));
              && instructions == Append(Append(old(instructions), x.code), One(BranchOp(onTrue, PLACEHOLDER)))
              && Tab() == x.tables && pos == |old(instructions)| + Size(x.code)
      decreases cond, 4
    {
      hide Append, GenExpr;
      CompileExpr(cond);
      pos := Emit(BranchOp(onTrue, PLACEHOLDER));
    }

    /** Close an arm: a jump to be patched later, and the test's jump patched to what follows. */
    method CloseArm(testPos: nat, onTrue: bool, ghost before: seq<byte>, ghost body: Code) returns (jumpPos: nat)
      requires testPos == |before| && instructions == Append(Append(before, One(BranchOp(onTrue, PLACEHOLDER))), body)
      modifies `instructions
      ensures jumpPos == |before| + 3 + Size(body) && |instructions| == |before| + 6 + Size(body)
      ensures instructions == Append(Append(Append(before, One(BranchOp(onTrue, |instructions|))), body), One(Jump(PLACEHOLDER)))
    {
      hide Append, Patch;
      jumpPos := Emit(Jump(PLACEHOLDER));
      ghost var end := |instructions|;
      AppendCat(Append(before, One(BranchOp(onTrue, PLACEHOLDER))), body, One(Jump(PLACEHOLDER)));
      AppendCat(Append(before, One(BranchOp(onTrue, end))), body, One(Jump(PLACEHOLDER)));
      PatchJump(before, BranchOp(onTrue, PLACEHOLDER), BranchOp(onTrue, end), Cat(body, One(Jump(PLACEHOLDER))));
      ChangeOperand(testPos, |instructions|);
    }

    method CompileTernary(e: Expr)
      requires Valid() && e.Ternary?
      modifies this
      ensures Valid()
      ensures instructions == Append(old(instructions), GenTernary(e, |old(instructions)|, old(Tab())).code)
      ensures Tab() == GenTernary(e, |old(instructions)|, old(Tab())).tables
      decreases e, 0
    {
      hide Append, GenExpr, Patch, Valid;
      ghost var start, x := instructions, GenExpr(e.cond, |instructions|, Tab());
      var testPos := CompileTest(e.cond, false);
      ghost var y := GenExpr(e.thn, |instructions|, Tab());
      CompileExpr(e.thn);
      var jumpPos := CloseArm(testPos, false, Append(start, x.code), y.code);
      ghost var q := |instructions|;
      ghost var before := Append(Append(Append(start, x.code), One(BranchOp(false, q))), y.code);
      ghost var z := GenExpr(e.els, q, Tab());
      CompileExpr(e.els);
      PatchJump(before, Jump(PLACEHOLDER), Jump(|instructions|), z.code);
      ChangeOperand(jumpPos, |instructions|);
      AppendBranch(start, x.code, false, q, y.code, |instructions|, z.code);
    }

    method CompileIf(e: Expr)
      requires Valid() && e.If?
      modifies this
      ensures Valid()
      ensures instructions == Append(old(instructions), GenIf(e, |old(instructions)|, old(Tab())).code)
      ensures Tab() == GenIf(e, |old(instructions)|, old(Tab())).tables
      decreases e, 0
    {
      hide Append, GenExpr, GenValue, GenChain, Patch, Valid;
      ghost var start, x := instructions, GenExpr(e.cond, |instructions|, Tab());
      var testPos := CompileTest(e.cond, e.unless);
      ghost var y := GenValue(e.body, |instructions|, Tab());
      CompileValue(e.body);
      var jumpPos := CloseArm(testPos, e.unless, Append(start, x.code), y.code);
      ghost var q := |instructions|;
      CompileRest(e.rest, jumpPos, Append(Append(Append(start, x.code), One(BranchOp(e.unless, q))), y.code));
      ghost var end := |instructions|;
      ChainTarget(e.rest, q, y.tables, 0, end);
      AppendBranch(start, x.code, e.unless, q, y.code, end, GenChain(e.rest, q, y.tables, end).code);
    }

    /** After the first branch: nothing, or elsif branches and an else; every jump to the end is patched last. */
    method CompileRest(rest: Chain, jumpPos: nat, ghost before: seq<byte>)
      requires Valid() && jumpPos == |before| && instructions == Append(before, One(Jump(PLACEHOLDER)))
      modifies this
      ensures Valid()
      ensures var z := GenChain(rest, |old(instructions)|, old(Tab()), |instructions|);
              && instructions == Append(Append(before, One(Jump(|instructions|))), z.code)
              && Tab() == z.tables && |instructions| == |old(instructions)| + Size(z.code)
      decreases rest, 3
    {
      hide Append, GenValue, Patch, PatchAll, Valid;
      ghost var q, t := |instructions|, Tab();
      if rest.NoElse? {
        // without elsif or else the value of a failed test is nil
        EmitLast(PushNil);
        PatchJump(before, Jump(PLACEHOLDER), Jump(|instructions|), Last(PushNil));
        ChangeOperand(jumpPos, |instructions|);
      } else {
        var exits := CompileBranches(rest);
        PatchIf(before, rest, t, |instructions|);
        PatchExits([jumpPos] + exits, |instructions|);
        ChainTarget(rest, q, t, PLACEHOLDER, |instructions|);
      }
    }

    /** The elsif branches and the else branch; each taken branch leaves a jump to be patched. */
    method CompileBranches(rest: Chain) returns (exits: seq<nat>)
      requires Valid()
      modifies this
      ensures Valid()
      ensures instructions == Append(old(instructions), GenChain(rest, |old(instructions)|, old(Tab()), PLACEHOLDER).code)
      ensures Tab() == GenChain(rest, |old(instructions)|, old(Tab()), PLACEHOLDER).tables
      ensures exits == Exits(rest, |old(instructions)|, old(Tab()))
      decreases rest, 2
    {
      hide Append, GenValue, Valid;
      var c := rest;
      exits := [];
      ghost var whole := GenChain(rest, |instructions|, Tab(), PLACEHOLDER);
      ghost var all := Exits(rest, |instructions|, Tab());
      ghost var goal := Append(instructions, whole.code);
      while c.ElsIf?
        invariant Valid() && (c == rest || c < rest)
        invariant Append(instructions, GenChain(c, |instructions|, Tab(), PLACEHOLDER).code) == goal
        invariant GenChain(c, |instructions|, Tab(), PLACEHOLDER).tables == whole.tables
        invariant exits + Exits(c, |instructions|, Tab()) == all
        decreases c
      {
        var jumpPos := CompileElsIf(c);
        assert exits + ([jumpPos] + Exits(c.rest, |instructions|, Tab())) == exits + [jumpPos] + Exits(c.rest, |instructions|, Tab());
        exits := exits + [jumpPos];
        c := c.rest;
      }
      if c.Else? { CompileValue(c.body); } else { EmitLast(PushNil); }
    }

    /** One elsif branch. */
    method CompileElsIf(c: Chain) returns (jumpPos: nat)
      requires Valid() && c.ElsIf?
      modifies this
      ensures Valid()
      ensures Append(instructions, GenChain(c.rest, |instructions|, Tab(), PLACEHOLDER).code)
              == Append(old(instructions), GenChain(c, |old(instructions)|, old(Tab()), PLACEHOLDER).code)
      ensures GenChain(c.rest, |instructions|, Tab(), PLACEHOLDER).tables == GenChain(c, |old(instructions)|, old(Tab()), PLACEHOLDER).tables
      ensures Exits(c, |old(instructions)|, old(Tab())) == [jumpPos] + Exits(c.rest, |instructions|, Tab())
      decreases c, 0
    {
      hide Append, GenExpr, GenValue, GenChain, Exits, Valid;
      ghost var start, t := instructions, Tab();
      AppendElsIf(start, c, t, PLACEHOLDER);
      ghost var x := GenExpr(c.cond, |start|, t);
      var testPos := CompileTest(c.cond, false);
      ghost var y := GenValue(c.body, |instructions|, Tab());
      CompileValue(c.body);
      jumpPos := CloseArm(testPos, false, Append(start, x.code), y.code);
    }

    method PatchExits(positions: seq<nat>, target: nat)
      requires InCode(positions, instructions)
      modifies `instructions
      ensures instructions == PatchAll(old(instructions), positions, target) && |instructions| == |old(instructions)|
    {
      for k := 0 to |positions|
        invariant |instructions| == |old(instructions)|
        invariant PatchAll(instructions, positions[k..], target) == PatchAll(old(instructions), positions, target)
      {
        ghost var rest := positions[k..];
        ChangeOperand(positions[k], target);
        assert rest[0] == positions[k] && rest[1..] == positions[k + 1..];
      }
      assert positions[|positions|..] == [];
    }

    method CompileWhile(e: Expr)
      requires Valid() && e.While?
      modifies this
      ensures Valid()
      ensures instructions == Append(old(instructions), GenWhile(e, |old(instructions)|, old(Tab())).code)
      ensures Tab() == GenWhile(e, |old(instructions)|, old(Tab())).tables
      decreases e, 0
    {
      hide Append, GenExpr, GenBlock, Patch, Valid;
      ghost var start, x := instructions, GenExpr(e.cond, |instructions|, Tab());
      var loopStart := |instructions|;
      var testPos := CompileTest(e.cond, false);
      var endPos := Emit(SetWhileEnd(0));
      ghost var y := GenBlock(e.body, |instructions|, Tab());
      CompileBlock(e.body);
      var _ := Emit(Jump(loopStart));
      var afterBody := |instructions|;
      PatchLoop(Append(start, x.code), y.code, loopStart, afterBody);
      ChangeOperand(testPos, afterBody);
      ChangeOperand(endPos, afterBody);
      EmitLast(PushNil);
      AppendLoop(start, x.code, afterBody, y.code, loopStart);
    }

    // -------------------------------------------------------------- statements

    /** An expression whose value is popped. */
    method CompileStatement(e: Expr)
      requires Valid()
      modifies this
      ensures Valid()
      ensures var x := GenExpr(e, |old(instructions)|, old(Tab()));
              instructions == Append(Append(old(instructions), x.code), One(Pop)) && Tab() == x.tables
      decreases e, 4
    {
      hide Append, GenExpr, Valid;
      CompileExpr(e);
      var _ := Emit(Pop);
    }

    /** Expression statements, each followed by a pop. */
    method CompileBlock(block: Block)
      requires Valid()
      modifies this
      ensures Valid()
      ensures instructions == Append(old(instructions), GenBlock(block, |old(instructions)|, old(Tab())).code)
      ensures Tab() == GenBlock(block, |old(instructions)|, old(Tab())).tables
      decreases block
    {
      var b := block;
      ghost var whole := GenBlock(block, |instructions|, Tab());
      ghost var goal := Append(instructions, whole.code);
      while b.Stmt?
        invariant Valid() && (b == block || b < block)
        invariant Append(instructions, GenBlock(b, |instructions|, Tab()).code) == goal
        invariant GenBlock(b, |instructions|, Tab()).tables == whole.tables
        decreases b
      {
        hide Append, Valid, GenExpr, GenBlock;
        BlockStep(b, instructions, Tab());
        CompileStatement(b.first);
        b := b.rest;
      }
    }

    /** compileBlockAsValue: the last statement keeps its value, an empty block is nil. */
    method CompileValue(block: Block)
      requires Valid()
      modifies this
      ensures Valid()
      ensures instructions == Append(old(instructions), GenValue(block, |old(instructions)|, old(Tab())).code)
      ensures Tab() == GenValue(block, |old(instructions)|, old(Tab())).tables
      decreases block
    {
      if block.Empty? {
        EmitLast(PushNil);
        return;
      }
      var b := block;
      ghost var whole := GenValue(block, |instructions|, Tab());
      ghost var goal := Append(instructions, whole.code);
      while b.rest.Stmt?
        invariant Valid() && (b == block || b < block) && b.Stmt?
        invariant Append(instructions, GenValue(b, |instructions|, Tab()).code) == goal
        invariant GenValue(b, |instructions|, Tab()).tables == whole.tables
        decreases b
      {
        hide Append, Valid, GenExpr, GenValue;
        ValueStep(b, instructions, Tab());
        CompileStatement(b.first);
        b := b.rest;
      }
      CompileExpr(b.first);
    }
  }

  /** The first statement of a block compiled, the rest still to come. */
  lemma {:induction false} BlockStep(b: Block, start: seq<byte>, t: Tables)
    requires b.Stmt?
    ensures var x := GenExpr(b.first, |start|, t);
            var next := Append(Append(start, x.code), One(Pop));
            var rest, whole := GenBlock(b.rest, |next|, x.tables), GenBlock(b, |start|, t);
            Append(next, rest.code) == Append(start, whole.code) && rest.tables == whole.tables
  {
    hide GenExpr, Size;
    var x := GenExpr(b.first, |start|, t);
    assert GenBlock(b, |start|, t) == GenStatement(b, |start|, t);
    AppendStatement(start, x.code, GenBlock(b.rest, |Append(Append(start, x.code), One(Pop))|, x.tables).code);
  }

  /** The same for a block whose last value is kept. */
  lemma {:induction false} ValueStep(b: Block, start: seq<byte>, t: Tables)
    requires b.Stmt? && b.rest.Stmt?
    ensures var x := GenExpr(b.first, |start|, t);
            var next := Append(Append(start, x.code), One(Pop));
            var rest, whole := GenValue(b.rest, |next|, x.tables), GenValue(b, |start|, t);
            Append(next, rest.code) == Append(start, whole.code) && rest.tables == whole.tables
  {
    hide GenExpr, Size;
    var x := GenExpr(b.first, |start|, t);
    assert GenValue(b, |start|, t) == GenValueStatement(b, |start|, t);
    AppendStatement(start, x.code, GenValue(b.rest, |Append(Append(start, x.code), One(Pop))|, x.tables).code);
  }

  /** Appending a new entry leaves every index, and the entry's own index is the old length. */
  lemma {:induction false} IndexAfter<T>(s: seq<T>, x: T)
    requires x !in s
    ensures IndexOf(s + [x], x) == |s|
    ensures forall y :: y in s ==> IndexOf(s + [x], y) == IndexOf(s, y)
  {
    if s != [] {
      IndexAfter(s[1..], x);
      assert (s + [x])[1..] == s[1..] + [x];
    } else {
      assert ([] + [x]) == [x];
    }
  }

  /** A defined name stays defined while an expression is compiled. */
  lemma {:induction false} DefinedStays(e: Expr, base: nat, t: Tables, name: string)
    requires name in t.names
    ensures var u := GenExpr(e, base, t).tables; name in u.names && WithLocal(u, name) == u
  {
    GenGrows(e, base, t);
    var i, u := IndexOf(t.names, name), GenExpr(e, base, t).tables;
    assert u.names[i] == name;
  }
}
