/** Appending code and patching it afterwards: jumps emitted with a placeholder become the jumps that were meant, alone,
    in pairs, and in the chains of elsif. */
module Patching {
  import opened Bytecode
  import opened CodeGen

  const PLACEHOLDER: nat := 9999

  function Append(before: seq<byte>, c: Code): (r: seq<byte>)
    ensures |r| == |before| + Size(c)
  {
    before + Flatten(c)
  }

  lemma {:induction false} AppendCat(before: seq<byte>, x: Code, y: Code)
    ensures Append(before, Cat(x, y)) == Append(Append(before, x), y)
  {
  }

  lemma {:induction false} AppendLast(before: seq<byte>, i: Instr)
    ensures Append(before, Last(i)) == Append(before, One(i))
  {
    assert Flatten(Last(i)) == Encode(i);
  }

  /** Overwrite the two operand bytes of the instruction at pos. */
  function Patch(code: seq<byte>, pos: nat, target: nat): (r: seq<byte>)
    requires pos + 2 < |code|
    ensures |r| == |code|
  {
    code[pos + 1 := (target / 256) % 256][pos + 2 := target % 256]
  }

  /** A patched placeholder is the instruction emitted with its final target. */
  lemma {:induction false} PatchJump(before: seq<byte>, i: Instr, j: Instr, after: Code)
    requires OperandWidth(i) == 2 && OpCode(i) == OpCode(j) && OperandWidth(j) == 2
    ensures |before| + 2 < |Append(Append(before, One(i)), after)|
    ensures Patch(Append(Append(before, One(i)), after), |before|, Operand(j)) == Append(Append(before, One(j)), after)
  {
    var code := before + Encode(i) + Flatten(after);
    var t := Operand(j);
    assert Encode(j) == [OpCode(j), (t / 256) % 256, t % 256];
    assert Encode(i) == [OpCode(i), (Operand(i) / 256) % 256, Operand(i) % 256];
    assert Patch(code, |before|, t) == before + Encode(j) + Flatten(after);
  }

  /** The last instruction is a jump. */
  lemma {:induction false} PatchLastJump(before: seq<byte>, i: Instr, j: Instr)
    requires OperandWidth(i) == 2 && OpCode(i) == OpCode(j) && OperandWidth(j) == 2
    ensures |before| + 2 < |Append(before, One(i))|
    ensures Patch(Append(before, One(i)), |before|, Operand(j)) == Append(before, One(j))
  {
    PatchJump(before, i, j, Nop);
    assert Append(Append(before, One(i)), Nop) == Append(before, One(i));
    assert Append(Append(before, One(j)), Nop) == Append(before, One(j));
  }

  // ---------------------------------------------------------------- the emission patterns, appended piece by piece

  lemma {:induction false} AppendLogical(start: seq<byte>, x: Code, onTrue: bool, end: nat, y: Code)
    ensures Append(start, Cat(x, ShortCircuit(onTrue, end, y)))
            == Append(Append(Append(Append(start, x), One(Dup)), One(BranchOp(onTrue, end))), Emit(Pop, y))
  {
    hide Append;
    AppendCat(start, x, ShortCircuit(onTrue, end, y));
    AppendCat(Append(start, x), One(Dup), Emit(BranchOp(onTrue, end), Emit(Pop, y)));
    AppendCat(Append(Append(start, x), One(Dup)), One(BranchOp(onTrue, end)), Emit(Pop, y));
  }

  lemma {:induction false} AppendOpAssign(start: seq<byte>, load: Instr, x: Code, op: Instr, store: Instr)
    ensures Append(start, Emit(load, Cat(x, Emit(op, Last(store)))))
            == Append(Append(Append(Append(start, One(load)), x), One(op)), Last(store))
  {
    hide Append;
    AppendCat(start, One(load), Cat(x, Emit(op, Last(store))));
    AppendCat(Append(start, One(load)), x, Emit(op, Last(store)));
    AppendCat(Append(Append(start, One(load)), x), One(op), Last(store));
  }

  lemma {:induction false} AppendLogicalAssign(start: seq<byte>, k: nat, isOr: bool, end: nat, x: Code, slot: nat)
    ensures Append(start, Emit(GetLocal(k), ShortCircuit(isOr, end, Cat(x, Emit(SetLocal(slot), Last(Jump(end)))))))
            == Append(Append(Append(Append(Append(Append(Append(start, One(GetLocal(k))), One(Dup)), One(BranchOp(isOr, end))),
                 One(Pop)), x), One(SetLocal(slot))), One(Jump(end)))
  {
    hide Append;
    var y := Cat(x, Emit(SetLocal(slot), Last(Jump(end))));
    var s1 := Append(start, One(GetLocal(k)));
    var s2 := Append(s1, One(Dup));
    var s3 := Append(s2, One(BranchOp(isOr, end)));
    var s4 := Append(s3, One(Pop));
    AppendCat(start, One(GetLocal(k)), ShortCircuit(isOr, end, y));
    AppendCat(s1, One(Dup), Emit(BranchOp(isOr, end), Emit(Pop, y)));
    AppendCat(s2, One(BranchOp(isOr, end)), Emit(Pop, y));
    AppendCat(s3, One(Pop), y);
    AppendCat(s4, x, Emit(SetLocal(slot), Last(Jump(end))));
    AppendCat(Append(s4, x), One(SetLocal(slot)), Last(Jump(end)));
    AppendLast(Append(Append(s4, x), One(SetLocal(slot))), Jump(end));
  }

  /** The two jumps of a logical assignment, patched one after the other. */
  lemma {:induction false} PatchTwice(before: seq<byte>, isOr: bool, x: Code, slot: nat, end: nat)
    ensures var skip := Append(before, One(BranchOp(isOr, PLACEHOLDER)));
            var code := Append(Append(Append(Append(skip, One(Pop)), x), One(SetLocal(slot))), One(Jump(PLACEHOLDER)));
            var store := Append(Append(Append(Append(before, One(BranchOp(isOr, end))), One(Pop)), x), One(SetLocal(slot)));
            && |before| + 2 < |code| && |store| + 2 < |code|
            && Patch(Patch(code, |before|, end), |store|, end) == Append(store, One(Jump(end)))
  {
    hide Append, Patch;
    var tail := Cat(One(Pop), Cat(x, Cat(One(SetLocal(slot)), One(Jump(PLACEHOLDER)))));
    TailTwice(Append(before, One(BranchOp(isOr, PLACEHOLDER))), x, slot);
    TailTwice(Append(before, One(BranchOp(isOr, end))), x, slot);
    PatchJump(before, BranchOp(isOr, PLACEHOLDER), BranchOp(isOr, end), tail);
    PatchLastJump(Append(Append(Append(Append(before, One(BranchOp(isOr, end))), One(Pop)), x), One(SetLocal(slot))),
                  Jump(PLACEHOLDER), Jump(end));
  }

  lemma {:induction false} TailTwice(skip: seq<byte>, x: Code, slot: nat)
    ensures Append(skip, Cat(One(Pop), Cat(x, Cat(One(SetLocal(slot)), One(Jump(PLACEHOLDER))))))
            == Append(Append(Append(Append(skip, One(Pop)), x), One(SetLocal(slot))), One(Jump(PLACEHOLDER)))
  {
    hide Append;
    var last := Cat(One(SetLocal(slot)), One(Jump(PLACEHOLDER)));
    AppendCat(skip, One(Pop), Cat(x, last));
    AppendCat(Append(skip, One(Pop)), x, last);
    AppendCat(Append(Append(skip, One(Pop)), x), One(SetLocal(slot)), One(Jump(PLACEHOLDER)));
  }

  lemma {:induction false} AppendBranch(start: seq<byte>, x: Code, onTrue: bool, q: nat, y: Code, end: nat, z: Code)
    ensures Append(start, Cat(x, Branch(onTrue, q, y, end, z)))
            == Append(Append(Append(Append(Append(start, x), One(BranchOp(onTrue, q))), y), One(Jump(end))), z)
  {
    hide Append;
    AppendCat(start, x, Branch(onTrue, q, y, end, z));
    AppendCat(Append(start, x), One(BranchOp(onTrue, q)), Cat(y, Emit(Jump(end), z)));
    AppendCat(Append(Append(start, x), One(BranchOp(onTrue, q))), y, Emit(Jump(end), z));
    AppendCat(Append(Append(Append(start, x), One(BranchOp(onTrue, q))), y), One(Jump(end)), z);
  }

  lemma {:induction false} AppendLoop(start: seq<byte>, x: Code, exit: nat, y: Code, back: nat)
    ensures Append(start, Cat(x, Loop(exit, y, back)))
            == Append(Append(Append(Append(Append(Append(start, x), One(JumpNotTruthy(exit))), One(SetWhileEnd(exit))), y),
                 One(Jump(back))), Last(PushNil))
  {
    hide Append;
    var tail := Emit(Jump(back), Last(PushNil));
    var s1 := Append(start, x);
    var s2 := Append(s1, One(JumpNotTruthy(exit)));
    var s3 := Append(s2, One(SetWhileEnd(exit)));
    AppendCat(start, x, Loop(exit, y, back));
    AppendCat(s1, One(JumpNotTruthy(exit)), Emit(SetWhileEnd(exit), Cat(y, tail)));
    AppendCat(s2, One(SetWhileEnd(exit)), Cat(y, tail));
    AppendCat(s3, y, tail);
    AppendCat(Append(s3, y), One(Jump(back)), Last(PushNil));
  }

  /** The test's jump and the loop-end marker, patched one after the other. */
  lemma {:induction false} PatchLoop(before: seq<byte>, y: Code, back: nat, exit: nat)
    ensures var test := Append(before, One(JumpNotTruthy(PLACEHOLDER)));
            var code := Append(Append(Append(test, One(SetWhileEnd(0))), y), One(Jump(back)));
            && |before| + 2 < |code| && |before| + 5 < |code|
            && Patch(Patch(code, |before|, exit), |before| + 3, exit)
               == Append(Append(Append(Append(before, One(JumpNotTruthy(exit))), One(SetWhileEnd(exit))), y), One(Jump(back)))
  {
    hide Append, Patch;
    LoopTail(Append(before, One(JumpNotTruthy(PLACEHOLDER))), 0, y, back);
    LoopTail(Append(before, One(JumpNotTruthy(exit))), 0, y, back);
    PatchJump(before, JumpNotTruthy(PLACEHOLDER), JumpNotTruthy(exit), Cat(One(SetWhileEnd(0)), Cat(y, One(Jump(back)))));
    var test := Append(before, One(JumpNotTruthy(exit)));
    AppendCat(Append(test, One(SetWhileEnd(0))), y, One(Jump(back)));
    AppendCat(Append(test, One(SetWhileEnd(exit))), y, One(Jump(back)));
    PatchJump(test, SetWhileEnd(0), SetWhileEnd(exit), Cat(y, One(Jump(back))));
  }

  lemma {:induction false} LoopTail(test: seq<byte>, end: nat, y: Code, back: nat)
    ensures Append(test, Cat(One(SetWhileEnd(end)), Cat(y, One(Jump(back)))))
            == Append(Append(Append(test, One(SetWhileEnd(end))), y), One(Jump(back)))
  {
    hide Append;
    AppendCat(test, One(SetWhileEnd(end)), Cat(y, One(Jump(back))));
    AppendCat(Append(test, One(SetWhileEnd(end))), y, One(Jump(back)));
  }

  lemma {:induction false} AppendStatement(start: seq<byte>, x: Code, y: Code)
    ensures Append(start, Cat(x, Emit(Pop, y))) == Append(Append(Append(start, x), One(Pop)), y)
  {
    hide Append;
    AppendCat(start, x, Emit(Pop, y));
    AppendCat(Append(start, x), One(Pop), y);
  }

  // ---------------------------------------------------------------- patching a list of jumps

  ghost predicate InCode(positions: seq<nat>, code: seq<byte>) {
    forall k :: 0 <= k < |positions| ==> positions[k] + 2 < |code|
  }

  function PatchAll(code: seq<byte>, positions: seq<nat>, target: nat): seq<byte>
    requires InCode(positions, code)
    decreases |positions|
  {
    if positions == [] then code else PatchAll(Patch(code, positions[0], target), positions[1..], target)
  }

  /** The positions of the jumps that close the elsif branches. */
  function Exits(c: Chain, base: nat, t: Tables): seq<nat>
    decreases c, 1
  {
    if c.ElsIf? then ExitsElsIf(c, base, t) else []
  }

  function ExitsElsIf(c: Chain, base: nat, t: Tables): seq<nat>
    requires c.ElsIf?
    decreases c, 0
  {
    var x := GenExpr(c.cond, base, t);
    var y := GenValue(c.body, base + Size(x.code) + 3, x.tables);
    [base + Size(x.code) + 3 + Size(y.code)] + Exits(c.rest, base + Size(x.code) + Size(y.code) + 6, y.tables)
  }

  /** An elsif branch, appended piece by piece. */
  lemma {:induction false} AppendElsIf(start: seq<byte>, c: Chain, t: Tables, u: nat)
    requires c.ElsIf?
    ensures var x := GenExpr(c.cond, |start|, t);
            var y := GenValue(c.body, |start| + Size(x.code) + 3, x.tables);
            var q := |start| + Size(x.code) + Size(y.code) + 6;
            var z := GenChain(c.rest, q, y.tables, u);
            && GenChain(c, |start|, t, u).tables == z.tables
            && Exits(c, |start|, t) == [q - 3] + Exits(c.rest, q, y.tables)
            && Append(start, GenChain(c, |start|, t, u).code)
               == Append(Append(Append(Append(Append(start, x.code), One(BranchOp(false, q))), y.code), One(Jump(u))), z.code)
  {
    hide Append, GenExpr, GenValue, Size;
    assert GenChain(c, |start|, t, u) == GenElsIf(c, |start|, t, u);
    assert Exits(c, |start|, t) == ExitsElsIf(c, |start|, t);
    hide GenChain, Exits;
    var x := GenExpr(c.cond, |start|, t);
    var y := GenValue(c.body, |start| + Size(x.code) + 3, x.tables);
    var q := |start| + Size(x.code) + Size(y.code) + 6;
    AppendBranch(start, x.code, false, q, y.code, u, GenChain(c.rest, q, y.tables, u).code);
  }

  /** Patching the exits of a chain gives the chain compiled for the patched target. */
  lemma {:induction false} PatchChain(before: seq<byte>, c: Chain, t: Tables, u: nat, v: nat)
    ensures InCode(Exits(c, |before|, t), Append(before, GenChain(c, |before|, t, u).code))
    ensures PatchAll(Append(before, GenChain(c, |before|, t, u).code), Exits(c, |before|, t), v)
            == Append(before, GenChain(c, |before|, t, v).code)
    decreases c, 1
  {
    if c.ElsIf? { PatchElsIf(before, c, t, u, v); }
  }

  lemma {:induction false} PatchElsIf(before: seq<byte>, c: Chain, t: Tables, u: nat, v: nat)
    requires c.ElsIf?
    ensures InCode(Exits(c, |before|, t), Append(before, GenChain(c, |before|, t, u).code))
    ensures PatchAll(Append(before, GenChain(c, |before|, t, u).code), Exits(c, |before|, t), v)
            == Append(before, GenChain(c, |before|, t, v).code)
    decreases c, 0
  {
    hide Append, PatchAll, GenChain, GenValue, GenExpr, Exits, InCode;
    AppendElsIf(before, c, t, u);
    AppendElsIf(before, c, t, v);
    var x := GenExpr(c.cond, |before|, t);
    var y := GenValue(c.body, |before| + Size(x.code) + 3, x.tables);
    var q := |before| + Size(x.code) + Size(y.code) + 6;
    var arm := Append(Append(Append(before, x.code), One(BranchOp(false, q))), y.code);
    PatchChain(Append(arm, One(Jump(v))), c.rest, y.tables, u, v);
    PatchFirst(arm, GenChain(c.rest, q, y.tables, u).code, u, v, Exits(c.rest, q, y.tables));
  }

  /** Patching a list of jumps whose first one is known. */
  lemma {:induction false} PatchFirst(arm: seq<byte>, after: Code, u: nat, v: nat, others: seq<nat>)
    requires InCode(others, Append(Append(arm, One(Jump(v))), after))
    ensures InCode([|arm|] + others, Append(Append(arm, One(Jump(u))), after))
    ensures PatchAll(Append(Append(arm, One(Jump(u))), after), [|arm|] + others, v)
            == PatchAll(Append(Append(arm, One(Jump(v))), after), others, v)
  {
    PatchJump(arm, Jump(u), Jump(v), after);
    hide Append, Patch;
    var positions, code := [|arm|] + others, Append(Append(arm, One(Jump(u))), after);
    assert positions[1..] == others && positions[0] == |arm|;
    forall k | 0 <= k < |positions| ensures positions[k] + 2 < |code| {
      if k > 0 { assert positions[k] == others[k - 1]; }
    }
  }

  /** The first arm's jump and the exits of the rest, patched together. */
  lemma {:induction false} PatchIf(before: seq<byte>, rest: Chain, t: Tables, end: nat)
    ensures var q := |before| + 3;
            var code := Append(Append(before, One(Jump(PLACEHOLDER))), GenChain(rest, q, t, PLACEHOLDER).code);
            && InCode([|before|] + Exits(rest, q, t), code)
            && PatchAll(code, [|before|] + Exits(rest, q, t), end)
               == Append(Append(before, One(Jump(end))), GenChain(rest, q, t, end).code)
  {
    hide Append, PatchAll, GenChain;
    PatchChain(Append(before, One(Jump(end))), rest, t, PLACEHOLDER, end);
    PatchFirst(before, GenChain(rest, |before| + 3, t, PLACEHOLDER).code, PLACEHOLDER, end, Exits(rest, |before| + 3, t));
  }
}
