/** An accepted loop body is its bytes. */
module DecompileSound {
  // For any bytes the parser accepts, compiled or not: the list it returns runs as the machine does, if no stored tree is stale
  // and no tree that might raise is dropped.

  import opened Options
  import opened Int64
  import opened Bytecode
  import opened CodeGen
  import opened Machine
  import opened Decompile
  import A = AotExpr
  import S = AotSelfDelta
  import V = AotValidate
  import W = AotWhile

  // ---------------------------------------------------------------- reading the bytes

  /** The machine's instructions, and the two opcodes of its fast paths: reading a local, and negation. */
  function FastDecode(code: seq<byte>, pos: nat): Option<Instr> {
    if pos < |code| && code[pos] == 159 then
      (if ReadUint8(code, pos + 1).Some? then Some(GetLocal(ReadUint8(code, pos + 1).value)) else None)
    else if pos < |code| && code[pos] == 108 then Some(Negate)
    else Decode(code, pos)
  }

  function FastReader(code: seq<byte>): Fetch {
    (pos: nat) => FastDecode(code, pos)
  }

  /** The instructions a body may consist of, with as many operands as they need. */
  predicate Allowed(i: Instr, pool: seq<int>, depth: nat) {
    match i
    case GetLocal(_) => true
    case Constant(k) => k < |pool| && Fits(pool[k])
    case Binary(op) => OpOf(op).Some? && depth >= 2
    case Negate => depth >= 1
    case SetLocal(_) => depth >= 1
    case Pop => depth >= 1
    case _ => false
  }

  /** What an instruction does to the parser's stack of trees and its list. */
  function Symbolic(i: Instr, pool: seq<int>, s: Parse): Parse
    requires Allowed(i, pool, |s.stack|)
  {
    var next, depth := s.pos + Width(i), |s.stack|;
    match i
    case GetLocal(k) => Parse(next, s.stack + [A.Local(k)], s.found)
    case Constant(k) => Parse(next, s.stack + [A.Const(pool[k])], s.found)
    case Binary(op) => Parse(next, s.stack[..depth - 2] + [A.Bin(OpOf(op).value, s.stack[depth - 2], s.stack[depth - 1])], s.found)
    case Negate => Parse(next, s.stack[..depth - 1] + [A.Neg(s.stack[depth - 1])], s.found)
    case SetLocal(k) => Parse(next, s.stack, s.found + [V.Assignment(k, s.stack[depth - 1])])
    case Pop => Parse(next, s.stack[..depth - 1], s.found)
  }

  /** The parser accepts exactly the allowed instructions that end within the body, one at a time. */
  lemma {:induction false} StepIsInstr(code: seq<byte>, pool: seq<int>, end: nat, s: Parse)
    requires s.pos < end <= |code|
    ensures var i := FastDecode(code, s.pos);
            ParseOne(code, pool, end, s) ==
            if i.Some? && Allowed(i.value, pool, |s.stack|) && s.pos + Width(i.value) <= end then Some(Symbolic(i.value, pool, s)) else None
  {
  }

  // ---------------------------------------------------------------- stale and unsettled trees

  /** A tree is stale once a local it reads has been stored; settled when its value is known to exist: it was stored itself, or
      nothing in it can raise. */
  datatype Mark = Mark(stale: bool, settled: bool)

  function NextMarks(i: Instr, pool: seq<int>, s: Parse, marks: seq<Mark>): seq<Mark>
    requires Allowed(i, pool, |s.stack|) && |marks| == |s.stack|
  {
    var depth := |marks|;
    match i
    case Binary(op) =>
      var x, y := marks[depth - 2], marks[depth - 1];
      marks[..depth - 2] + [Mark(x.stale || y.stale, x.settled && y.settled && op != OpMod)]
    case Negate => marks
    case SetLocal(k) =>
      seq(depth, j requires 0 <= j < depth => Mark(marks[j].stale || A.Contains(s.stack[j], k), marks[j].settled || j == depth - 1))
    case Pop => marks[..depth - 1]
    case _ => marks + [Mark(false, true)]
  }

  /** Only fresh trees are stored, only settled ones dropped, and slots are in a frame of this size. */
  predicate CleanStep(i: Instr, pool: seq<int>, s: Parse, marks: seq<Mark>, size: nat)
    requires Allowed(i, pool, |s.stack|) && |marks| == |s.stack|
  {
    match i
    case GetLocal(k) => k < size
    case SetLocal(k) => k < size && !marks[|marks| - 1].stale
    case Pop => marks[|marks| - 1].settled
    case _ => true
  }

  /** The whole body is clean. It is decided by one pass over the bytes. */
  predicate Clean(code: seq<byte>, pool: seq<int>, end: nat, s: Parse, marks: seq<Mark>, size: nat)
    requires s.pos <= end <= |code| && |marks| == |s.stack|
    decreases end - s.pos
  {
    s.pos == end ||
    var i := FastDecode(code, s.pos);
    i.Some? && Allowed(i.value, pool, |s.stack|) && s.pos + Width(i.value) <= end && CleanStep(i.value, pool, s, marks, size)
    && Clean(code, pool, end, Symbolic(i.value, pool, s), NextMarks(i.value, pool, s, marks), size)
  }

  /** One step of an accepted and clean body. */
  lemma {:induction false} OneStep(code: seq<byte>, pool: seq<int>, end: nat, s: Parse, marks: seq<Mark>, size: nat)
    requires s.pos < end <= |code| && |marks| == |s.stack| && ParseFrom(code, pool, end, s).Some? && Clean(code, pool, end, s, marks, size)
    ensures var i := FastDecode(code, s.pos);
            && i.Some? && Allowed(i.value, pool, |s.stack|) && CleanStep(i.value, pool, s, marks, size)
            && var t := Symbolic(i.value, pool, s);
               s.pos < t.pos <= end && ParseFrom(code, pool, end, t) == ParseFrom(code, pool, end, s)
               && Clean(code, pool, end, t, NextMarks(i.value, pool, s, marks), size)
  {
    assert ParseFrom(code, pool, end, s) == ParseOn(code, pool, end, s);
    StepIsInstr(code, pool, end, s);
    hide FastDecode, ParseOne;
  }

  /** The parser only adds to its list. */
  lemma {:induction false} FoundGrows(code: seq<byte>, pool: seq<int>, end: nat, s: Parse)
    requires s.pos <= end <= |code| && ParseFrom(code, pool, end, s).Some?
    ensures s.found <= ParseFrom(code, pool, end, s).value
    decreases end - s.pos
  {
    if s.pos < end {
      assert ParseFrom(code, pool, end, s) == ParseOn(code, pool, end, s);
      StepIsInstr(code, pool, end, s);
      hide FastDecode, ParseOne;
      FoundGrows(code, pool, end, ParseOne(code, pool, end, s).value);
    }
  }

  /** What is found from here on. */
  function More(code: seq<byte>, pool: seq<int>, end: nat, s: Parse): seq<V.Assignment>
    requires s.pos <= end <= |code| && ParseFrom(code, pool, end, s).Some?
  {
    FoundGrows(code, pool, end, s);
    ParseFrom(code, pool, end, s).value[|s.found|..]
  }

  lemma {:induction false} MoreStep(code: seq<byte>, pool: seq<int>, end: nat, s: Parse, t: Parse, i: Instr)
    requires s.pos < end <= |code| && s.pos < t.pos <= end && ParseFrom(code, pool, end, s).Some?
    requires Allowed(i, pool, |s.stack|) && t == Symbolic(i, pool, s) && ParseFrom(code, pool, end, t) == ParseFrom(code, pool, end, s)
    ensures var more := More(code, pool, end, s);
            if i.SetLocal? then more != [] && more[0] == V.Assignment(i.slot, s.stack[|s.stack| - 1]) && More(code, pool, end, t) == more[1..]
            else More(code, pool, end, t) == more
  {
    FoundGrows(code, pool, end, s);
    FoundGrows(code, pool, end, t);
    hide ParseFrom;
  }

  /** Stores stay in the frame. */
  lemma {:induction false} MoreInFrame(code: seq<byte>, pool: seq<int>, end: nat, s: Parse, marks: seq<Mark>, size: nat)
    requires s.pos <= end <= |code| && |marks| == |s.stack| && ParseFrom(code, pool, end, s).Some? && Clean(code, pool, end, s, marks, size)
    ensures W.InFrame(More(code, pool, end, s), size)
    decreases end - s.pos
  {
    if s.pos < end {
      var i := FastDecode(code, s.pos);
      OneStep(code, pool, end, s, marks, size);
      var t := Symbolic(i.value, pool, s);
      MoreStep(code, pool, end, s, t, i.value);
      MoreInFrame(code, pool, end, t, NextMarks(i.value, pool, s, marks), size);
      var more := More(code, pool, end, s);
      if i.value.SetLocal? { assert forall j :: 0 < j < |more| ==> more[j] == more[1..][j - 1]; }
    }
  }

  // ---------------------------------------------------------------- the machine

  function Ints(f: seq<int>): seq<Value> {
    seq(|f|, j requires 0 <= j < |f| => IntV(f[j]))
  }

  /** The values on the machine's stack after an instruction; None when it raises. */
  function NextValues(i: Instr, pool: seq<int>, values: seq<int>, frame: seq<int>): Option<seq<int>>
    requires Allowed(i, pool, |values|) && (i.GetLocal? ==> i.slot < |frame|)
  {
    var depth := |values|;
    match i
    case GetLocal(k) => Some(values + [frame[k]])
    case Constant(k) => Some(values + [pool[k]])
    case Binary(op) =>
      var v := A.RubyOp(OpOf(op).value, values[depth - 2], values[depth - 1]);
      if v.None? then None else Some(values[..depth - 2] + [v.value])
    case Negate => Some(values[..depth - 1] + [-values[depth - 1]])
    case SetLocal(_) => Some(values)
    case Pop => Some(values[..depth - 1])
  }

  function NextFrame(i: Instr, values: seq<int>, frame: seq<int>): seq<int>
    requires i.SetLocal? ==> i.slot < |frame| && values != []
  {
    if i.SetLocal? then frame[i.slot := values[|values| - 1]] else frame
  }

  lemma {:induction false} ArithmeticIsRuby(op: BinOp, x: int, y: int)
    requires OpOf(op).Some?
    ensures Operate(op, IntV(x), IntV(y)) ==
            var v := A.RubyOp(OpOf(op).value, x, y); if v.Some? then Some(IntV(v.value)) else None
    ensures A.RubyOp(OpOf(op).value, x, y).None? ==> op == OpMod
  {
  }

  lemma {:induction false} IntsReplaced(base: seq<Value>, values: seq<int>, k: nat, v: int)
    requires k <= |values|
    ensures (base + Ints(values))[..|base + Ints(values)| - k] + [IntV(v)] == base + Ints(values[..|values| - k] + [v])
    ensures (base + Ints(values))[..|base + Ints(values)| - k] == base + Ints(values[..|values| - k])
  {
  }

  /** An instruction on integers. */
  lemma {:induction false} ExecutesInts(i: Instr, pool: seq<int>, pc: nat, base: seq<Value>, values: seq<int>, frame: seq<int>)
    requires Allowed(i, pool, |values|) && (i.GetLocal? || i.SetLocal? ==> i.slot < |frame|)
    ensures var next := NextValues(i, pool, values, frame);
            Execute(i, pool, Running(pc, base + Ints(values), Ints(frame))) ==
            if next.None? then Raised else Running(pc + Width(i), base + Ints(next.value), Ints(NextFrame(i, values, frame)))
  {
    var depth := |values|;
    if i.Binary? {
      ExecutesBinary(i.op, pool, pc, base, values, frame);
    } else {
      match i
      case GetLocal(k) => IntsReplaced(base, values, 0, frame[k]); assert values[..depth] == values;
      case Constant(k) => IntsReplaced(base, values, 0, pool[k]); assert values[..depth] == values;
      case Negate => IntsReplaced(base, values, 1, -values[depth - 1]);
      case SetLocal(k) => assert Ints(frame)[k := IntV(values[depth - 1])] == Ints(frame[k := values[depth - 1]]);
      case Pop => IntsReplaced(base, values, 1, 0);
    }
  }

  lemma {:induction false} ExecutesBinary(op: BinOp, pool: seq<int>, pc: nat, base: seq<Value>, values: seq<int>, frame: seq<int>)
    requires OpOf(op).Some? && |values| >= 2
    ensures var next := NextValues(Binary(op), pool, values, frame);
            Execute(Binary(op), pool, Running(pc, base + Ints(values), Ints(frame))) ==
            if next.None? then Raised else Running(pc + 1, base + Ints(next.value), Ints(frame))
  {
    var stack, depth := base + Ints(values), |values|;
    assert stack[|stack| - 2] == IntV(values[depth - 2]) && stack[|stack| - 1] == IntV(values[depth - 1]);
    var v := A.RubyOp(OpOf(op).value, values[depth - 2], values[depth - 1]);
    hide Operate, Ints;
    ArithmeticIsRuby(op, values[depth - 2], values[depth - 1]);
    if v.Some? { IntsReplaced(base, values, 2, v.value); }
  }

  /** The fresh trees have the values on the machine's stack. */
  ghost predicate Matches(s: Parse, marks: seq<Mark>, values: seq<int>, frame: seq<int>) {
    && |s.stack| == |marks| == |values|
    && forall j :: 0 <= j < |marks| && !marks[j].stale ==> A.RubyEval(s.stack[j], frame, map[]) == Some(values[j])
  }

  lemma {:induction false} StillMatches(i: Instr, pool: seq<int>, s: Parse, marks: seq<Mark>, values: seq<int>, frame: seq<int>)
    requires Matches(s, marks, values, frame) && Allowed(i, pool, |s.stack|) && CleanStep(i, pool, s, marks, |frame|)
    requires NextValues(i, pool, values, frame).Some?
    ensures Matches(Symbolic(i, pool, s), NextMarks(i, pool, s, marks), NextValues(i, pool, values, frame).value, NextFrame(i, values, frame))
  {
    var t, m, v, f := Symbolic(i, pool, s), NextMarks(i, pool, s, marks), NextValues(i, pool, values, frame).value, NextFrame(i, values, frame);
    forall j | 0 <= j < |m| && !m[j].stale ensures A.RubyEval(t.stack[j], f, map[]) == Some(v[j]) {
      if i.SetLocal? {
        assert !marks[j].stale && !A.Contains(s.stack[j], i.slot);
        S.SameReadsSameValue(s.stack[j], frame, f, map[]);
      } else if i.Binary? && j == |m| - 1 {
        assert !marks[|marks| - 2].stale && !marks[|marks| - 1].stale;
      }
    }
  }

  // ---------------------------------------------------------------- trees that are never used again

  /** Where a tree is after an instruction, as a part of another one or by itself. */
  function Place(i: Instr, depth: nat, j: nat): nat {
    if i.Binary? && depth >= 2 && j >= depth - 2 then depth - 2 else j
  }

  lemma {:induction false} StaleStays(i: Instr, pool: seq<int>, s: Parse, marks: seq<Mark>, size: nat, j: nat)
    requires Allowed(i, pool, |s.stack|) && |marks| == |s.stack| && CleanStep(i, pool, s, marks, size)
    requires j < |marks| && marks[j].stale && !marks[j].settled
    ensures var m, k := NextMarks(i, pool, s, marks), Place(i, |marks|, j);
            k < |m| == |Symbolic(i, pool, s).stack| && m[k].stale && !m[k].settled
  {
  }

  lemma {:induction false} EndIsEmpty(code: seq<byte>, pool: seq<int>, end: nat, s: Parse)
    requires s.pos == end <= |code| && ParseFrom(code, pool, end, s).Some?
    ensures s.stack == [] && ParseFrom(code, pool, end, s) == Some(s.found)
  {
  }

  /** A stale tree that might raise cannot be got rid of. */
  lemma {:induction false} NoWayOut(code: seq<byte>, pool: seq<int>, end: nat, s: Parse, marks: seq<Mark>, size: nat, j: nat)
    requires s.pos <= end <= |code| && |marks| == |s.stack| && ParseFrom(code, pool, end, s).Some? && Clean(code, pool, end, s, marks, size)
    requires j < |marks| && marks[j].stale && !marks[j].settled
    ensures false
    decreases end - s.pos
  {
    hide *;
    if s.pos < end {
      OneStep(code, pool, end, s, marks, size);
      var i := FastDecode(code, s.pos).value;
      StaleStays(i, pool, s, marks, size, j);
      NoWayOut(code, pool, end, Symbolic(i, pool, s), NextMarks(i, pool, s, marks), size, Place(i, |marks|, j));
    } else {
      EndIsEmpty(code, pool, end, s);
    }
  }

  lemma {:induction false} RaisingStays(i: Instr, pool: seq<int>, s: Parse, marks: seq<Mark>, frame: seq<int>, j: nat)
    requires Allowed(i, pool, |s.stack|) && |marks| == |s.stack| && CleanStep(i, pool, s, marks, |frame|)
    requires j < |marks| && !marks[j].stale && !marks[j].settled && A.RubyEval(s.stack[j], frame, map[]).None?
    ensures var t, m, k := Symbolic(i, pool, s), NextMarks(i, pool, s, marks), Place(i, |marks|, j);
            && k < |m| == |t.stack| && ((i.SetLocal? && j == |marks| - 1) || !m[k].settled)
            && (!i.SetLocal? ==> A.RubyEval(t.stack[k], frame, map[]).None?)
            && (i.SetLocal? ==> t.stack == s.stack && m[k].stale == A.Contains(s.stack[j], i.slot))
  {
  }

  lemma {:induction false} StoresFirst(a: V.Assignment, more: seq<V.Assignment>, frame: seq<int>)
    requires W.InFrame(more, |frame|) && more != [] && more[0] == a
    ensures W.InFrame(more[1..], |frame|) && a.local < |frame|
    ensures W.RubyBody(more, frame, map[]) ==
            var v := A.RubyEval(a.expr, frame, map[]); if v.None? then None else W.RubyBody(more[1..], frame[a.local := v.value], map[])
  {
  }

  lemma {:induction false} OtherFrame(e: A.Expr, frame: seq<int>, k: nat, v: int)
    requires k < |frame| && !A.Contains(e, k)
    ensures A.RubyEval(e, frame[k := v], map[]) == A.RubyEval(e, frame, map[])
  {
    S.SameReadsSameValue(e, frame, frame[k := v], map[]);
  }

  /** A fresh tree that raises in the list's frame, and might, makes the list raise. */
  lemma {:induction false} Doomed(code: seq<byte>, pool: seq<int>, end: nat, s: Parse, marks: seq<Mark>, frame: seq<int>, j: nat)
    requires s.pos <= end <= |code| && |marks| == |s.stack| && ParseFrom(code, pool, end, s).Some? && Clean(code, pool, end, s, marks, |frame|)
    requires j < |marks| && !marks[j].stale && !marks[j].settled && A.RubyEval(s.stack[j], frame, map[]).None?
    ensures W.InFrame(More(code, pool, end, s), |frame|) && W.RubyBody(More(code, pool, end, s), frame, map[]).None?
    decreases end - s.pos
  {
    MoreInFrame(code, pool, end, s, marks, |frame|);
    hide *;
    if s.pos < end {
      OneStep(code, pool, end, s, marks, |frame|);
      var i := FastDecode(code, s.pos).value;
      var t, m, k := Symbolic(i, pool, s), NextMarks(i, pool, s, marks), Place(i, |marks|, j);
      MoreStep(code, pool, end, s, t, i);
      RaisingStays(i, pool, s, marks, frame, j);
      if i.SetLocal? {
        var a, more := V.Assignment(i.slot, s.stack[|marks| - 1]), More(code, pool, end, s);
        StoresFirst(a, more, frame);
        var v := A.RubyEval(a.expr, frame, map[]);
        if v.Some? {
          DoomedPlace(i, |marks|, j);
          if A.Contains(s.stack[j], i.slot) {
            NoWayOut(code, pool, end, t, m, |frame|, j);
          } else {
            OtherFrame(s.stack[j], frame, i.slot, v.value);
            Doomed(code, pool, end, t, m, frame[i.slot := v.value], j);
          }
        }
      } else if m[k].stale {
        NoWayOut(code, pool, end, t, m, |frame|, k);
      } else {
        Doomed(code, pool, end, t, m, frame, k);
      }
    } else {
      EndIsEmpty(code, pool, end, s);
    }
  }

  lemma {:induction false} DoomedPlace(i: Instr, depth: nat, j: nat)
    requires i.SetLocal?
    ensures Place(i, depth, j) == j
  {
  }

  // ---------------------------------------------------------------- soundness

  /** The end of a body, or the point where it raises. */
  function AfterBody(end: nat, base: seq<Value>, r: Option<seq<int>>): State {
    if r.None? then Raised else Running(end, base, Ints(r.value))
  }

  lemma {:induction false} RunStep(code: seq<byte>, stop: nat, pool: seq<int>, s: State, i: Instr, n: nat)
    requires s.Running? && FastDecode(code, s.pc) == Some(i)
    ensures Run(FastReader(code), stop, pool, s, n + 1) == Run(FastReader(code), stop, pool, Execute(i, pool, s), n)
  {
    assert Run(FastReader(code), stop, pool, s, n + 1) == RunOn(FastReader(code), stop, pool, s, n + 1);
    hide FastDecode, Execute;
  }

  /** From a state that matches the parser's, the machine goes on as the rest of the list does. */
  lemma {:induction false} RestRuns(code: seq<byte>, pool: seq<int>, end: nat, stop: nat, s: Parse, marks: seq<Mark>, base: seq<Value>,
                                    values: seq<int>, frame: seq<int>) returns (n: nat)
    requires s.pos <= end <= |code| && |marks| == |s.stack| && ParseFrom(code, pool, end, s).Some? && Clean(code, pool, end, s, marks, |frame|)
    requires Matches(s, marks, values, frame)
    ensures W.InFrame(More(code, pool, end, s), |frame|)
    ensures Run(FastReader(code), stop, pool, Running(s.pos, base + Ints(values), Ints(frame)), n)
            == AfterBody(end, base, W.RubyBody(More(code, pool, end, s), frame, map[]))
    decreases end - s.pos
  {
    MoreInFrame(code, pool, end, s, marks, |frame|);
    hide *;
    if s.pos == end {
      n := 0;
      EndRuns(code, pool, end, stop, s, base, values, frame);
    } else {
      OneStep(code, pool, end, s, marks, |frame|);
      var i := FastDecode(code, s.pos).value;
      var t, m := Symbolic(i, pool, s), NextMarks(i, pool, s, marks);
      var v := NextValues(i, pool, values, frame);
      SameDepth(i, pool, s, marks, values, frame);
      ExecutesInts(i, pool, s.pos, base, values, frame);
      MoreStep(code, pool, end, s, t, i);
      if v.None? {
        RaisesTogether(code, pool, end, s, t, marks, values, frame, i);
        n := RaisesNow(code, pool, stop, Running(s.pos, base + Ints(values), Ints(frame)), i);
        RaisedAfter(end, base, W.RubyBody(More(code, pool, end, s), frame, map[]));
      } else {
        StillMatches(i, pool, s, marks, values, frame);
        n := RestRuns(code, pool, end, stop, t, m, base, v.value, NextFrame(i, values, frame));
        n := GoesOn(code, pool, stop, Running(s.pos, base + Ints(values), Ints(frame)), i,
                    Running(t.pos, base + Ints(v.value), Ints(NextFrame(i, values, frame))), n);
        ListFollows(i, pool, s, marks, values, frame, More(code, pool, end, s), More(code, pool, end, t));
      }
    }
  }

  lemma {:induction false} RaisesNow(code: seq<byte>, pool: seq<int>, stop: nat, s: State, i: Instr) returns (n: nat)
    requires s.Running? && FastDecode(code, s.pc) == Some(i) && Execute(i, pool, s) == Raised
    ensures Run(FastReader(code), stop, pool, s, n) == Raised
  {
    hide *;
    n := 1;
    RunStep(code, stop, pool, s, i, 0);
    RunNothing(code, stop, pool, Raised);
  }

  lemma {:induction false} GoesOn(code: seq<byte>, pool: seq<int>, stop: nat, s: State, i: Instr, t: State, m: nat) returns (n: nat)
    requires s.Running? && FastDecode(code, s.pc) == Some(i) && Execute(i, pool, s) == t
    ensures Run(FastReader(code), stop, pool, s, n) == Run(FastReader(code), stop, pool, t, m)
  {
    hide *;
    n := m + 1;
    RunStep(code, stop, pool, s, i, m);
  }

  lemma {:induction false} EndRuns(code: seq<byte>, pool: seq<int>, end: nat, stop: nat, s: Parse, base: seq<Value>, values: seq<int>, frame: seq<int>)
    requires s.pos == end <= |code| && ParseFrom(code, pool, end, s).Some? && |values| == |s.stack|
    ensures More(code, pool, end, s) == []
    ensures Run(FastReader(code), stop, pool, Running(s.pos, base + Ints(values), Ints(frame)), 0)
            == AfterBody(end, base, W.RubyBody([], frame, map[]))
  {
    EndIsEmpty(code, pool, end, s);
    assert base + Ints(values) == base;
  }

  lemma {:induction false} RunNothing(code: seq<byte>, stop: nat, pool: seq<int>, s: State)
    ensures Run(FastReader(code), stop, pool, s, 0) == s
  {
  }

  lemma {:induction false} RaisedAfter(end: nat, base: seq<Value>, r: Option<seq<int>>)
    ensures r.None? ==> AfterBody(end, base, r) == Raised
  {
  }

  lemma {:induction false} SameDepth(i: Instr, pool: seq<int>, s: Parse, marks: seq<Mark>, values: seq<int>, frame: seq<int>)
    requires Matches(s, marks, values, frame) && Allowed(i, pool, |s.stack|) && CleanStep(i, pool, s, marks, |frame|)
    ensures |values| == |s.stack| && (i.GetLocal? || i.SetLocal? ==> i.slot < |frame|) && (i.SetLocal? ==> values != [])
    ensures |NextFrame(i, values, frame)| == |frame| && Symbolic(i, pool, s).pos == s.pos + Width(i)
    ensures NextValues(i, pool, values, frame).None? ==> i.Binary?
  {
  }

  /** The list's next assignment is the machine's store. */
  lemma {:induction false} ListFollows(i: Instr, pool: seq<int>, s: Parse, marks: seq<Mark>, values: seq<int>, frame: seq<int>,
                                       more: seq<V.Assignment>, rest: seq<V.Assignment>)
    requires Matches(s, marks, values, frame) && Allowed(i, pool, |s.stack|) && CleanStep(i, pool, s, marks, |frame|) && |values| == |s.stack|
    requires W.InFrame(more, |frame|) && (i.SetLocal? ==> i.slot < |frame| && values != [])
    requires if i.SetLocal? then more != [] && more[0] == V.Assignment(i.slot, s.stack[|s.stack| - 1]) && rest == more[1..] else rest == more
    ensures W.InFrame(rest, |NextFrame(i, values, frame)|)
    ensures W.RubyBody(more, frame, map[]) == W.RubyBody(rest, NextFrame(i, values, frame), map[])
  {
    if i.SetLocal? { StoresFirst(more[0], more, frame); }
  }

  /** Where the machine raises, the list does. */
  lemma {:induction false} RaisesTogether(code: seq<byte>, pool: seq<int>, end: nat, s: Parse, t: Parse, marks: seq<Mark>, values: seq<int>,
                                          frame: seq<int>, i: Instr)
    requires Allowed(i, pool, |s.stack|) && t == Symbolic(i, pool, s) && Matches(s, marks, values, frame)
    requires t.pos <= end <= |code| && ParseFrom(code, pool, end, t).Some? && Clean(code, pool, end, t, NextMarks(i, pool, s, marks), |frame|)
    requires (i.GetLocal? ==> i.slot < |frame|) && NextValues(i, pool, values, frame).None?
    ensures W.InFrame(More(code, pool, end, t), |frame|) && W.RubyBody(More(code, pool, end, t), frame, map[]).None?
  {
    var m := NextMarks(i, pool, s, marks);
    var top := |m| - 1;
    ArithmeticIsRuby(i.op, values[|values| - 2], values[|values| - 1]);
    hide FastDecode, Clean, ParseFrom, More, A.RubyOp;
    if m[top].stale {
      NoWayOut(code, pool, end, t, m, |frame|, top);
    } else {
      assert !marks[|marks| - 2].stale && !marks[|marks| - 1].stale;
      Doomed(code, pool, end, t, m, frame, top);
    }
  }

  /** The parser is sound on arbitrary bytes: if it accepts a body and the body is clean, then from any frame of integers, on any
      stack, the machine leaves the stack as it was and the frame that the list computes, or raises when the list raises. */
  lemma {:induction false} ParsedIsBytes(code: seq<byte>, pool: seq<int>, start: nat, end: nat, stop: nat, base: seq<Value>, frame: seq<int>)
    returns (n: nat)
    requires start <= end <= |code| && ParseFrom(code, pool, end, Parse(start, [], [])).Some?
    requires Clean(code, pool, end, Parse(start, [], []), [], |frame|)
    ensures var list := ParseFrom(code, pool, end, Parse(start, [], [])).value;
            && W.InFrame(list, |frame|)
            && Run(FastReader(code), stop, pool, Running(start, base, Ints(frame)), n) == AfterBody(end, base, W.RubyBody(list, frame, map[]))
  {
    var s := Parse(start, [], []);
    assert base + Ints([]) == base;
    n := RestRuns(code, pool, end, stop, s, [], base, [], frame);
    assert More(code, pool, end, s) == ParseFrom(code, pool, end, s).value;
  }
}
