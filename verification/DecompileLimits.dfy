/** Accepted loop bodies that are not their bytes. */
module DecompileLimits {
  import opened Options
  import opened Int64
  import opened Bytecode
  import opened CodeGen
  import opened Machine
  import opened Decompile
  import opened DecompileSound
  import A = AotExpr
  import V = AotValidate
  import W = AotWhile

  /** A parser step at a decoded instruction. */
  lemma {:induction false} Parses(code: seq<byte>, pool: seq<int>, end: nat, s: Parse, i: Instr)
    requires s.pos < end <= |code| && FastDecode(code, s.pos) == Some(i) && Allowed(i, pool, |s.stack|) && s.pos + Width(i) <= end
    ensures Symbolic(i, pool, s).pos <= end && ParseFrom(code, pool, end, s) == ParseFrom(code, pool, end, Symbolic(i, pool, s))
  {
    assert ParseFrom(code, pool, end, s) == ParseOn(code, pool, end, s);
    StepIsInstr(code, pool, end, s);
    hide FastDecode, ParseOne;
  }

  /** A machine step at a decoded instruction, on integers. */
  lemma {:induction false} Moves(code: seq<byte>, pool: seq<int>, stop: nat, base: seq<Value>, pc: nat, i: Instr, values: seq<int>, frame: seq<int>,
                                 v: seq<int>, f: seq<int>, m: nat) returns (n: nat)
    requires FastDecode(code, pc) == Some(i) && Allowed(i, pool, |values|) && (i.GetLocal? || i.SetLocal? ==> i.slot < |frame|)
    requires NextValues(i, pool, values, frame) == Some(v) && NextFrame(i, values, frame) == f
    ensures Run(FastReader(code), stop, pool, Running(pc, base + Ints(values), Ints(frame)), n)
            == Run(FastReader(code), stop, pool, Running(pc + Width(i), base + Ints(v), Ints(f)), m)
  {
    ExecutesInts(i, pool, pc, base, values, frame);
    hide *;
    n := GoesOn(code, pool, stop, Running(pc, base + Ints(values), Ints(frame)), i, Running(pc + Width(i), base + Ints(v), Ints(f)), m);
  }

  lemma {:induction false} Loads(code: seq<byte>, pool: seq<int>, stop: nat, base: seq<Value>, pc: nat, k: nat, values: seq<int>, frame: seq<int>, m: nat)
    returns (n: nat)
    requires FastDecode(code, pc) == Some(GetLocal(k)) && k < |frame|
    ensures Run(FastReader(code), stop, pool, Running(pc, base + Ints(values), Ints(frame)), n)
            == Run(FastReader(code), stop, pool, Running(pc + 2, base + Ints(values + [frame[k]]), Ints(frame)), m)
  {
    hide FastDecode, Run, Ints;
    n := Moves(code, pool, stop, base, pc, GetLocal(k), values, frame, values + [frame[k]], frame, m);
  }

  lemma {:induction false} Pushes(code: seq<byte>, pool: seq<int>, stop: nat, base: seq<Value>, pc: nat, k: nat, values: seq<int>, frame: seq<int>, m: nat)
    returns (n: nat)
    requires FastDecode(code, pc) == Some(Constant(k)) && k < |pool| && Fits(pool[k])
    ensures Run(FastReader(code), stop, pool, Running(pc, base + Ints(values), Ints(frame)), n)
            == Run(FastReader(code), stop, pool, Running(pc + 3, base + Ints(values + [pool[k]]), Ints(frame)), m)
  {
    hide FastDecode, Run, Ints;
    n := Moves(code, pool, stop, base, pc, Constant(k), values, frame, values + [pool[k]], frame, m);
  }

  lemma {:induction false} Operates(code: seq<byte>, pool: seq<int>, stop: nat, base: seq<Value>, pc: nat, op: BinOp, values: seq<int>, v: seq<int>,
                                    frame: seq<int>, m: nat) returns (n: nat)
    requires FastDecode(code, pc) == Some(Binary(op)) && OpOf(op).Some? && |values| == 2 && |v| == 1
    requires A.RubyOp(OpOf(op).value, values[0], values[1]) == Some(v[0])
    ensures Run(FastReader(code), stop, pool, Running(pc, base + Ints(values), Ints(frame)), n)
            == Run(FastReader(code), stop, pool, Running(pc + 1, base + Ints(v), Ints(frame)), m)
  {
    hide FastDecode, Run, Ints;
    assert values[..0] + [v[0]] == v;
    n := Moves(code, pool, stop, base, pc, Binary(op), values, frame, v, frame, m);
  }

  lemma {:induction false} Stores(code: seq<byte>, pool: seq<int>, stop: nat, base: seq<Value>, pc: nat, k: nat, values: seq<int>, frame: seq<int>, m: nat)
    returns (n: nat)
    requires FastDecode(code, pc) == Some(SetLocal(k)) && k < |frame| && values != []
    ensures Run(FastReader(code), stop, pool, Running(pc, base + Ints(values), Ints(frame)), n)
            == Run(FastReader(code), stop, pool, Running(pc + 2, base + Ints(values), Ints(frame[k := values[|values| - 1]])), m)
  {
    hide FastDecode, Run, Ints;
    n := Moves(code, pool, stop, base, pc, SetLocal(k), values, frame, values, frame[k := values[|values| - 1]], m);
  }

  lemma {:induction false} Drops(code: seq<byte>, pool: seq<int>, stop: nat, base: seq<Value>, pc: nat, v: seq<int>, frame: seq<int>, m: nat) returns (n: nat)
    requires FastDecode(code, pc) == Some(Pop) && |v| == 1
    ensures Run(FastReader(code), stop, pool, Running(pc, base + Ints(v), Ints(frame)), n)
            == Run(FastReader(code), stop, pool, Running(pc + 1, base + Ints([]), Ints(frame)), m)
  {
    hide FastDecode, Run, Ints;
    assert v[..0] == [];
    n := Moves(code, pool, stop, base, pc, Pop, v, frame, [], frame, m);
  }

  lemma {:induction false} NoInts(base: seq<Value>)
    ensures base + Ints([]) == base
  {
  }

  /** Both bodies begin with a local and a constant. */
  lemma {:induction false} Begins(code: seq<byte>, pool: seq<int>, stop: nat, base: seq<Value>, f: seq<int>, vx: seq<int>, vxc: seq<int>, m: nat)
    returns (n: nat)
    requires FastDecode(code, 0) == Some(GetLocal(0)) && FastDecode(code, 2) == Some(Constant(0))
    requires pool != [] && Fits(pool[0]) && f != [] && vx == [] + [f[0]] && vxc == vx + [pool[0]]
    ensures Run(FastReader(code), stop, pool, Running(0, base, Ints(f)), n)
            == Run(FastReader(code), stop, pool, Running(5, base + Ints(vxc), Ints(f)), m)
  {
    hide *;
    NoInts(base);
    n := Pushes(code, pool, stop, base, 2, 0, vx, f, m);
    n := Loads(code, pool, stop, base, 0, 0, [], f, n);
  }

  // ---------------------------------------------------------------- a stale read

  /** y = x + (x = c) */
  function StaleBody(): seq<byte> {
    [37, 0, 0, 0, 0, 38, 0, 5, 38, 1, 1]
  }

  function StaleList(c: int64): seq<V.Assignment> {
    [V.Assignment(0, A.Const(c)), V.Assignment(1, A.Bin(A.Add, A.Local(0), A.Const(c)))]
  }

  lemma {:induction false} StaleDecodes()
    ensures var code := StaleBody();
            && FastDecode(code, 0) == Some(GetLocal(0)) && FastDecode(code, 2) == Some(Constant(0)) && FastDecode(code, 5) == Some(SetLocal(0))
            && FastDecode(code, 7) == Some(Binary(OpAdd)) && FastDecode(code, 8) == Some(SetLocal(1)) && FastDecode(code, 10) == Some(Pop)
  {
  }

  lemma {:induction false} StaleParses(c: int64)
    ensures ParseFrom(StaleBody(), [c], 11, Parse(0, [], [])) == Some(StaleList(c))
  {
    StaleOperands(c);
    var code, a, sum := StaleBody(), V.Assignment(0, A.Const(c)), A.Bin(A.Add, A.Local(0), A.Const(c));
    var b := V.Assignment(1, sum);
    StaleDecodes();
    hide FastDecode, ParseFrom;
    assert [a] + [b] == [a, b] && [sum][..0] == [];
    Parses(code, [c], 11, Parse(8, [sum], [a]), SetLocal(1));
    Parses(code, [c], 11, Parse(10, [sum], [a, b]), Pop);
    EndParses(code, [c], 11, Parse(11, [], [a, b]));
  }

  lemma {:induction false} StaleOperands(c: int64)
    ensures ParseFrom(StaleBody(), [c], 11, Parse(0, [], []))
            == ParseFrom(StaleBody(), [c], 11, Parse(8, [A.Bin(A.Add, A.Local(0), A.Const(c))], [V.Assignment(0, A.Const(c))]))
  {
    var code := StaleBody();
    StaleDecodes();
    hide FastDecode, ParseFrom;
    var x, y := A.Local(0), A.Const(c);
    var a := V.Assignment(0, y);
    assert [] + [x] == [x] && [x] + [y] == [x, y] && [x, y][..0] + [A.Bin(A.Add, x, y)] == [A.Bin(A.Add, x, y)] && [] + [a] == [a];
    Parses(code, [c], 11, Parse(0, [], []), GetLocal(0));
    Parses(code, [c], 11, Parse(2, [x], []), Constant(0));
    Parses(code, [c], 11, Parse(5, [x, y], []), SetLocal(0));
    Parses(code, [c], 11, Parse(7, [x, y], [a]), Binary(OpAdd));
  }

  lemma {:induction false} EndParses(code: seq<byte>, pool: seq<int>, end: nat, s: Parse)
    requires s.pos == end <= |code| && s.stack == []
    ensures ParseFrom(code, pool, end, s) == Some(s.found)
  {
  }

  lemma {:induction false} StaleRuns(c: int64, stop: nat, base: seq<Value>, x: int, y: int) returns (n: nat)
    ensures Run(FastReader(StaleBody()), stop, [c], Running(0, base, Ints([x, y])), n) == Running(11, base, Ints([c, x + c]))
  {
    var f: seq<int>, vx: seq<int>, vxc: seq<int>, sum: seq<int> := [x, y], [x], [x, c], [x + c];
    StaleDecodes();
    assert [] + [x] == vx && vx + [c] == vxc && f[0 := c][1 := x + c] == [c, x + c];
    n := StaleSteps(StaleBody(), [c], stop, base, f, vx, vxc, sum);
  }

  lemma {:induction false} StaleSteps(code: seq<byte>, pool: seq<int>, stop: nat, base: seq<Value>, f: seq<int>, vx: seq<int>, vxc: seq<int>,
                                      sum: seq<int>) returns (n: nat)
    requires FastDecode(code, 0) == Some(GetLocal(0)) && FastDecode(code, 2) == Some(Constant(0)) && FastDecode(code, 5) == Some(SetLocal(0))
    requires FastDecode(code, 7) == Some(Binary(OpAdd)) && FastDecode(code, 8) == Some(SetLocal(1)) && FastDecode(code, 10) == Some(Pop)
    requires pool != [] && Fits(pool[0]) && |f| == 2 && vx == [] + [f[0]] && vxc == vx + [pool[0]] && |vxc| == 2 && |sum| == 1
    requires vxc[1] == pool[0] && sum[0] == vxc[0] + vxc[1]
    ensures Run(FastReader(code), stop, pool, Running(0, base, Ints(f)), n) == Running(11, base, Ints(f[0 := pool[0]][1 := sum[0]]))
  {
    var g := f[0 := vxc[1]];
    hide *;
    n := SumSteps(code, pool, stop, base, g, vxc, sum);
    n := Stores(code, pool, stop, base, 5, 0, vxc, f, n);
    n := Begins(code, pool, stop, base, f, vx, vxc, n);
  }

  lemma {:induction false} SumSteps(code: seq<byte>, pool: seq<int>, stop: nat, base: seq<Value>, g: seq<int>, vxc: seq<int>, sum: seq<int>)
    returns (n: nat)
    requires FastDecode(code, 7) == Some(Binary(OpAdd)) && FastDecode(code, 8) == Some(SetLocal(1)) && FastDecode(code, 10) == Some(Pop)
    requires |g| == 2 && |vxc| == 2 && |sum| == 1 && sum[0] == vxc[0] + vxc[1]
    ensures Run(FastReader(code), stop, pool, Running(7, base + Ints(vxc), Ints(g)), n) == Running(11, base, Ints(g[1 := sum[0]]))
  {
    var h := g[1 := sum[0]];
    assert OpOf(OpAdd) == Some(A.Add) && A.RubyOp(A.Add, vxc[0], vxc[1]) == Some(sum[0]);
    hide *;
    NoInts(base);
    n := 0;
    RunNothing(code, stop, pool, Running(11, base + Ints([]), Ints(h)));
    n := Drops(code, pool, stop, base, 10, sum, h, n);
    n := Stores(code, pool, stop, base, 8, 1, sum, g, n);
    n := Operates(code, pool, stop, base, 7, OpAdd, vxc, sum, g, n);
  }

  lemma {:induction false} StaleListRuns(c: int64, x: int, y: int)
    ensures W.InFrame(StaleList(c), 2) && W.RubyBody(StaleList(c), [x, y], map[]) == Some([c, c + c])
  {
    var list := StaleList(c);
    var f, g, h: seq<int> := [x, y], [c, y], [c, c + c];
    assert f[0 := c] == g && g[1 := c + c] == h;
    var e := list[1].expr;
    assert A.RubyEval(e.left, g, map[]) == Some(c as int) && A.RubyEval(e.right, g, map[]) == Some(c as int);
    assert A.RubyEval(e, g, map[]) == Some(c + c) && A.RubyEval(list[0].expr, f, map[]) == Some(c as int);
    assert list[1..] == [list[1]] && list[1..][1..] == [];
    assert W.RubyBody(list[1..], g, map[]) == Some(h);
  }

  /** y = x + (x = c), for every c: the parser accepts it and reads y = c + c. The machine computes the old x plus c; the two agree if
      and only if the store does not change x. */
  lemma {:induction false} StaleReadIff(c: int64, stop: nat, base: seq<Value>, x: int, y: int) returns (n: nat)
    ensures ParseFrom(StaleBody(), [c], 11, Parse(0, [], [])) == Some(StaleList(c)) && W.InFrame(StaleList(c), 2)
    ensures !Clean(StaleBody(), [c], 11, Parse(0, [], []), [], 2)
    ensures Run(FastReader(StaleBody()), stop, [c], Running(0, base, Ints([x, y])), n) == Running(11, base, Ints([c, x + c]))
    ensures Running(11, base, Ints([c, x + c])) == AfterBody(11, base, W.RubyBody(StaleList(c), [x, y], map[])) <==> x == c
  {
    StaleParses(c);
    n := StaleRuns(c, stop, base, x, y);
    StaleListRuns(c, x, y);
    DifferentInts(c, x + c, c + c);
    hide Run, ParseFrom;
    StaleIsNotClean(c);
  }

  lemma {:induction false} CleanNext(code: seq<byte>, pool: seq<int>, end: nat, s: Parse, marks: seq<Mark>, size: nat, i: Instr)
    requires s.pos < end <= |code| && |marks| == |s.stack| && FastDecode(code, s.pos) == Some(i) && Clean(code, pool, end, s, marks, size)
    ensures Allowed(i, pool, |s.stack|) && s.pos + Width(i) <= end && CleanStep(i, pool, s, marks, size)
    ensures Clean(code, pool, end, Symbolic(i, pool, s), NextMarks(i, pool, s, marks), size)
  {
    hide FastDecode;
  }

  lemma {:induction false} StaleIsNotClean(c: int64)
    ensures !Clean(StaleBody(), [c], 11, Parse(0, [], []), [], 2)
  {
    var code, sound := StaleBody(), Mark(false, true);
    StaleDecodes();
    hide FastDecode, Clean;
    if Clean(code, [c], 11, Parse(0, [], []), [], 2) {
      var x, y := A.Local(0), A.Const(c);
      var a := V.Assignment(0, y);
      assert [] + [x] == [x] && [x] + [y] == [x, y] && [x, y][..0] + [A.Bin(A.Add, x, y)] == [A.Bin(A.Add, x, y)] && [] + [a] == [a];
      assert [] + [sound] == [sound] && [sound] + [sound] == [sound, sound];
      CleanNext(code, [c], 11, Parse(0, [], []), [], 2, GetLocal(0));
      CleanNext(code, [c], 11, Parse(2, [x], []), [sound], 2, Constant(0));
      CleanNext(code, [c], 11, Parse(5, [x, y], []), [sound, sound], 2, SetLocal(0));
      var marks := NextMarks(SetLocal(0), [c], Parse(5, [x, y], []), [sound, sound]);
      assert |marks| == 2 && marks[0].stale;
      CleanNext(code, [c], 11, Parse(7, [x, y], [a]), marks, 2, Binary(OpAdd));
      var last := NextMarks(Binary(OpAdd), [c], Parse(7, [x, y], [a]), marks);
      assert |last| == 1 && last[0].stale;
      CleanNext(code, [c], 11, Parse(8, [A.Bin(A.Add, x, y)], [a]), last, 2, SetLocal(1));
    }
  }

  lemma {:induction false} DifferentInts(c: int, v: int, w: int)
    ensures Ints([c, v]) == Ints([c, w]) <==> v == w
  {
    assert Ints([c, v])[1] == IntV(v) && Ints([c, w])[1] == IntV(w);
  }

  // ---------------------------------------------------------------- a dropped expression

  /** x % d; x = 1 */
  function DroppedBody(): seq<byte> {
    [37, 0, 0, 0, 0, 9, 1, 0, 0, 1, 38, 0, 1]
  }

  lemma {:induction false} DroppedDecodes()
    ensures var code := DroppedBody();
            && FastDecode(code, 0) == Some(GetLocal(0)) && FastDecode(code, 2) == Some(Constant(0)) && FastDecode(code, 5) == Some(Binary(OpMod))
            && FastDecode(code, 6) == Some(Pop) && FastDecode(code, 7) == Some(Constant(1)) && FastDecode(code, 10) == Some(SetLocal(0))
            && FastDecode(code, 12) == Some(Pop)
  {
  }

  lemma {:induction false} DroppedParses(d: int64)
    ensures ParseFrom(DroppedBody(), [d, 1], 13, Parse(0, [], [])) == Some([V.Assignment(0, A.Const(1))])
  {
    DroppedExpression(d);
    var code, pool := DroppedBody(), [d as int, 1];
    DroppedDecodes();
    hide FastDecode, ParseFrom;
    var one := A.Const(1);
    var a := V.Assignment(0, one);
    assert [] + [one] == [one] && [one][..0] == [] && [] + [a] == [a];
    Parses(code, pool, 13, Parse(7, [], []), Constant(1));
    Parses(code, pool, 13, Parse(10, [one], []), SetLocal(0));
    Parses(code, pool, 13, Parse(12, [one], [a]), Pop);
    EndParses(code, pool, 13, Parse(13, [], [a]));
  }

  lemma {:induction false} DroppedExpression(d: int64)
    ensures ParseFrom(DroppedBody(), [d, 1], 13, Parse(0, [], [])) == ParseFrom(DroppedBody(), [d, 1], 13, Parse(7, [], []))
  {
    var code, pool := DroppedBody(), [d as int, 1];
    DroppedDecodes();
    hide FastDecode, ParseFrom;
    var x, y := A.Local(0), A.Const(d);
    var e := A.Bin(A.Mod, x, y);
    assert [] + [x] == [x] && [x] + [y] == [x, y] && [x, y][..0] + [e] == [e] && [e][..0] == [];
    Parses(code, pool, 13, Parse(0, [], []), GetLocal(0));
    Parses(code, pool, 13, Parse(2, [x], []), Constant(0));
    Parses(code, pool, 13, Parse(5, [x, y], []), Binary(OpMod));
    Parses(code, pool, 13, Parse(6, [e], []), Pop);
  }

  /** x % d; x = 1, for every d: the parser accepts it and drops the first statement. The machine raises if and only if d is 0; the
      list never does. */
  lemma {:induction false} DroppedRaiseIff(d: int64, stop: nat, base: seq<Value>, x: int) returns (n: nat)
    ensures ParseFrom(DroppedBody(), [d, 1], 13, Parse(0, [], [])) == Some([V.Assignment(0, A.Const(1))])
    ensures W.InFrame([V.Assignment(0, A.Const(1))], 1) && W.RubyBody([V.Assignment(0, A.Const(1))], [x], map[]) == Some([1])
    ensures Run(FastReader(DroppedBody()), stop, [d, 1], Running(0, base, Ints([x])), n)
            == if d == 0 then Raised else Running(13, base, Ints([1]))
  {
    DroppedParses(d);
    DroppedListRuns(x);
    if d == 0 {
      n := DroppedRaises(stop, base, x);
    } else {
      n := DroppedRuns(d, stop, base, x);
    }
  }

  lemma {:induction false} DroppedListRuns(x: int)
    ensures W.InFrame([V.Assignment(0, A.Const(1))], 1) && W.RubyBody([V.Assignment(0, A.Const(1))], [x], map[]) == Some([1])
  {
    var list := [V.Assignment(0, A.Const(1))];
    var f, g: seq<int> := [x], [1];
    assert list[1..] == [] && f[0 := 1] == g && A.RubyEval(list[0].expr, f, map[]) == Some(1);
  }

  lemma {:induction false} DroppedRaises(stop: nat, base: seq<Value>, x: int) returns (n: nat)
    ensures Run(FastReader(DroppedBody()), stop, [0, 1], Running(0, base, Ints([x])), n) == Raised
  {
    DroppedDecodes();
    var f: seq<int>, vx: seq<int>, vxd: seq<int> := [x], [x], [x, 0];
    assert [] + [x] == vx && vx + [0] == vxd;
    n := RaisingSteps(DroppedBody(), [0, 1], stop, base, f, vx, vxd);
  }

  lemma {:induction false} RaisingSteps(code: seq<byte>, pool: seq<int>, stop: nat, base: seq<Value>, f: seq<int>, vx: seq<int>, vxd: seq<int>)
    returns (n: nat)
    requires FastDecode(code, 0) == Some(GetLocal(0)) && FastDecode(code, 2) == Some(Constant(0)) && FastDecode(code, 5) == Some(Binary(OpMod))
    requires pool != [] && pool[0] == 0 && f != [] && vx == [] + [f[0]] && vxd == vx + [pool[0]] && |vxd| == 2 && vxd[1] == 0
    ensures Run(FastReader(code), stop, pool, Running(0, base, Ints(f)), n) == Raised
  {
    assert Fits(pool[0]);
    hide *;
    n := RaisesHere(code, pool, stop, base, 5, vxd, f);
    n := Begins(code, pool, stop, base, f, vx, vxd, n);
  }

  lemma {:induction false} DroppedRuns(d: int64, stop: nat, base: seq<Value>, x: int) returns (n: nat)
    requires d != 0
    ensures Run(FastReader(DroppedBody()), stop, [d, 1], Running(0, base, Ints([x])), n) == Running(13, base, Ints([1]))
  {
    DroppedDecodes();
    var f: seq<int>, vx: seq<int>, vxd: seq<int>, one: seq<int> := [x], [x], [x, d], [1];
    var r: seq<int> := [A.RubyOp(A.Mod, x, d).value];
    assert [] + [x] == vx && vx + [d] == vxd && [] + [1] == one && f[0 := 1] == one;
    n := DroppedSteps(DroppedBody(), [d, 1], stop, base, f, vx, vxd, r, one);
  }

  lemma {:induction false} DroppedSteps(code: seq<byte>, pool: seq<int>, stop: nat, base: seq<Value>, f: seq<int>, vx: seq<int>, vxd: seq<int>,
                                        r: seq<int>, one: seq<int>) returns (n: nat)
    requires FastDecode(code, 0) == Some(GetLocal(0)) && FastDecode(code, 2) == Some(Constant(0)) && FastDecode(code, 5) == Some(Binary(OpMod))
    requires FastDecode(code, 6) == Some(Pop) && FastDecode(code, 7) == Some(Constant(1)) && FastDecode(code, 10) == Some(SetLocal(0))
    requires FastDecode(code, 12) == Some(Pop) && |pool| == 2 && Fits(pool[0]) && Fits(pool[1]) && |f| == 1
    requires vx == [] + [f[0]] && vxd == vx + [pool[0]] && |vxd| == 2 && one == [] + [pool[1]] && |one| == 1 && |r| == 1
    requires A.RubyOp(A.Mod, vxd[0], vxd[1]) == Some(r[0])
    ensures Run(FastReader(code), stop, pool, Running(0, base, Ints(f)), n) == Running(13, base, Ints(f[0 := one[0]]))
  {
    assert OpOf(OpMod) == Some(A.Mod);
    hide *;
    NoInts(base);
    n := StoredSteps(code, pool, stop, base, f, one);
    n := Drops(code, pool, stop, base, 6, r, f, n);
    n := Operates(code, pool, stop, base, 5, OpMod, vxd, r, f, n);
    n := Begins(code, pool, stop, base, f, vx, vxd, n);
  }

  lemma {:induction false} StoredSteps(code: seq<byte>, pool: seq<int>, stop: nat, base: seq<Value>, f: seq<int>, one: seq<int>) returns (n: nat)
    requires FastDecode(code, 7) == Some(Constant(1)) && FastDecode(code, 10) == Some(SetLocal(0)) && FastDecode(code, 12) == Some(Pop)
    requires |pool| == 2 && Fits(pool[1]) && |f| == 1 && one == [] + [pool[1]] && |one| == 1
    ensures Run(FastReader(code), stop, pool, Running(7, base, Ints(f)), n) == Running(13, base, Ints(f[0 := one[0]]))
  {
    var g := f[0 := one[0]];
    hide *;
    NoInts(base);
    n := 0;
    RunNothing(code, stop, pool, Running(13, base + Ints([]), Ints(g)));
    n := Drops(code, pool, stop, base, 12, one, g, n);
    n := Stores(code, pool, stop, base, 10, 0, one, f, n);
    n := Pushes(code, pool, stop, base, 7, 1, [], f, n);
  }

  lemma {:induction false} RaisesHere(code: seq<byte>, pool: seq<int>, stop: nat, base: seq<Value>, pc: nat, values: seq<int>, frame: seq<int>)
    returns (n: nat)
    requires FastDecode(code, pc) == Some(Binary(OpMod)) && |values| >= 2 && values[|values| - 1] == 0
    ensures Run(FastReader(code), stop, pool, Running(pc, base + Ints(values), Ints(frame)), n) == Raised
  {
    ExecutesInts(Binary(OpMod), pool, pc, base, values, frame);
    assert NextValues(Binary(OpMod), pool, values, frame).None?;
    hide *;
    n := RaisesNow(code, pool, stop, Running(pc, base + Ints(values), Ints(frame)), Binary(OpMod));
  }
}
