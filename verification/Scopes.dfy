/** Which names a program reads and assigns, and how the compiler's tables grow while it is compiled: a slot or a
    constant index, once given, never changes. */
module Scopes {
  import opened Bytecode
  import opened CodeGen

  // ---------------------------------------------------------------- names in scope

  /** The locals an expression assigns. */
  function Assigned(e: Expr): set<string>
    decreases e, 1
  {
    match e
    case Infix(_, _, _) => AssignedPair(e)
    case And(_, _) => AssignedPair(e)
    case Or(_, _) => AssignedPair(e)
    case Not(x) => Assigned(x)
    case Minus(x) => Assigned(x)
    case Ternary(_, _, _) => AssignedControl(e)
    case If(_, _, _, _) => AssignedControl(e)
    case Assign(name, v) => {name} + Assigned(v)
    case OpAssign(name, _, v) => {name} + Assigned(v)
    case LogicalAssign(name, _, v) => {name} + Assigned(v)
    case While(_, _) => AssignedControl(e)
    case _ => {}
  }

  function AssignedPair(e: Expr): set<string>
    requires e.Infix? || e.And? || e.Or?
    decreases e, 0
  {
    Assigned(e.left) + Assigned(e.right)
  }

  function AssignedControl(e: Expr): set<string>
    requires e.Ternary? || e.If? || e.While?
    decreases e, 0
  {
    if e.Ternary? then Assigned(e.cond) + Assigned(e.thn) + Assigned(e.els)
    else if e.If? then Assigned(e.cond) + AssignedBlock(e.body) + AssignedChain(e.rest)
    else Assigned(e.cond) + AssignedBlock(e.body)
  }

  function AssignedBlock(b: Block): set<string>
    decreases b
  {
    match b
    case Empty => {}
    case Stmt(e, rest) => Assigned(e) + AssignedBlock(rest)
  }

  function AssignedChain(c: Chain): set<string>
    decreases c
  {
    match c
    case NoElse => {}
    case Else(b) => AssignedBlock(b)
    case ElsIf(cond, body, rest) => Assigned(cond) + AssignedBlock(body) + AssignedChain(rest)
  }

  /** Every name read as a local was assigned earlier in the text. Any other name is a method call to the compiler. */
  predicate Scoped(e: Expr, names: set<string>)
    decreases e, 1
  {
    match e
    case Var(name) => name in names
    case Infix(_, _, _) => ScopedPair(e, names)
    case And(_, _) => ScopedPair(e, names)
    case Or(_, _) => ScopedPair(e, names)
    case Not(x) => Scoped(x, names)
    case Minus(x) => Scoped(x, names)
    case Ternary(_, _, _) => ScopedControl(e, names)
    case If(_, _, _, _) => ScopedControl(e, names)
    case Assign(name, v) => Scoped(v, names + {name})
    case OpAssign(name, _, v) => Scoped(v, names + {name})
    case LogicalAssign(name, _, v) => Scoped(v, names + {name})
    case While(_, _) => ScopedControl(e, names)
    case _ => true
  }

  predicate ScopedPair(e: Expr, names: set<string>)
    requires e.Infix? || e.And? || e.Or?
    decreases e, 0
  {
    Scoped(e.left, names) && Scoped(e.right, names + Assigned(e.left))
  }

  predicate ScopedControl(e: Expr, names: set<string>)
    requires e.Ternary? || e.If? || e.While?
    decreases e, 0
  {
    && Scoped(e.cond, names)
    && (e.Ternary? ==> Scoped(e.thn, names + Assigned(e.cond)) && Scoped(e.els, names + Assigned(e.cond) + Assigned(e.thn)))
    && (!e.Ternary? ==> ScopedBlock(e.body, names + Assigned(e.cond)))
    && (e.If? ==> ScopedChain(e.rest, names + Assigned(e.cond) + AssignedBlock(e.body)))
  }

  predicate ScopedBlock(b: Block, names: set<string>)
    decreases b
  {
    match b
    case Empty => true
    case Stmt(e, rest) => Scoped(e, names) && ScopedBlock(rest, names + Assigned(e))
  }

  predicate ScopedChain(c: Chain, names: set<string>)
    decreases c
  {
    match c
    case NoElse => true
    case Else(b) => ScopedBlock(b, names)
    case ElsIf(cond, body, rest) =>
      && Scoped(cond, names) && ScopedBlock(body, names + Assigned(cond))
      && ScopedChain(rest, names + Assigned(cond) + AssignedBlock(body))
  }

  // ---------------------------------------------------------------- how the tables grow

  function Names(t: Tables): set<string> {
    set x | x in t.names
  }

  /** Tables only grow at the end, the names defined are exactly the ones assigned, and no entry is entered twice. */
  ghost predicate Grows(t: Tables, u: Tables, added: set<string>) {
    && t.names <= u.names && t.pool <= u.pool && Names(u) == Names(t) + added
    && (Distinct(t.names) ==> Distinct(u.names)) && (Distinct(t.pool) ==> Distinct(u.pool))
  }

  lemma {:induction false} GrowsTrans(t: Tables, u: Tables, v: Tables, a: set<string>, b: set<string>)
    requires Grows(t, u, a) && Grows(u, v, b)
    ensures Grows(t, v, a + b)
  {
  }

  lemma {:induction false} GrowsLocal(t: Tables, name: string)
    ensures Grows(t, WithLocal(t, name), {name})
  {
    if name !in t.names { assert forall x :: x in t.names + [name] <==> x in t.names || x == name; }
  }

  lemma {:induction false} GrowsConstant(t: Tables, v: int)
    ensures Grows(t, WithConstant(t, v), {})
  {
  }

  /** Code generation extends the tables by exactly the locals assigned. */
  lemma {:induction false} GenGrows(e: Expr, base: nat, t: Tables)
    ensures Grows(t, GenExpr(e, base, t).tables, Assigned(e))
    decreases e, 1
  {
    if e.If? { GenGrowsIf(e, base, t); }
    else if e.While? { GenGrowsWhile(e, base, t); }
    else if e.Ternary? { GenGrowsTernary(e, base, t); }
    else if e.Assign? || e.OpAssign? || e.LogicalAssign? { GenGrowsAssign(e, base, t); }
    else if e.Infix? || e.And? || e.Or? { GenGrowsPair(e, base, t); }
    else if e.Not? || e.Minus? { GenGrows(e.operand, base, t); NodeUnfolds(e, base, t); }
    else if e.Int? { GrowsConstant(t, e.number); }
  }

  lemma {:induction false} AssignedUnfolds(e: Expr)
    requires IsNode(e)
    ensures (e.Infix? || e.And? || e.Or?) ==> Assigned(e) == AssignedPair(e)
    ensures (e.Ternary? || e.If? || e.While?) ==> Assigned(e) == AssignedControl(e)
    ensures IsStore(e) ==> Assigned(e) == {e.name} + Assigned(e.value)
  {
  }

  lemma {:induction false} GenGrowsPair(e: Expr, base: nat, t: Tables)
    requires e.Infix? || e.And? || e.Or?
    ensures Grows(t, GenExpr(e, base, t).tables, Assigned(e))
    decreases e, 0
  {
    hide GenExpr, Grows, Assigned, Size;
    NodeUnfolds(e, base, t);
    AssignedUnfolds(e);
    var x := GenExpr(e.left, base, t);
    var q := base + Size(x.code) + (if e.Infix? then 0 else 5);
    GenGrows(e.left, base, t);
    GenGrows(e.right, q, x.tables);
    GrowsTrans(t, x.tables, GenExpr(e.right, q, x.tables).tables, Assigned(e.left), Assigned(e.right));
  }

  lemma {:induction false} GenGrowsAssign(e: Expr, base: nat, t: Tables)
    requires e.Assign? || e.OpAssign? || e.LogicalAssign?
    ensures Grows(t, GenExpr(e, base, t).tables, Assigned(e))
    decreases e, 0
  {
    hide GenExpr, Grows, Assigned, Size, WithLocal;
    var u := WithLocal(t, e.name);
    var q := base + (if e.Assign? then 0 else if e.OpAssign? then 2 else 7);
    GrowsLocal(t, e.name);
    GenGrows(e.value, q, u);
    GrowsTrans(t, u, GenExpr(e.value, q, u).tables, {e.name}, Assigned(e.value));
    NodeUnfolds(e, base, t);
    AssignedUnfolds(e);
  }

  lemma {:induction false} GenGrowsWhile(e: Expr, base: nat, t: Tables)
    requires e.While?
    ensures Grows(t, GenExpr(e, base, t).tables, Assigned(e))
    decreases e, 0
  {
    hide GenExpr, GenBlock, Grows, Assigned, AssignedBlock, Size;
    NodeUnfolds(e, base, t);
    AssignedUnfolds(e);
    var x := GenExpr(e.cond, base, t);
    var q := base + Size(x.code) + 6;
    GenGrows(e.cond, base, t);
    GenBlockGrows(e.body, q, x.tables);
    GrowsTrans(t, x.tables, GenBlock(e.body, q, x.tables).tables, Assigned(e.cond), AssignedBlock(e.body));
  }

  lemma {:induction false} GenGrowsTernary(e: Expr, base: nat, t: Tables)
    requires e.Ternary?
    ensures Grows(t, GenExpr(e, base, t).tables, Assigned(e))
    decreases e, 0
  {
    hide GenExpr, Grows, Assigned, Size;
    NodeUnfolds(e, base, t);
    AssignedUnfolds(e);
    var x := GenExpr(e.cond, base, t);
    var y := GenExpr(e.thn, base + Size(x.code) + 3, x.tables);
    var q := base + Size(x.code) + Size(y.code) + 6;
    GenGrows(e.cond, base, t);
    GenGrows(e.thn, base + Size(x.code) + 3, x.tables);
    GenGrows(e.els, q, y.tables);
    GrowsTrans(t, x.tables, y.tables, Assigned(e.cond), Assigned(e.thn));
    GrowsTrans(t, y.tables, GenExpr(e.els, q, y.tables).tables, Assigned(e.cond) + Assigned(e.thn), Assigned(e.els));
  }

  lemma {:induction false} GenGrowsIf(e: Expr, base: nat, t: Tables)
    requires e.If?
    ensures Grows(t, GenExpr(e, base, t).tables, Assigned(e))
    decreases e, 0
  {
    hide GenExpr, GenValue, GenChain, Grows, Assigned, AssignedBlock, AssignedChain, Size;
    NodeUnfolds(e, base, t);
    AssignedUnfolds(e);
    var x := GenExpr(e.cond, base, t);
    var y := GenValue(e.body, base + Size(x.code) + 3, x.tables);
    var q := base + Size(x.code) + Size(y.code) + 6;
    var end := q + Size(GenChain(e.rest, q, y.tables, 0).code);
    GenGrows(e.cond, base, t);
    GenValueGrows(e.body, base + Size(x.code) + 3, x.tables);
    GenChainGrows(e.rest, q, y.tables, end);
    GrowsTrans(t, x.tables, y.tables, Assigned(e.cond), AssignedBlock(e.body));
    GrowsTrans(t, y.tables, GenChain(e.rest, q, y.tables, end).tables, Assigned(e.cond) + AssignedBlock(e.body), AssignedChain(e.rest));
  }

  lemma {:induction false} GenBlockGrows(b: Block, base: nat, t: Tables)
    ensures Grows(t, GenBlock(b, base, t).tables, AssignedBlock(b))
    decreases b
  {
    if b.Stmt? {
      var x := GenExpr(b.first, base, t);
      GenGrows(b.first, base, t);
      GenBlockGrows(b.rest, base + Size(x.code) + 1, x.tables);
      assert GenBlock(b, base, t) == GenStatement(b, base, t);
      GrowsTrans(t, x.tables, GenBlock(b, base, t).tables, Assigned(b.first), AssignedBlock(b.rest));
    }
  }

  lemma {:induction false} GenValueGrows(b: Block, base: nat, t: Tables)
    ensures Grows(t, GenValue(b, base, t).tables, AssignedBlock(b))
    decreases b
  {
    if b.Stmt? {
      var x := GenExpr(b.first, base, t);
      GenGrows(b.first, base, t);
      if b.rest.Stmt? {
        GenValueGrows(b.rest, base + Size(x.code) + 1, x.tables);
        assert GenValue(b, base, t) == GenValueStatement(b, base, t);
        GrowsTrans(t, x.tables, GenValue(b, base, t).tables, Assigned(b.first), AssignedBlock(b.rest));
      }
    }
  }

  lemma {:induction false} GenChainGrows(c: Chain, base: nat, t: Tables, target: nat)
    ensures Grows(t, GenChain(c, base, t, target).tables, AssignedChain(c))
    decreases c
  {
    match c
    case NoElse =>
    case Else(b) => GenValueGrows(b, base, t);
    case ElsIf(cond, body, rest) =>
      var x := GenExpr(cond, base, t);
      var p := base + Size(x.code) + 3;
      var y := GenValue(body, p, x.tables);
      GenGrows(cond, base, t);
      GenValueGrows(body, p, x.tables);
      GrowsTrans(t, x.tables, y.tables, Assigned(cond), AssignedBlock(body));
      GenChainGrows(rest, base + Size(x.code) + Size(y.code) + 6, y.tables, target);
      assert GenChain(c, base, t, target) == GenElsIf(c, base, t, target);
      GrowsTrans(t, y.tables, GenChain(c, base, t, target).tables, Assigned(cond) + AssignedBlock(body), AssignedChain(rest));
  }

  // ---------------------------------------------------------------- tables and their extensions

  /** u is t with more names and constants at the end. */
  predicate Extends(t: Tables, u: Tables) {
    t.names <= u.names && t.pool <= u.pool
  }

  lemma {:induction false} ExtendsTrans(t: Tables, u: Tables, v: Tables)
    requires Extends(t, u) && Extends(u, v)
    ensures Extends(t, v)
  {
  }

  /** A defined name keeps its slot, and a pooled constant its index, in every extension. */
  lemma {:induction false} SameSlot(name: string, t: Tables, u: Tables)
    requires Extends(t, u) && name in t.names
    ensures name in u.names && IndexOf(u.names, name) == IndexOf(t.names, name)
  {
    PrefixIndex(t.names, u.names, name);
  }

  lemma {:induction false} PrefixIndex(s: seq<string>, u: seq<string>, name: string)
    requires s <= u && name in s
    ensures name in u && IndexOf(u, name) == IndexOf(s, name)
  {
    assert s[0] == u[0];
    if s[0] != name { PrefixIndex(s[1..], u[1..], name); }
  }

  lemma {:induction false} SameConstant(v: int, t: Tables, u: Tables)
    requires Extends(t, u) && v in t.pool
    ensures var k := IndexOf(t.pool, v); k < |u.pool| && u.pool[k] == v
  {
  }

  // ---------------------------------------------------------------- a part of a program

  /** e is compiled at `base` against the tables t, every name it reads is defined, and the program's tables extend
      the ones this leaves. */
  ghost predicate Linked(u: Tables, e: Expr, base: nat, t: Tables) {
    Scoped(e, Names(t)) && Extends(GenExpr(e, base, t).tables, u)
  }

  ghost predicate LinkedBlock(u: Tables, b: Block, base: nat, t: Tables) {
    ScopedBlock(b, Names(t)) && Extends(GenBlock(b, base, t).tables, u)
  }

  ghost predicate LinkedValue(u: Tables, b: Block, base: nat, t: Tables) {
    ScopedBlock(b, Names(t)) && Extends(GenValue(b, base, t).tables, u)
  }

  ghost predicate LinkedChain(u: Tables, c: Chain, base: nat, t: Tables, target: nat) {
    ScopedChain(c, Names(t)) && Extends(GenChain(c, base, t, target).tables, u)
  }

  /** The first of two parts is linked when the second one is. */
  lemma {:induction false} BeforeExpr(u: Tables, e: Expr, base: nat, t: Tables)
    requires Extends(GenExpr(e, base, t).tables, u)
    ensures Extends(t, u) && Names(GenExpr(e, base, t).tables) == Names(t) + Assigned(e)
  {
    GenGrows(e, base, t);
    ExtendsTrans(t, GenExpr(e, base, t).tables, u);
  }

  lemma {:induction false} BeforeBlock(u: Tables, b: Block, base: nat, t: Tables)
    requires Extends(GenBlock(b, base, t).tables, u)
    ensures Extends(t, u)
  {
    GenBlockGrows(b, base, t);
    ExtendsTrans(t, GenBlock(b, base, t).tables, u);
  }

  lemma {:induction false} BeforeValue(u: Tables, b: Block, base: nat, t: Tables)
    requires Extends(GenValue(b, base, t).tables, u)
    ensures Extends(t, u) && Names(GenValue(b, base, t).tables) == Names(t) + AssignedBlock(b)
  {
    GenValueGrows(b, base, t);
    ExtendsTrans(t, GenValue(b, base, t).tables, u);
  }

  lemma {:induction false} BeforeChain(u: Tables, c: Chain, base: nat, t: Tables, target: nat)
    requires Extends(GenChain(c, base, t, target).tables, u)
    ensures Extends(t, u)
  {
    GenChainGrows(c, base, t, target);
    ExtendsTrans(t, GenChain(c, base, t, target).tables, u);
  }

  lemma {:induction false} TernaryLinked(u: Tables, e: Expr, base: nat, t: Tables)
    requires e.Ternary? && Linked(u, e, base, t)
    ensures var x := GenExpr(e.cond, base, t);
            var q1 := base + Size(x.code) + 3;
            var y := GenExpr(e.thn, q1, x.tables);
            Linked(u, e.cond, base, t) && Linked(u, e.thn, q1, x.tables)
            && Linked(u, e.els, base + Size(x.code) + Size(y.code) + 6, y.tables)
  {
    hide Extends, Names, Size;
    assert ScopedControl(e, Names(t));
    NodeUnfolds(e, base, t);
    var x := GenExpr(e.cond, base, t);
    var q1 := base + Size(x.code) + 3;
    var y := GenExpr(e.thn, q1, x.tables);
    BeforeExpr(u, e.els, base + Size(x.code) + Size(y.code) + 6, y.tables);
    BeforeExpr(u, e.thn, q1, x.tables);
    BeforeExpr(u, e.cond, base, t);
  }

  lemma {:induction false} IfLinked(u: Tables, e: Expr, base: nat, t: Tables, end: nat)
    requires e.If? && Linked(u, e, base, t)
    requires var x := GenExpr(e.cond, base, t);
             var y := GenValue(e.body, base + Size(x.code) + 3, x.tables);
             var q2 := base + Size(x.code) + Size(y.code) + 6;
             end == q2 + Size(GenChain(e.rest, q2, y.tables, 0).code)
    ensures var x := GenExpr(e.cond, base, t);
            var q1 := base + Size(x.code) + 3;
            var y := GenValue(e.body, q1, x.tables);
            Linked(u, e.cond, base, t) && LinkedValue(u, e.body, q1, x.tables)
            && LinkedChain(u, e.rest, base + Size(x.code) + Size(y.code) + 6, y.tables, end)
  {
    hide Extends, Names, Size;
    assert ScopedControl(e, Names(t));
    NodeUnfolds(e, base, t);
    var x := GenExpr(e.cond, base, t);
    var q1 := base + Size(x.code) + 3;
    var y := GenValue(e.body, q1, x.tables);
    BeforeChain(u, e.rest, base + Size(x.code) + Size(y.code) + 6, y.tables, end);
    BeforeValue(u, e.body, q1, x.tables);
    BeforeExpr(u, e.cond, base, t);
  }

  lemma {:induction false} DefinedSlot(u: Tables, e: Expr, base: nat, t: Tables, name: string)
    requires Extends(GenExpr(e, base, WithLocal(t, name)).tables, u)
    ensures name in u.names
    ensures IndexOf(WithLocal(t, name).names, name) == IndexOf(u.names, name)
    ensures IndexOf(GenExpr(e, base, WithLocal(t, name)).tables.names, name) == IndexOf(u.names, name)
    ensures Names(WithLocal(t, name)) == Names(t) + {name}
  {
    var w := WithLocal(t, name);
    GrowsLocal(t, name);
    BeforeExpr(u, e, base, w);
    assert name in Names(w);
    SameSlot(name, w, u);
    GenGrows(e, base, w);
    assert name in Names(GenExpr(e, base, w).tables);
    SameSlot(name, GenExpr(e, base, w).tables, u);
  }

  lemma {:induction false} PairLinked(u: Tables, e: Expr, base: nat, t: Tables)
    requires (e.Infix? || e.And? || e.Or?) && Linked(u, e, base, t)
    ensures var x := GenExpr(e.left, base, t);
            Linked(u, e.left, base, t) && Linked(u, e.right, base + Size(x.code) + (if e.Infix? then 0 else 5), x.tables)
  {
    hide Extends, Names, Size;
    assert ScopedPair(e, Names(t));
    NodeUnfolds(e, base, t);
    var x := GenExpr(e.left, base, t);
    BeforeExpr(u, e.right, base + Size(x.code) + (if e.Infix? then 0 else 5), x.tables);
    BeforeExpr(u, e.left, base, t);
  }

  lemma {:induction false} WhileLinked(u: Tables, e: Expr, base: nat, t: Tables)
    requires e.While? && Linked(u, e, base, t)
    ensures var x := GenExpr(e.cond, base, t);
            Linked(u, e.cond, base, t) && LinkedBlock(u, e.body, base + Size(x.code) + 6, x.tables)
  {
    hide Extends, Names, Size;
    assert ScopedControl(e, Names(t));
    NodeUnfolds(e, base, t);
    var x := GenExpr(e.cond, base, t);
    BeforeBlock(u, e.body, base + Size(x.code) + 6, x.tables);
    BeforeExpr(u, e.cond, base, t);
  }

  lemma {:induction false} BlockLinked(u: Tables, b: Block, base: nat, t: Tables)
    requires b.Stmt? && LinkedBlock(u, b, base, t)
    ensures var x := GenExpr(b.first, base, t);
            Linked(u, b.first, base, t) && LinkedBlock(u, b.rest, base + Size(x.code) + 1, x.tables)
  {
    hide Extends, Names, Size;
    assert GenBlock(b, base, t) == GenStatement(b, base, t);
    var x := GenExpr(b.first, base, t);
    BeforeBlock(u, b.rest, base + Size(x.code) + 1, x.tables);
    BeforeExpr(u, b.first, base, t);
  }

  lemma {:induction false} ValueLinked(u: Tables, b: Block, base: nat, t: Tables)
    requires b.Stmt? && b.rest.Stmt? && LinkedValue(u, b, base, t)
    ensures var x := GenExpr(b.first, base, t);
            Linked(u, b.first, base, t) && LinkedValue(u, b.rest, base + Size(x.code) + 1, x.tables)
  {
    hide Extends, Names, Size;
    assert GenValue(b, base, t) == GenValueStatement(b, base, t);
    var x := GenExpr(b.first, base, t);
    BeforeValue(u, b.rest, base + Size(x.code) + 1, x.tables);
    BeforeExpr(u, b.first, base, t);
  }

  lemma {:induction false} ElsIfLinked(u: Tables, c: Chain, base: nat, t: Tables, target: nat)
    requires c.ElsIf? && LinkedChain(u, c, base, t, target)
    ensures var x := GenExpr(c.cond, base, t);
            var q1 := base + Size(x.code) + 3;
            var y := GenValue(c.body, q1, x.tables);
            Linked(u, c.cond, base, t) && LinkedValue(u, c.body, q1, x.tables)
            && LinkedChain(u, c.rest, base + Size(x.code) + Size(y.code) + 6, y.tables, target)
  {
    hide Extends, Names, Size;
    assert GenChain(c, base, t, target) == GenElsIf(c, base, t, target);
    var x := GenExpr(c.cond, base, t);
    var q1 := base + Size(x.code) + 3;
    var y := GenValue(c.body, q1, x.tables);
    BeforeChain(u, c.rest, base + Size(x.code) + Size(y.code) + 6, y.tables, target);
    BeforeValue(u, c.body, q1, x.tables);
    BeforeExpr(u, c.cond, base, t);
  }
}
