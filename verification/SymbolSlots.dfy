/** Different names are different variables. */
module SymbolSlots {
  // Slots are never reused, over every run of the operations on a chain of scopes.

  import opened Options
  import opened SymbolChain

  /** Locals and globals occupy a slot of the scope that defines them. */
  predicate Slotted(s: Symbol) {
    s.kind == Local || s.kind == Global
  }

  /** Occupied slots are below the next free one, no two names share one, and the slot of a captured symbol, and of no other, is
      remembered. */
  ghost predicate ScopeSlots(s: Scope) {
    && (forall n :: n in s.store && Slotted(s.store[n]) ==> s.store[n].index < s.max)
    && (forall m, n :: m in s.store && n in s.store && m != n && Slotted(s.store[m]) && Slotted(s.store[n]) ==>
          s.store[m].index != s.store[n].index)
    && (forall n :: n in s.store && s.store[n].kind == Free ==>
          s.store[n].index < |s.free| && s.store[n].scopeIndex == s.free[s.store[n].index].index)
    && (forall n :: n in s.store && s.store[n].kind != Free ==> s.store[n].scopeIndex == 0)
  }

  /** Only the outermost scope holds globals and builtins. */
  ghost predicate Slots(c: Chain) {
    c != [] ==> ScopeSlots(c[0]) && (|c| > 1 ==> forall n :: n in c[0].store ==> !Shared(c[0].store[n])) && Slots(c[1..])
  }

  function Root(c: Chain): Scope
    requires c != []
  {
    c[|c| - 1]
  }

  lemma {:induction false} SlotsAt(c: Chain, k: nat)
    requires Slots(c) && k < |c|
    ensures ScopeSlots(c[k])
  {
    if k > 0 { SlotsAt(c[1..], k - 1); }
  }

  // ---------------------------------------------------------------- distinct names

  lemma {:induction false} SharedAtRoot(c: Chain, name: string)
    requires Slots(c) && FindShared(c, name).Some?
    ensures c != [] && name in Root(c).store && Root(c).store[name] == FindShared(c, name).value && Shared(Root(c).store[name])
  {
    if !(name in c[0].store && Shared(c[0].store[name])) { SharedAtRoot(c[1..], name); }
  }

  /** The definition a name has lexically, as an entry of a scope. */
  lemma {:induction false} LexicalEntry(c: Chain, name: string)
    requires Slots(c) && Lexical(c, name).Some?
    ensures c != []
    ensures match Lexical(c, name).value
            case LocalAt(depth, index) =>
              && depth < |c|
              && var s := c[|c| - 1 - depth];
                 name in s.store && s.store[name].kind == Local && s.store[name].index == index
            case GlobalAt(index) => name in Root(c).store && Root(c).store[name].kind == Global && Root(c).store[name].index == index
            case BuiltinAt(index) => name in Root(c).store && Root(c).store[name].kind == Builtin && Root(c).store[name].index == index
  {
    if Defines(c[0], name) {
    } else if c[0].boundary {
      SharedAtRoot(c[1..], name);
    } else {
      LexicalEntry(c[1..], name);
      assert forall k :: 0 < k < |c| ==> c[k] == c[1..][k - 1];
    }
  }

  /** Two names in sight that denote locals or globals denote different variables. */
  lemma {:induction false} NamesDiffer(c: Chain, a: string, b: string)
    requires Slots(c) && a != b && Lexical(c, a).Some? && Lexical(c, b).Some? && !Lexical(c, a).value.BuiltinAt?
    ensures Lexical(c, a) != Lexical(c, b)
  {
    LexicalEntry(c, a);
    LexicalEntry(c, b);
    match Lexical(c, a).value
    case LocalAt(depth, _) => SlotsAt(c, |c| - 1 - depth);
    case GlobalAt(_) => SlotsAt(c, |c| - 1);
  }

  // ---------------------------------------------------------------- symbols handed out

  /** What every symbol handed out by the innermost scope satisfies. */
  predicate Issued(c: Chain, s: Symbol)
    requires c != []
  {
    match s.kind
    case Local => s.index < c[0].max
    case Global => s.index < Root(c).max
    case Free => s.index < |c[0].free|
    case Builtin => true
  }

  /** A capture denotes a local of a scope further out. */
  lemma {:induction false} CaptureIsOuter(c: Chain, s: Symbol)
    requires Fine(c) && c != [] && s.kind == Free && Denotes(c, s).Some?
    ensures Denotes(c, s).value.LocalAt? && Denotes(c, s).value.depth < |c| - 1
    decreases |c|
  {
    var outer := c[0].free[s.index];
    assert CaptureFine(c, outer);
    if outer.kind == Free { CaptureIsOuter(c[1..], outer); }
  }

  /** A builtin is what its name denotes from then on, under the number given; no other name changes. */
  lemma {:induction false} BuiltinIsLexical(c: Chain, index: nat, name: string, other: string)
    requires Fine(c) && c != []
    ensures var d := [DefineBuiltin(c[0], index, name)] + c[1..];
            && Fine(d) && Lexical(d, name) == Some(BuiltinAt(index))
            && (other != name ==> Lexical(d, other) == Lexical(c, other))
  {
    var d := [DefineBuiltin(c[0], index, name)] + c[1..];
    assert d[1..] == c[1..];
    assert |c| > 1 ==> d[1] == c[1];
  }

  lemma {:induction false} DefineKeepsSlots(s: Scope, name: string)
    requires ScopeSlots(s)
    ensures ScopeSlots(Define(s, name))
  {
  }

  /** A new local is on a slot of its own: no symbol handed out before denotes it, and none changes its meaning. */
  lemma {:induction false} DefineIsFresh(c: Chain, name: string, s: Symbol)
    requires Fine(c) && Slots(c) && c != [] && Issued(c, s)
    ensures var d := [Define(c[0], name)] + c[1..];
            && Slots(d) && Lexical(d, name).Some? && Denotes(d, s) == Denotes(c, s) && Denotes(d, s) != Lexical(d, name)
            && Issued(d, s) && name in d[0].store && Issued(d, d[0].store[name])
  {
    var d := [Define(c[0], name)] + c[1..];
    assert d[1..] == c[1..];
    DefineKeepsSlots(c[0], name);
    if s.kind == Free && Denotes(c, s).Some? { CaptureIsOuter(c, s); }
    hide ScopeSlots, ScopeFine, Fine;
  }

  // ---------------------------------------------------------------- globals

  /** globalSymbolIndex: a name the outermost scope does not store yet becomes a global there. */
  function DefineAtRoot(c: Chain, name: string): (d: Chain)
    requires c != []
    ensures |d| == |c|
  {
    if name in Root(c).store then c else c[..|c| - 1] + [DefineGlobal(Root(c), name)]
  }

  lemma {:induction false} RootTail(c: Chain, name: string)
    requires |c| > 1
    ensures DefineAtRoot(c, name)[0] == c[0] && DefineAtRoot(c, name)[1..] == DefineAtRoot(c[1..], name)
    ensures Root(c) == Root(c[1..])
  {
    if name !in Root(c).store { assert c[..|c| - 1][1..] == c[1..][..|c| - 2]; }
  }

  lemma {:induction false} RootKeeps(c: Chain, name: string)
    requires Fine(c) && Slots(c) && c != []
    ensures Fine(DefineAtRoot(c, name)) && Slots(DefineAtRoot(c, name))
    ensures name !in Root(c).store ==> FindShared(DefineAtRoot(c, name), name) == Some(Symbol(name, Global, Root(c).max, 0))
  {
    var d := DefineAtRoot(c, name);
    if |c| == 1 {
      assert d[1..] == [] && c[1..] == [];
      assert forall k :: 0 <= k < |c[0].free| ==> CaptureFine(c, c[0].free[k]);
    } else {
      RootTail(c, name);
      RootKeeps(c[1..], name);
      forall k | 0 <= k < |d[0].free| ensures CaptureFine(d, d[0].free[k]) {
        assert CaptureFine(c, c[0].free[k]);
        StoredStays(c, name, c[0].free[k].name);
      }
    }
  }

  lemma {:induction false} DenotesStays(c: Chain, name: string, s: Symbol)
    requires c != []
    ensures Denotes(DefineAtRoot(c, name), s) == Denotes(c, s)
    decreases |c|
  {
    if |c| > 1 {
      RootTail(c, name);
      if s.kind == Free && s.index < |c[0].free| { DenotesStays(c[1..], name, c[0].free[s.index]); }
    }
  }

  lemma {:induction false} StoredStays(c: Chain, name: string, other: string)
    requires |c| > 1 && other in c[1].store
    ensures var d := DefineAtRoot(c, name); other in d[1].store && d[1].store[other] == c[1].store[other]
  {
  }

  /** A new global is no variable that a symbol handed out before denotes. */
  lemma {:induction false} GlobalIsFresh(c: Chain, name: string, s: Symbol)
    requires Fine(c) && Slots(c) && c != [] && Issued(c, s) && name !in Root(c).store
    ensures var d := DefineAtRoot(c, name);
            && Slots(d) && Fine(d) && FindShared(d, name).Some? && Issued(d, s)
            && Denotes(d, s) == Denotes(c, s) && Denotes(d, s) != SharedVariable(FindShared(d, name))
  {
    RootKeeps(c, name);
    DenotesStays(c, name, s);
    if |c| > 1 { RootTail(c, name); }
    if s.kind == Free && Denotes(c, s).Some? { CaptureIsOuter(c, s); }
  }

  // ---------------------------------------------------------------- resolving and new scopes

  lemma {:induction false} ResolveKeepsSlots(c: Chain, name: string)
    requires Fine(c) && Slots(c)
    ensures Slots(Resolve(c, name).chain)
    ensures Resolve(c, name).symbol.Some? ==> c != [] && Issued(Resolve(c, name).chain, Resolve(c, name).symbol.value)
  {
    if c == [] {
    } else if name in c[0].store {
    } else if c[0].boundary {
      if FindShared(c[1..], name).Some? {
        SharedAtRoot(c[1..], name);
        SlotsAt(c[1..], |c| - 2);
      }
    } else {
      var outer, r := Resolve(c[1..], name), Resolve(c, name);
      ResolveKeepsSlots(c[1..], name);
      assert r.chain[1..] == outer.chain;
      if outer.symbol.Some? { ResolvedIsStored(c[1..], name); }
      assert |c| > 1 ==> Root(r.chain) == Root(outer.chain);
      hide Fine, FindShared, Resolve;
      if outer.symbol.Some? && !Shared(outer.symbol.value) { CaptureKeeps(c[0], outer.symbol.value); }
    }
  }

  lemma {:induction false} CaptureKeeps(s: Scope, original: Symbol)
    requires ScopeSlots(s) && original.name !in s.store
    ensures ScopeSlots(DefineFree(s, original))
  {
  }

  /** Symbols handed out before stay handed out. */
  lemma {:induction false} ResolveKeepsIssued(c: Chain, name: string, s: Symbol)
    requires Fine(c) && c != [] && Issued(c, s)
    ensures Issued(Resolve(c, name).chain, s)
  {
    ResolveGrows(c, name);
    GrownRoot(c, Resolve(c, name).chain);
  }

  lemma {:induction false} GrownRoot(c: Chain, d: Chain)
    requires Grown(c, d) && c != []
    ensures Root(d).max == Root(c).max
  {
    if |c| > 1 { GrownRoot(c[1..], d[1..]); }
  }

  lemma {:induction false} EncloseKeepsSlots(c: Chain, boundary: bool)
    requires Slots(c)
    ensures Slots(Enclose(c, boundary))
  {
    assert Enclose(c, boundary)[1..] == c;
  }

  // ---------------------------------------------------------------- all runs

  /** The operations of the compiler on its current chain of scopes. */
  datatype Op = DefineOp(name: string) | GlobalOp(name: string) | BuiltinOp(index: nat, name: string) | ResolveOp(name: string)
              | EnterOp(boundary: bool) | LeaveOp

  function Apply(c: Chain, op: Op): (d: Chain)
    requires c != []
    ensures d != []
  {
    match op
    case DefineOp(name) => [Define(c[0], name)] + c[1..]
    case GlobalOp(name) => DefineAtRoot(c, name)
    case BuiltinOp(index, name) => if |c| == 1 then [DefineBuiltin(c[0], index, name)] else c
    case ResolveOp(name) => Resolve(c, name).chain
    case EnterOp(boundary) => Enclose(c, boundary)
    case LeaveOp => if |c| == 1 then c else c[1..]
  }

  /** The chain after a run of operations, from one empty scope. */
  function After(ops: seq<Op>): (c: Chain)
    ensures c != []
  {
    if ops == [] then Enclose([], false) else Apply(After(ops[..|ops| - 1]), ops[|ops| - 1])
  }

  lemma {:induction false} BuiltinKeeps(c: Chain, index: nat, name: string)
    requires Fine(c) && Slots(c) && |c| == 1
    ensures var d := [DefineBuiltin(c[0], index, name)]; Fine(d) && Slots(d)
  {
    var d := [DefineBuiltin(c[0], index, name)];
    assert d[1..] == [] && c[1..] == [];
    assert forall k :: 0 <= k < |c[0].free| ==> CaptureFine(c, c[0].free[k]);
  }

  lemma {:induction false} ApplyKeeps(c: Chain, op: Op)
    requires c != [] && Fine(c) && Slots(c)
    ensures Fine(Apply(c, op)) && Slots(Apply(c, op))
  {
    match op
    case DefineOp(name) =>
      DefineIsLexical(c, name, name);
      DefineIsFresh(c, name, Symbol(name, Builtin, 0, 0));
    case GlobalOp(name) => RootKeeps(c, name);
    case BuiltinOp(index, name) => if |c| == 1 { BuiltinKeeps(c, index, name); }
    case ResolveOp(name) =>
      ResolveKeepsFine(c, name);
      ResolveKeepsSlots(c, name);
    case EnterOp(boundary) =>
      EncloseIsLexical(c, boundary, "");
      EncloseKeepsSlots(c, boundary);
    case LeaveOp =>
  }

  /** Over every run: the tables are well formed, and different names in sight are different variables. */
  lemma {:induction false} RunsAreLexical(ops: seq<Op>, a: string, b: string)
    requires a != b
    ensures Fine(After(ops)) && Slots(After(ops))
    ensures var c := After(ops);
            Lexical(c, a).Some? && Lexical(c, b).Some? && !Lexical(c, a).value.BuiltinAt? ==> Lexical(c, a) != Lexical(c, b)
  {
    RunKeeps(ops);
    var c := After(ops);
    if Lexical(c, a).Some? && Lexical(c, b).Some? && !Lexical(c, a).value.BuiltinAt? { NamesDiffer(c, a, b); }
  }

  lemma {:induction false} RunKeeps(ops: seq<Op>)
    ensures Fine(After(ops)) && Slots(After(ops))
  {
    if ops == [] {
      assert Enclose([], false)[1..] == [];
    } else {
      RunKeeps(ops[..|ops| - 1]);
      ApplyKeeps(After(ops[..|ops| - 1]), ops[|ops| - 1]);
    }
  }
}
