/** The compiler's symbol tables: a mutable chain of scopes. */
module SymbolTables {
  // Each table points to the one around it.

  import opened Options
  import Spec = SymbolChain

  class SymbolTable {
    const outer: SymbolTable?
    var store: map<string, Spec.Symbol>
    var freeSymbols: seq<Spec.Symbol>
    var maxSymbols: nat
    var methodBoundary: bool
    ghost const level: nat
    ghost const footprint: set<SymbolTable>

    /** The chain of outer tables ends, and no table occurs in it twice. */
    ghost predicate Valid()
      decreases level
    {
      && this in footprint
      && if outer == null then level == 0 && footprint == {this}
         else && level == outer.level + 1 && this !in outer.footprint
              && footprint == {this} + outer.footprint && outer.Valid()
    }

    ghost function Scope(): Spec.Scope
      reads this
    {
      Spec.Scope(store, freeSymbols, maxSymbols, methodBoundary)
    }

    /** The tables as a value, from this one outwards. */
    ghost function Chain(): (c: Spec.Chain)
      requires Valid()
      reads footprint
      ensures c != [] && c[0] == Scope()
      decreases level
    {
      [Scope()] + (if outer == null then [] else outer.Chain())
    }

    /** An enclosed table, or a first one when there is nothing around it. */
    constructor (around: SymbolTable?)
      requires around != null ==> around.Valid()
      ensures Valid() && fresh(this) && outer == around
      ensures Chain() == Spec.Enclose(if around == null then [] else old(around.Chain()), false)
    {
      outer := around;
      store, freeSymbols, maxSymbols, methodBoundary := map[], [], 0, false;
      level := if around == null then 0 else around.level + 1;
      footprint := {this} + if around == null then {} else around.footprint;
    }

    method Define(name: string) returns (symbol: Spec.Symbol)
      requires Valid()
      modifies this
      ensures Chain() == [Spec.Define(old(Scope()), name)] + old(Chain())[1..]
      ensures symbol == Spec.Symbol(name, Spec.Local, old(maxSymbols), 0) && name in store && store[name] == symbol
    {
      symbol := Spec.Symbol(name, Spec.Local, maxSymbols, 0);
      store := store[name := symbol];
      maxSymbols := maxSymbols + 1;
    }

    method DefineGlobal(name: string) returns (symbol: Spec.Symbol)
      requires Valid()
      modifies this
      ensures Chain() == [Spec.DefineGlobal(old(Scope()), name)] + old(Chain())[1..]
      ensures name in store && store[name] == symbol
    {
      symbol := Spec.Symbol(name, Spec.Global, maxSymbols, 0);
      store := store[name := symbol];
      maxSymbols := maxSymbols + 1;
    }

    method DefineBuiltin(index: nat, name: string) returns (symbol: Spec.Symbol)
      requires Valid()
      modifies this
      ensures Chain() == [Spec.DefineBuiltin(old(Scope()), index, name)] + old(Chain())[1..]
      ensures name in store && store[name] == symbol
    {
      symbol := Spec.Symbol(name, Spec.Builtin, index, 0);
      store := store[name := symbol];
    }

    /** Remember a symbol of the outer table and give it the next free slot. */
    method DefineFree(original: Spec.Symbol) returns (symbol: Spec.Symbol)
      requires Valid()
      modifies this
      ensures Spec.Resolution(Chain(), Some(symbol)) == Spec.Capture(old(Chain()), original)
    {
      freeSymbols := freeSymbols + [original];
      symbol := Spec.Symbol(original.name, Spec.Free, |freeSymbols| - 1, original.index);
      store := store[original.name := symbol];
    }

    /** Past a method boundary: the first outer table with the name as a global or a builtin. */
    method FindShared(name: string) returns (symbol: Option<Spec.Symbol>)
      requires Valid()
      ensures symbol == Spec.FindShared(Chain()[1..], name)
    {
      var table := outer;
      symbol := None;
      while table != null
        invariant table != null ==> table.Valid()
        invariant Spec.FindShared(Chain()[1..], name) == if table == null then None else Spec.FindShared(table.Chain(), name)
        decreases if table == null then 0 else table.level + 1
      {
        if name in table.store && Spec.Shared(table.store[name]) { return Some(table.store[name]); }
        assert table.Chain()[1..] == if table.outer == null then [] else table.outer.Chain();
        table := table.outer;
      }
    }

    method Resolve(name: string) returns (symbol: Option<Spec.Symbol>)
      requires Valid()
      modifies footprint
      ensures Spec.Resolution(Chain(), symbol) == Spec.Resolve(old(Chain()), name)
      decreases level
    {
      if name in store { return Some(store[name]); }
      if methodBoundary {
        symbol := FindShared(name);
        return;
      }
      if outer == null { return None; }
      ghost var before := Chain();
      assert before[1..] == outer.Chain();
      if name in outer.store && (outer.store[name].kind == Spec.Local || outer.store[name].kind == Spec.Free) {
        // the outer table has it already: no need to ask it to resolve
        assert Chain() == [before[0]] + outer.Chain();
        var free := DefineFree(outer.store[name]);
        return Some(free);
      }
      symbol := outer.Resolve(name);
      assert Chain() == [before[0]] + outer.Chain();
      if symbol.None? || Spec.Shared(symbol.value) { return; }
      var free := DefineFree(symbol.value);
      symbol := Some(free);
    }

    /** The instructions that push the cells captured by an inner closure, in the order of its free symbols. */
    method EmitCaptures(free: seq<Spec.Symbol>) returns (pushed: seq<Spec.CaptureInstr>)
      ensures |pushed| == |free| && forall k :: 0 <= k < |free| ==> pushed[k] == Spec.CaptureOf(Scope(), free[k])
    {
      pushed := [];
      for k := 0 to |free|
        invariant |pushed| == k && forall j :: 0 <= j < k ==> pushed[j] == Spec.CaptureOf(Scope(), free[j])
      {
        var sym := free[k];
        var instr :=
          match sym.kind
          case Local => Spec.GetLocalCell(sym.index)
          case Free =>
            if sym.name in store && store[sym.name].kind == Spec.Local then Spec.GetLocalCell(store[sym.name].index)
            else Spec.GetFreeCell(sym.index)
          case Global => Spec.GetGlobal(sym.index)
          case Builtin => Spec.PushNil;
        pushed := pushed + [instr];
      }
    }
  }

  /** Compiling a closure body in an inner table and then emitting its captures: the pushed cells are, slot by slot, the
      variables the inner table's free symbols denote. */
  method CaptureFor(inner: SymbolTable) returns (pushed: seq<Spec.CaptureInstr>)
    requires inner.Valid() && inner.outer != null && Spec.Fine(inner.Chain())
    ensures |pushed| == |inner.freeSymbols|
    ensures forall k :: 0 <= k < |pushed| ==>
              Spec.Pushes(pushed[k], inner.level - 1, Spec.Captured(inner.Chain()[1..]))
              == Spec.Denotes(inner.Chain(), Spec.Symbol(inner.freeSymbols[k].name, Spec.Free, k, 0))
  {
    pushed := inner.outer.EmitCaptures(inner.freeSymbols);
    ghost var c := inner.Chain();
    assert c[1..] == inner.outer.Chain();
    ChainLength(inner);
    forall k | 0 <= k < |pushed|
      ensures Spec.Pushes(pushed[k], inner.level - 1, Spec.Captured(c[1..]))
              == Spec.Denotes(c, Spec.Symbol(inner.freeSymbols[k].name, Spec.Free, k, 0))
    {
      Spec.CapturePushesCells(c, k);
    }
  }

  lemma {:induction false} ChainLength(t: SymbolTable)
    requires t.Valid()
    ensures |t.Chain()| == t.level + 1
    decreases t.level
  {
    if t.outer != null { ChainLength(t.outer); }
  }
}
