/** Scopes as values, and lexical scoping. */
module SymbolChain {
  // What resolving a name through a chain of nested scopes does, and which variable it denotes.

  import opened Options

  /** A symbol as stored in a scope. A free symbol's index is a slot of the closure's captured cells. */
  datatype Kind = Local | Global | Builtin | Free
  datatype Symbol = Symbol(name: string, kind: Kind, index: nat, scopeIndex: nat)

  /** One scope; `free` lists the captured symbols of the next outer scope, in slot order. */
  datatype Scope = Scope(store: map<string, Symbol>, free: seq<Symbol>, max: nat, boundary: bool)

  /** Scopes from the innermost to the outermost. */
  type Chain = seq<Scope>

  datatype Resolution = Resolution(chain: Chain, symbol: Option<Symbol>)

  function Define(s: Scope, name: string): Scope {
    s.(store := s.store[name := Symbol(name, Local, s.max, 0)], max := s.max + 1)
  }

  function DefineGlobal(s: Scope, name: string): Scope {
    s.(store := s.store[name := Symbol(name, Global, s.max, 0)], max := s.max + 1)
  }

  function DefineBuiltin(s: Scope, index: nat, name: string): Scope {
    s.(store := s.store[name := Symbol(name, Builtin, index, 0)])
  }

  function FreeSymbol(s: Scope, original: Symbol): Symbol {
    Symbol(original.name, Free, |s.free|, original.index)
  }

  function DefineFree(s: Scope, original: Symbol): Scope {
    s.(store := s.store[original.name := FreeSymbol(s, original)], free := s.free + [original])
  }

  function Enclose(c: Chain, boundary: bool): Chain {
    [Scope(map[], [], 0, boundary)] + c
  }

  predicate Shared(s: Symbol) {
    s.kind == Global || s.kind == Builtin
  }

  /** The first enclosing scope that has the name as a global or a builtin. */
  function FindShared(c: Chain, name: string): Option<Symbol> {
    if c == [] then None
    else if name in c[0].store && Shared(c[0].store[name]) then Some(c[0].store[name])
    else FindShared(c[1..], name)
  }

  /** Resolve: a stored symbol as it is; past a method boundary only globals and builtins; otherwise what the outer
      scope resolves to, captured as a free symbol unless it is shared. */
  function Resolve(c: Chain, name: string): (r: Resolution)
    ensures |r.chain| == |c|
  {
    if c == [] then Resolution(c, None)
    else if name in c[0].store then Resolution(c, Some(c[0].store[name]))
    else if c[0].boundary then Resolution(c, FindShared(c[1..], name))
    else
      var outer := Resolve(c[1..], name);
      var rest := [c[0]] + outer.chain;
      if outer.symbol.None? || Shared(outer.symbol.value) then Resolution(rest, outer.symbol)
      else Capture(rest, outer.symbol.value)
  }

  function Capture(c: Chain, original: Symbol): (r: Resolution)
    requires c != []
    ensures |r.chain| == |c|
  {
    Resolution([DefineFree(c[0], original)] + c[1..], Some(FreeSymbol(c[0], original)))
  }

  // ---------------------------------------------------------------- what a symbol denotes

  /** A variable: a local slot of the scope at a depth (0 is the outermost), a global slot, or a builtin. */
  datatype Variable = LocalAt(depth: nat, index: nat) | GlobalAt(index: nat) | BuiltinAt(index: nat)

  /** The capture chain of a symbol of the innermost scope: from free slot to outer symbol, down to a definition. */
  function Denotes(c: Chain, s: Symbol): Option<Variable>
    requires c != []
  {
    match s.kind
    case Local => Some(LocalAt(|c| - 1, s.index))
    case Global => Some(GlobalAt(s.index))
    case Builtin => Some(BuiltinAt(s.index))
    case Free => if |c| < 2 || s.index >= |c[0].free| then None else Denotes(c[1..], c[0].free[s.index])
  }

  /** The scope itself defines the name: it does not merely capture it. */
  predicate Defines(s: Scope, name: string) {
    name in s.store && s.store[name].kind != Free
  }

  /** Lexical scoping, with no reference to captures: the innermost enclosing definition, and from inside a method only
      globals and builtins of the scopes around it. */
  function Lexical(c: Chain, name: string): Option<Variable> {
    if c == [] then None
    else if Defines(c[0], name) then Denotes(c, c[0].store[name])
    else if c[0].boundary then SharedVariable(FindShared(c[1..], name))
    else Lexical(c[1..], name)
  }

  function SharedVariable(s: Option<Symbol>): Option<Variable> {
    if s.None? then None else if s.value.kind == Global then Some(GlobalAt(s.value.index)) else Some(BuiltinAt(s.value.index))
  }

  // ---------------------------------------------------------------- the invariant

  /** Symbols are stored under their names; every free entry of the store is a slot of the capture list; captures are
      unshared symbols the next outer scope stores, and a method captures nothing. */
  ghost predicate ScopeFine(c: Chain)
    requires c != []
  {
    var s := c[0];
    && (forall n :: n in s.store ==> s.store[n].name == n)
    && (forall n :: n in s.store && s.store[n].kind == Free ==> s.store[n].index < |s.free| && s.free[s.store[n].index].name == n)
    && (forall k :: 0 <= k < |s.free| ==> CaptureFine(c, s.free[k]))
  }

  predicate CaptureFine(c: Chain, sym: Symbol)
    requires c != []
  {
    !c[0].boundary && |c| > 1 && !Shared(sym) && sym.name in c[1].store && c[1].store[sym.name] == sym
  }

  ghost predicate Fine(c: Chain) {
    c != [] ==> ScopeFine(c) && Fine(c[1..])
  }

  lemma {:induction false} SharedFound(c: Chain, name: string)
    requires FindShared(c, name).Some?
    ensures Shared(FindShared(c, name).value)
  {
    if !(name in c[0].store && Shared(c[0].store[name])) { SharedFound(c[1..], name); }
  }

  /** A stored symbol denotes the lexical definition of its name. */
  lemma {:induction false} StoredDenotes(c: Chain, name: string)
    requires Fine(c) && c != [] && name in c[0].store
    ensures Denotes(c, c[0].store[name]) == Lexical(c, name) && Lexical(c, name).Some?
  {
    if !Defines(c[0], name) {
      var k := c[0].store[name].index;
      assert c[0].free[k].name == name && c[1].store[name] == c[0].free[k];
      StoredDenotes(c[1..], name);
    }
  }

  /** A resolved symbol is stored in the innermost scope afterwards, or it is shared. */
  lemma {:induction false} ResolvedIsStored(c: Chain, name: string)
    requires Fine(c) && Resolve(c, name).symbol.Some?
    ensures var r := Resolve(c, name);
            && c != []
            && (Shared(r.symbol.value) || (name in r.chain[0].store && r.chain[0].store[name] == r.symbol.value))
            && r.symbol.value.name == name
  {
    if name !in c[0].store {
      if c[0].boundary {
        FoundName(c[1..], name);
        SharedFound(c[1..], name);
      } else {
        ResolvedIsStored(c[1..], name);
      }
    }
  }

  lemma {:induction false} FoundName(c: Chain, name: string)
    requires Fine(c) && FindShared(c, name).Some?
    ensures FindShared(c, name).value.name == name
  {
    if !(name in c[0].store && Shared(c[0].store[name])) { FoundName(c[1..], name); }
  }

  /** c2 is c with more captures: same definitions, and every capture list extended at the end. */
  ghost predicate Grown(c: Chain, d: Chain) {
    && |c| == |d|
    && (c != [] ==>
          && c[0].free <= d[0].free && c[0].boundary == d[0].boundary && c[0].max == d[0].max
          && (forall n :: n in c[0].store ==> n in d[0].store && d[0].store[n] == c[0].store[n])
          && (forall n :: n in d[0].store && n !in c[0].store ==> d[0].store[n].kind == Free)
          && Grown(c[1..], d[1..]))
  }

  lemma {:induction false} GrownSelf(c: Chain)
    ensures Grown(c, c)
  {
    if c != [] { GrownSelf(c[1..]); }
  }

  /** Resolving only adds captures. */
  lemma {:induction false} ResolveGrows(c: Chain, name: string)
    requires Fine(c)
    ensures Grown(c, Resolve(c, name).chain)
  {
    if c == [] || name in c[0].store || c[0].boundary {
      GrownSelf(c);
    } else {
      var outer := Resolve(c[1..], name);
      ResolveGrows(c[1..], name);
      if outer.symbol.Some? { ResolvedIsStored(c[1..], name); }
      assert Resolve(c, name).chain[1..] == outer.chain;
    }
  }

  /** Resolving keeps the invariant. */
  lemma {:induction false} ResolveKeepsFine(c: Chain, name: string)
    requires Fine(c)
    ensures Fine(Resolve(c, name).chain)
  {
    if c != [] && name !in c[0].store && !c[0].boundary {
      var outer := Resolve(c[1..], name);
      var r := Resolve(c, name);
      ResolveKeepsFine(c[1..], name);
      ResolveGrows(c[1..], name);
      assert r.chain[1..] == outer.chain;
      if outer.symbol.Some? { ResolvedIsStored(c[1..], name); }
      OuterGrown(c, r.chain, outer);
    }
  }

  /** The innermost scope after resolving in the outer ones. */
  lemma {:induction false} OuterGrown(c: Chain, d: Chain, outer: Resolution)
    requires c != [] && d != [] && ScopeFine(c) && d[1..] == outer.chain && Grown(c[1..], outer.chain) && !c[0].boundary
    requires if outer.symbol.None? || Shared(outer.symbol.value) then d[0] == c[0]
             else && d[0] == DefineFree(c[0], outer.symbol.value) && outer.symbol.value.name !in c[0].store
                  && outer.chain != [] && outer.symbol.value.name in outer.chain[0].store
                  && outer.chain[0].store[outer.symbol.value.name] == outer.symbol.value
    ensures ScopeFine(d)
  {
    assert |d| > 1 ==> d[1] == outer.chain[0];
    forall k | 0 <= k < |d[0].free|
      ensures CaptureFine(d, d[0].free[k])
    {
      if k < |c[0].free| {
        assert d[0].free[k] == c[0].free[k] && c[1..][0] == c[1];
        assert CaptureFine(c, c[0].free[k]);
      } else {
        assert d[0].free[k] == outer.symbol.value && d[1] == outer.chain[0];
      }
    }
  }

  /** Captures do not change what is defined where, so lexical scoping and every earlier denotation stay. */
  lemma {:induction false} GrownLexical(c: Chain, d: Chain, name: string)
    requires Grown(c, d)
    ensures Lexical(d, name) == Lexical(c, name) && FindShared(d, name) == FindShared(c, name)
  {
    if c != [] { GrownLexical(c[1..], d[1..], name); }
  }

  lemma {:induction false} GrownDenotes(c: Chain, d: Chain, s: Symbol)
    requires Grown(c, d) && c != [] && Denotes(c, s).Some?
    ensures Denotes(d, s) == Denotes(c, s)
    decreases |c|
  {
    if s.kind == Free { GrownDenotes(c[1..], d[1..], c[0].free[s.index]); }
  }

  // ---------------------------------------------------------------- the theorems

  /** Closure conversion is lexically correct: a name resolves if and only if it has an enclosing definition, and the
      capture chain of the resolved symbol ends at the innermost one. */
  lemma {:induction false} ResolveIsLexical(c: Chain, name: string)
    requires Fine(c)
    ensures var r := Resolve(c, name);
            && (r.symbol.Some? <==> Lexical(c, name).Some?)
            && (r.symbol.Some? ==> Denotes(r.chain, r.symbol.value) == Lexical(c, name))
  {
    if c == [] {
    } else if name in c[0].store {
      StoredDenotes(c, name);
    } else if c[0].boundary {
      if FindShared(c[1..], name).Some? { SharedFound(c[1..], name); }
    } else {
      var outer := Resolve(c[1..], name);
      ResolveIsLexical(c[1..], name);
      assert Resolve(c, name).chain[1..] == outer.chain;
    }
  }

  /** Resolving keeps the meaning of every symbol handed out before, and of every name. */
  lemma {:induction false} ResolveKeepsMeaning(c: Chain, name: string, s: Symbol, other: string)
    requires Fine(c) && c != [] && Denotes(c, s).Some?
    ensures var d := Resolve(c, name).chain;
            Fine(d) && Denotes(d, s) == Denotes(c, s) && Lexical(d, other) == Lexical(c, other)
  {
    ResolveKeepsFine(c, name);
    ResolveGrows(c, name);
    GrownDenotes(c, Resolve(c, name).chain, s);
    GrownLexical(c, Resolve(c, name).chain, other);
  }

  /** Resolving twice is resolving once. */
  lemma {:induction false} ResolveIsIdempotent(c: Chain, name: string)
    requires Fine(c)
    ensures Resolve(Resolve(c, name).chain, name) == Resolve(c, name)
  {
    if c != [] && name !in c[0].store && !c[0].boundary {
      var outer, r := Resolve(c[1..], name), Resolve(c, name);
      ResolveIsIdempotent(c[1..], name);
      assert r.chain[1..] == outer.chain;
      if outer.symbol.Some? { ResolvedIsStored(c[1..], name); }
      if outer.symbol.None? || Shared(outer.symbol.value) {
        assert r.chain == [c[0]] + outer.chain;
      }
    }
  }

  /** A local variable that is found belongs to a scope with no method boundary inside it. */
  lemma {:induction false} LocalsStayInMethod(c: Chain, name: string, k: nat)
    requires Lexical(c, name).Some? && Lexical(c, name).value.LocalAt?
    requires Lexical(c, name).value.depth < |c| - 1 - k && k < |c| && Fine(c)
    ensures !c[k].boundary
  {
    NotPastBoundary(c, name);
    if k > 0 { LocalsStayInMethod(c[1..], name, k - 1); }
  }

  /** A local that this scope does not define is found in the scopes around it, so this scope is no method. */
  lemma {:induction false} NotPastBoundary(c: Chain, name: string)
    requires Lexical(c, name).Some? && Lexical(c, name).value.LocalAt? && Lexical(c, name).value.depth < |c| - 1
    ensures !c[0].boundary && Lexical(c, name) == Lexical(c[1..], name)
  {
    if FindShared(c[1..], name).Some? { SharedFound(c[1..], name); }
  }

  /** The depth of a found local is the depth of a scope of the chain. */
  lemma {:induction false} LocalDepth(c: Chain, name: string)
    requires Lexical(c, name).Some? && Lexical(c, name).value.LocalAt?
    ensures Lexical(c, name).value.depth < |c|
  {
    if c != [] && !Defines(c[0], name) && !c[0].boundary { LocalDepth(c[1..], name); }
  }

  // ---------------------------------------------------------------- definitions and new scopes

  /** Defining a name in the innermost scope keeps the invariant, and the name then denotes the new slot. */
  lemma {:induction false} DefineIsLexical(c: Chain, name: string, other: string)
    requires Fine(c) && c != []
    ensures var d := [Define(c[0], name)] + c[1..];
            && Fine(d) && Lexical(d, name) == Some(LocalAt(|c| - 1, c[0].max))
            && (other != name ==> Lexical(d, other) == Lexical(c, other))
  {
    var d := [Define(c[0], name)] + c[1..];
    assert d[1..] == c[1..];
    assert |c| > 1 ==> d[1] == c[1];
  }

  /** A new scope sees what its surroundings see, unless it is a method, which sees only globals and builtins. */
  lemma {:induction false} EncloseIsLexical(c: Chain, boundary: bool, name: string)
    requires Fine(c)
    ensures var d := Enclose(c, boundary);
            Fine(d) && Lexical(d, name) == if boundary then SharedVariable(FindShared(c, name)) else Lexical(c, name)
  {
    assert Enclose(c, boundary)[1..] == c;
  }

  // ---------------------------------------------------------------- capturing at run time

  /** The instructions that push a captured cell. */
  datatype CaptureInstr = GetLocalCell(slot: nat) | GetFreeCell(slot: nat) | GetGlobal(slot: nat) | PushNil

  /** emitCaptureSymbol, in the scope that creates the closure. */
  function CaptureOf(s: Scope, sym: Symbol): CaptureInstr {
    match sym.kind
    case Local => GetLocalCell(sym.index)
    case Free =>
      if sym.name in s.store && s.store[sym.name].kind == Local then GetLocalCell(s.store[sym.name].index)
      else GetFreeCell(sym.index)
    case Global => GetGlobal(sym.index)
    case Builtin => PushNil
  }

  /** The captured cells of a running closure, in slot order: the variables its capture list denotes. */
  function Captured(c: Chain): seq<Option<Variable>>
    requires c != []
  {
    seq(|c[0].free|, k requires 0 <= k < |c[0].free| => if |c| < 2 then None else Denotes(c[1..], c[0].free[k]))
  }

  /** What an instruction pushes in a frame of the scope at this depth with these captured cells. */
  function Pushes(i: CaptureInstr, depth: nat, cells: seq<Option<Variable>>): Option<Variable> {
    match i
    case GetLocalCell(k) => Some(LocalAt(depth, k))
    case GetFreeCell(k) => if k < |cells| then cells[k] else None
    case GetGlobal(k) => Some(GlobalAt(k))
    case PushNil => None
  }

  /** Creating a closure pushes, in free-slot order, exactly the cells its body will find in its capture list: each one
      is the variable the free slot denotes. */
  lemma {:induction false} CapturePushesCells(c: Chain, k: nat)
    requires Fine(c) && |c| >= 2 && k < |c[0].free|
    ensures Pushes(CaptureOf(c[1], c[0].free[k]), |c| - 2, Captured(c[1..])) == Captured(c)[k] && Captured(c)[k].Some?
  {
    var sym := c[0].free[k];
    StoredDenotes(c[1..], sym.name);
    if sym.kind == Free { assert ScopeFine(c[1..]); }
  }
}
