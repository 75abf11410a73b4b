/**
 * What the scope-resolution walk computes, stated on values: the bindings of the environment
 * the walk starts in (with those of its enclosing environments, innermost first), the lexical
 * diagnostics reported, and the declaration each symbol literal was resolved to.
 */
module ScopeSpec {
  import opened Wrappers
  import opened Sections
  import opened Ast
  import opened Diagnostics
  import opened LexicalEnvironments

  /**
   * `chain`: the bindings of the environment the walk runs in, then those of its enclosing
   * environments; `diags`: the lexical diagnostics; `refs`: the declaration of each resolved
   * symbol literal; `stamped`: the nodes whose own environment is set; `openers`: the nodes whose
   * children environment is set; `scopes`: the final bindings of the children environment of each
   * function declaration whose walk is over.
   */
  datatype State = State(chain: seq<Bindings>, diags: seq<Diagnostic>, refs: map<NodeId, Node>,
                         stamped: set<NodeId>, openers: set<NodeId>, scopes: map<NodeId, Bindings>)

  const AlreadyExists: string := "This symbol already exists in the current scope"
  const PreviouslyDeclared: string := "Previously declared here"
  const CannotFind: string := "Cannot find this symbol in the current scope"

  /** The diagnostic of a symbol bound twice in one scope, pointing back at the first declaration. */
  function ConflictDiagnostic(at: SourceSection, previous: SourceSection): Diagnostic {
    Diagnostic(AlreadyExists, Error, Some(at), [DiagnosticHint(PreviouslyDeclared, Some(previous))])
  }

  /** The diagnostic of a symbol that no enclosing scope binds. */
  function MissingDiagnostic(at: SourceSection): Diagnostic {
    Diagnostic(CannotFind, Error, Some(at), [])
  }

  /** A later state only adds: bindings of the innermost scope, diagnostics and references. */
  ghost predicate Extends(st: State, r: State) {
    && |r.chain| == |st.chain| >= 1
    && r.chain[1..] == st.chain[1..]
    && (forall s :: s in st.chain[0] ==> s in r.chain[0] && r.chain[0][s] == st.chain[0][s])
    && |st.diags| <= |r.diags| && r.diags[..|st.diags|] == st.diags
    && st.refs.Keys <= r.refs.Keys
    && st.stamped <= r.stamped && st.openers <= r.openers
  }

  lemma ExtendsTransitive(a: State, b: State, c: State)
    requires Extends(a, b) && Extends(b, c)
    ensures Extends(a, c)
  {
    assert c.diags[..|a.diags|] == c.diags[..|b.diags|][..|a.diags|];
  }

  /**
   * `insertOrDiag` on the innermost scope: bind `symbol` to `decl` where it is unbound; otherwise
   * keep the bindings and report one conflict at `diagLoc`, with a hint at the first declaration.
   */
  function InsertOrDiag(st: State, symbol: string, decl: Node, diagLoc: Node): (r: State)
    requires |st.chain| >= 1
    ensures Extends(st, r) && r.refs == st.refs && r.stamped == st.stamped && r.openers == st.openers && r.scopes == st.scopes
    ensures symbol !in st.chain[0] ==>
              r.chain[0] == st.chain[0][symbol := decl] && r.diags == st.diags
    ensures symbol in st.chain[0] ==>
              r.chain == st.chain && r.diags == st.diags + [ConflictDiagnostic(diagLoc.loc, st.chain[0][symbol].loc)]
  {
    if symbol in st.chain[0] then
      st.(diags := st.diags + [ConflictDiagnostic(diagLoc.loc, st.chain[0][symbol].loc)])
    else
      st.(chain := [st.chain[0][symbol := decl]] + st.chain[1..])
  }

  /**
   * `getOrDiag` of a symbol literal: its reference becomes the nearest binding of the symbol; when
   * there is none, one diagnostic is reported at the literal. No binding changes.
   */
  function GetOrDiag(st: State, symbol: string, literal: Node): (r: State)
    requires |st.chain| >= 1
    ensures Extends(st, r) && r.chain == st.chain && r.stamped == st.stamped && r.openers == st.openers && r.scopes == st.scopes
    ensures LookupChain(st.chain, symbol).Some? ==>
              r.refs == st.refs[literal.id := LookupChain(st.chain, symbol).value] && r.diags == st.diags
    ensures LookupChain(st.chain, symbol).None? ==>
              r.refs == st.refs && r.diags == st.diags + [MissingDiagnostic(literal.loc)]
  {
    match LookupChain(st.chain, symbol)
    case Some(d) => st.(refs := st.refs[literal.id := d])
    case None => st.(diags := st.diags + [MissingDiagnostic(literal.loc)])
  }

  /** The symbol a declaration's name slot introduces: the text of its identifier, when present. */
  function DeclaredSymbol(name: Nullable<Node>): (r: Option<string>)
    ensures r.Some? <==> name.NonNull? && name.value.Identifier?
    ensures r.Some? ==> r.value == name.value.text
  {
    if name.NonNull? && name.value.Identifier? then Some(name.value.text) else None
  }

  /** `if (name != null) insertOrDiag(name.text, name)` on behalf of declaration `decl`. */
  function DeclareName(st: State, decl: Node, name: Nullable<Node>): (r: State)
    requires |st.chain| >= 1
    ensures Extends(st, r) && r.scopes == st.scopes
  {
    match DeclaredSymbol(name)
    case Some(symbol) => InsertOrDiag(st, symbol, decl, name.value)
    case None => st
  }

  /** `populateLexicalEnv` of `n` in the innermost scope of `st.chain`: stamp `n`, then its `envSpec`. */
  function Walk(n: Node, st: State): (r: State)
    requires |st.chain| >= 1
    ensures |r.chain| == |st.chain|
    decreases 2 * Size(n), 1
  {
    WalkEnvSpec(n, st.(stamped := st.stamped + {n.id}))
  }

  /**
   * The `envSpec` of `n`:
   *  - a function declaration opens a scope below the incoming one, declares its name in the
   *    incoming scope, and walks its children in the new scope;
   *  - a parameter, a constant or a type declaration walks its children, then declares its name;
   *  - a symbol literal resolves its symbol;
   *  - any other node walks its children in the incoming scope.
   */
  function WalkEnvSpec(n: Node, st: State): (r: State)
    requires |st.chain| >= 1
    ensures |r.chain| == |st.chain|
    decreases 2 * Size(n), 0
  {
    ChildNodesSize(n);
    match n
    case FunDecl(_, _, name, _, _, _) =>
      var outer := DeclareName(Opening(st, n.id), n, name);
      var inner := WalkSeq(ChildNodes(n), Opened(outer));
      Closed(inner, outer, n.id)
    case Param(_, _, name, _, _) =>
      DeclareName(WalkSeq(ChildNodes(n), st), n, name)
    case ConstDecl(_, _, name, _, _) =>
      DeclareName(WalkSeq(ChildNodes(n), st), n, name)
    case TypeDecl(_, _, name, _) =>
      DeclareName(WalkSeq(ChildNodes(n), st), n, name)
    case SymbolLiteral(_, _, symbol) => GetOrDiag(st, symbol, n)
    case _ => WalkSeq(ChildNodes(n), st)
  }

  /** `populateChildren`: each child in order, all in the same scope. */
  function WalkSeq(cs: seq<Node>, st: State): (r: State)
    requires |st.chain| >= 1
    ensures |r.chain| == |st.chain|
    decreases 2 * SeqSize(cs) + 1
  {
    if cs == [] then st
    else
      Walk(cs[|cs| - 1], WalkSeq(cs[..|cs| - 1], st))
  }

  /** The state inside a newly opened scope: a new, empty innermost scope in front of the chain. */
  function Opened(st: State): (r: State)
    ensures |r.chain| == |st.chain| + 1 && r.chain[0] == map[] && r.chain[1..] == st.chain
    ensures r.diags == st.diags && r.refs == st.refs && r.stamped == st.stamped && r.openers == st.openers
    ensures r.scopes == st.scopes
  {
    st.(chain := [map[]] + st.chain)
  }

  /**
   * Function declaration `id` opens its children environment: it has one from now on, and any
   * earlier scope recorded for `id` is replaced by the open one.
   */
  function Opening(st: State, id: NodeId): (r: State)
    ensures r.openers == st.openers + {id} && id !in r.scopes
    ensures forall k :: k in st.scopes && k != id ==> k in r.scopes && r.scopes[k] == st.scopes[k]
    ensures r.chain == st.chain && r.diags == st.diags && r.refs == st.refs && r.stamped == st.stamped
  {
    st.(openers := st.openers + {id}, scopes := st.scopes - {id})
  }

  /**
   * The walk inside function declaration `id` is over: its scope, the innermost of `inner`, is
   * recorded as the function's, and the walk goes on in the chain of `outer`.
   */
  function Closed(inner: State, outer: State, id: NodeId): (r: State)
    requires |inner.chain| >= 1
    ensures r.chain == outer.chain && id in r.scopes && r.scopes[id] == inner.chain[0]
    ensures forall k :: k in inner.scopes && k != id ==> k in r.scopes && r.scopes[k] == inner.scopes[k]
    ensures r.scopes.Keys == inner.scopes.Keys + {id}
    ensures r.diags == inner.diags && r.refs == inner.refs && r.stamped == inner.stamped && r.openers == inner.openers
  {
    inner.(chain := outer.chain, scopes := inner.scopes[id := inner.chain[0]])
  }

  /** The state with no scope recorded: what the walk computes besides the scopes. */
  function Unscoped(st: State): (r: State)
    ensures r.scopes == map[] && r.chain == st.chain && r.diags == st.diags && r.refs == st.refs
    ensures r.stamped == st.stamped && r.openers == st.openers
  {
    st.(scopes := map[])
  }

  /** The `envSpec` of a function declaration, as its steps: open, declare, walk the children inside, close. */
  lemma WalkFunDecl(n: Node, st: State, pre: State, outer: State)
    requires |st.chain| >= 1 && n.FunDecl?
    requires pre == Opening(st, n.id)
    requires outer == DeclareName(pre, n, n.name)
    ensures WalkEnvSpec(n, st) == Closed(WalkSeq(ChildNodes(n), Opened(outer)), outer, n.id)
  {
  }

  /**
   * The scope a function declaration leaves behind: its children environment binds what the walk
   * of the children declared in it, and nothing else of the incoming state.
   */
  lemma {:induction false} FunScope(n: Node, st: State)
    requires |st.chain| >= 1 && n.FunDecl?
    ensures WalkEnvSpec(n, st).scopes[n.id] ==
            WalkSeq(ChildNodes(n), Opened(DeclareName(Opening(st, n.id), n, n.name))).chain[0]
    ensures WalkEnvSpec(n, st).chain == DeclareName(st, n, n.name).chain
  {
    WalkFunDecl(n, st, Opening(st, n.id), DeclareName(Opening(st, n.id), n, n.name));
  }

  /** Populating a node without child nodes, other than a symbol literal, only stamps it. */
  lemma LeafWalk(n: Node, st: State)
    requires |st.chain| >= 1
    requires n.Identifier? || n.UnitLiteral? || n.BooleanLiteral? || n.IntLiteral? || n.Operator? ||
             n.SymbolType? || n.ScalarType?
    ensures Walk(n, st) == st.(stamped := st.stamped + {n.id})
  {
    LeafChildNodes(n);
    var st1 := st.(stamped := st.stamped + {n.id});
    assert Walk(n, st) == WalkEnvSpec(n, st1);
    assert WalkEnvSpec(n, st1) == WalkSeq([], st1);
  }

  /** A node without environment logic of its own is stamped, then walks its children in the incoming scope. */
  lemma DefaultWalk(n: Node, st: State)
    requires |st.chain| >= 1
    requires !(n.FunDecl? || n.Param? || n.ConstDecl? || n.TypeDecl? || n.SymbolLiteral?)
    ensures Walk(n, st) == WalkSeq(ChildNodes(n), st.(stamped := st.stamped + {n.id}))
  {
    var st1 := st.(stamped := st.stamped + {n.id});
    assert Walk(n, st) == WalkEnvSpec(n, st1);
  }

  /** Populating a symbol literal stamps it, then resolves its symbol from the incoming scope. */
  lemma SymbolLiteralWalk(n: Node, st: State)
    requires |st.chain| >= 1 && n.SymbolLiteral?
    ensures Walk(n, st) == GetOrDiag(st.(stamped := st.stamped + {n.id}), n.symbol, n)
  {
  }

  /** The `envSpec` of a symbol literal resolves its symbol from the incoming scope. */
  lemma SymbolLiteralEnvSpecWalk(n: Node, st: State)
    requires |st.chain| >= 1 && n.SymbolLiteral?
    ensures WalkEnvSpec(n, st) == GetOrDiag(st, n.symbol, n)
  {
  }

  /** The `envSpec` of a parameter, a constant or a type declaration walks the children, then declares the name. */
  lemma DeclEnvSpecWalk(n: Node, st: State)
    requires |st.chain| >= 1 && (n.Param? || n.ConstDecl? || n.TypeDecl?)
    ensures WalkEnvSpec(n, st) == DeclareName(WalkSeq(ChildNodes(n), st), n, n.name)
  {
  }

  /** The `envSpec` of a node without environment logic of its own walks its children in the incoming scope. */
  lemma DefaultEnvSpecWalk(n: Node, st: State)
    requires |st.chain| >= 1
    requires !(n.FunDecl? || n.Param? || n.ConstDecl? || n.TypeDecl? || n.SymbolLiteral?)
    ensures WalkEnvSpec(n, st) == WalkSeq(ChildNodes(n), st)
  {
  }

  /** Two nodes populated in turn. */
  lemma WalkSeqPair(a: Node, b: Node, st: State)
    requires |st.chain| >= 1
    ensures WalkSeq([a], st) == Walk(a, st)
    ensures WalkSeq([a, b], st) == Walk(b, Walk(a, st))
  {
    assert [a, b][..1] == [a] && [a][..0] == [];
  }

  /** The walk only adds: bindings to the incoming scope, diagnostics, references and stamps. */
  lemma {:induction false} WalkExtends(n: Node, st: State)
    requires |st.chain| >= 1
    ensures Extends(st, Walk(n, st))
    decreases 2 * Size(n), 1
  {
    WalkEnvSpecExtends(n, st.(stamped := st.stamped + {n.id}));
    assert Extends(st, st.(stamped := st.stamped + {n.id}));
    ExtendsTransitive(st, st.(stamped := st.stamped + {n.id}), Walk(n, st));
  }

  lemma {:induction false} WalkEnvSpecExtends(n: Node, st: State)
    requires |st.chain| >= 1
    ensures Extends(st, WalkEnvSpec(n, st))
    decreases 2 * Size(n), 0
  {
    ChildNodesSize(n);
    if n.FunDecl? {
      var pre := Opening(st, n.id);
      var outer := DeclareName(pre, n, n.name);
      WalkFunDecl(n, st, pre, outer);
      WalkSeqExtends(ChildNodes(n), Opened(outer));
      assert Extends(st, pre);
      ExtendsTransitive(st, pre, outer);
      ExtendsTransitive(st, outer, WalkEnvSpec(n, st));
    } else if !n.SymbolLiteral? {
      WalkSeqExtends(ChildNodes(n), st);
      ExtendsTransitive(st, WalkSeq(ChildNodes(n), st), WalkEnvSpec(n, st));
    }
  }

  lemma {:induction false} WalkSeqExtends(cs: seq<Node>, st: State)
    requires |st.chain| >= 1
    ensures Extends(st, WalkSeq(cs, st))
    decreases 2 * SeqSize(cs) + 1
  {
    if cs != [] {
      var mid := WalkSeq(cs[..|cs| - 1], st);
      WalkSeqExtends(cs[..|cs| - 1], st);
      WalkExtends(cs[|cs| - 1], mid);
      ExtendsTransitive(st, mid, WalkSeq(cs, st));
    }
  }

  /**
   * Every node the walk reaches has its own environment set, and every function declaration among
   * them its children environment: `populateLexicalEnv` stamps `n` and its walked descendants.
   */
  lemma {:induction false} WalkStamps(n: Node, st: State)
    requires |st.chain| >= 1
    ensures Walk(n, st).stamped == st.stamped + Ids(n)
    ensures Walk(n, st).openers == st.openers + FunIds(n)
    decreases 2 * Size(n), 1
  {
    var st1 := st.(stamped := st.stamped + {n.id});
    assert Walk(n, st) == WalkEnvSpec(n, st1);
    WalkEnvSpecStamps(n, st1);
    assert Ids(n) == {n.id} + ChildIds(n);
  }

  lemma {:induction false} WalkEnvSpecStamps(n: Node, st: State)
    requires |st.chain| >= 1
    ensures WalkEnvSpec(n, st).stamped == st.stamped + ChildIds(n)
    ensures WalkEnvSpec(n, st).openers == st.openers + (if n.FunDecl? then {n.id} else {}) + ChildFunIds(n)
    decreases 2 * Size(n), 0
  {
    ChildNodesSize(n);
    if n.FunDecl? {
      var pre := Opening(st, n.id);
      var outer := DeclareName(pre, n, n.name);
      WalkFunDecl(n, st, pre, outer);
      WalkSeqStamps(ChildNodes(n), Opened(outer));
    } else if !n.SymbolLiteral? {
      WalkSeqStamps(ChildNodes(n), st);
    }
  }

  lemma {:induction false} WalkSeqStamps(cs: seq<Node>, st: State)
    requires |st.chain| >= 1
    ensures WalkSeq(cs, st).stamped == st.stamped + SeqIds(cs)
    ensures WalkSeq(cs, st).openers == st.openers + SeqFunIds(cs)
    decreases 2 * SeqSize(cs) + 1
  {
    if cs != [] {
      WalkSeqStamps(cs[..|cs| - 1], st);
      WalkStamps(cs[|cs| - 1], WalkSeq(cs[..|cs| - 1], st));
    }
  }

  /** Declaring a name does not look at the scopes. */
  lemma DeclareNameUnscoped(st: State, st': State, decl: Node, name: Nullable<Node>)
    requires |st.chain| >= 1 && Unscoped(st) == Unscoped(st')
    ensures Unscoped(DeclareName(st, decl, name)) == Unscoped(DeclareName(st', decl, name))
  {
    if DeclaredSymbol(name).Some? {
      assert st.chain == st'.chain;
    }
  }

  /**
   * The scopes recorded never steer the walk: two states that differ only in their scopes are
   * walked to states that differ only in their scopes.
   */
  lemma {:induction false} WalkUnscoped(n: Node, st: State, st': State)
    requires |st.chain| >= 1 && Unscoped(st) == Unscoped(st')
    ensures Unscoped(Walk(n, st)) == Unscoped(Walk(n, st'))
    decreases 2 * Size(n), 1
  {
    WalkEnvSpecUnscoped(n, st.(stamped := st.stamped + {n.id}), st'.(stamped := st'.stamped + {n.id}));
  }

  lemma {:induction false} WalkEnvSpecUnscoped(n: Node, st: State, st': State)
    requires |st.chain| >= 1 && Unscoped(st) == Unscoped(st')
    ensures Unscoped(WalkEnvSpec(n, st)) == Unscoped(WalkEnvSpec(n, st'))
    decreases 2 * Size(n), 0
  {
    ChildNodesSize(n);
    if n.FunDecl? {
      var outer, outer' := DeclareName(Opening(st, n.id), n, n.name), DeclareName(Opening(st', n.id), n, n.name);
      WalkFunDecl(n, st, Opening(st, n.id), outer);
      WalkFunDecl(n, st', Opening(st', n.id), outer');
      DeclareNameUnscoped(Opening(st, n.id), Opening(st', n.id), n, n.name);
      WalkSeqUnscoped(ChildNodes(n), Opened(outer), Opened(outer'));
    } else if n.SymbolLiteral? {
      assert st.chain == st'.chain;
    } else {
      WalkSeqUnscoped(ChildNodes(n), st, st');
      if n.Param? || n.ConstDecl? || n.TypeDecl? {
        DeclareNameUnscoped(WalkSeq(ChildNodes(n), st), WalkSeq(ChildNodes(n), st'), n, n.name);
      }
    }
  }

  lemma {:induction false} WalkSeqUnscoped(cs: seq<Node>, st: State, st': State)
    requires |st.chain| >= 1 && Unscoped(st) == Unscoped(st')
    ensures Unscoped(WalkSeq(cs, st)) == Unscoped(WalkSeq(cs, st'))
    decreases 2 * SeqSize(cs) + 1
  {
    if cs != [] {
      WalkSeqUnscoped(cs[..|cs| - 1], st, st');
      WalkUnscoped(cs[|cs| - 1], WalkSeq(cs[..|cs| - 1], st), WalkSeq(cs[..|cs| - 1], st'));
    }
  }

  /** After the walk of `n`, exactly the function declarations of its tree have a scope recorded, besides the earlier ones. */
  lemma {:induction false} WalkScopeKeys(n: Node, st: State)
    requires |st.chain| >= 1
    ensures Walk(n, st).scopes.Keys == st.scopes.Keys + FunIds(n)
    decreases 2 * Size(n), 1
  {
    WalkEnvSpecScopeKeys(n, st.(stamped := st.stamped + {n.id}));
  }

  lemma {:induction false} WalkEnvSpecScopeKeys(n: Node, st: State)
    requires |st.chain| >= 1
    ensures WalkEnvSpec(n, st).scopes.Keys == st.scopes.Keys + FunIds(n)
    decreases 2 * Size(n), 0
  {
    ChildNodesSize(n);
    if n.FunDecl? {
      var outer := DeclareName(Opening(st, n.id), n, n.name);
      WalkFunDecl(n, st, Opening(st, n.id), outer);
      WalkSeqScopeKeys(ChildNodes(n), Opened(outer));
      assert outer.scopes.Keys == st.scopes.Keys - {n.id};
      assert FunIds(n) == {n.id} + ChildFunIds(n);
    } else if n.SymbolLiteral? {
      SymbolLiteralEnvSpecWalk(n, st);
      LeafIds(n);
    } else if n.Param? || n.ConstDecl? || n.TypeDecl? {
      DeclEnvSpecWalk(n, st);
      WalkSeqScopeKeys(ChildNodes(n), st);
    } else {
      DefaultEnvSpecWalk(n, st);
      WalkSeqScopeKeys(ChildNodes(n), st);
    }
  }

  lemma {:induction false} WalkSeqScopeKeys(cs: seq<Node>, st: State)
    requires |st.chain| >= 1
    ensures WalkSeq(cs, st).scopes.Keys == st.scopes.Keys + SeqFunIds(cs)
    decreases 2 * SeqSize(cs) + 1
  {
    if cs != [] {
      WalkSeqScopeKeys(cs[..|cs| - 1], st);
      WalkScopeKeys(cs[|cs| - 1], WalkSeq(cs[..|cs| - 1], st));
    }
  }
}
