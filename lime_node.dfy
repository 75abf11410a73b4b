/**
 * The scope-resolution walk over Lime nodes: `populateLexicalEnv`, the `envSpec` of each node
 * class, `populateChildren`, `openEnv`, `insertOrDiag` and `getOrDiag`. Each method is proved to
 * compute the value-level walk of `ScopeSpec` on the environments and the unit it changes.
 */
module LimeNodes {
  import opened Wrappers
  import opened Ast
  import opened Diagnostics
  import opened LexicalEnvironments
  import opened AnalysisUnits
  import opened ScopeSpec

  /**
   * The part of the unit and of the environments that the walk reads and writes: the chain of `e`,
   * and the bindings of every children environment that is not on that chain, that is, of every
   * function declaration whose walk is over.
   */
  ghost function Snapshot(unit: AnalysisUnit, e: LexicalEnvironment): State
    requires e.Valid()
    reads unit`lexEnvDiagnostics, unit`referencedDecl, unit`nodeEnv, unit`childrenEnv
    reads e`bindings, e.ancestors`bindings, unit.childrenEnv.Values
  {
    State(e.Chain(), unit.lexEnvDiagnostics, unit.referencedDecl, unit.nodeEnv.Keys, unit.childrenEnv.Keys,
          ClosedScopes(unit.childrenEnv, {e} + e.ancestors))
  }

  /**
   * State `s` is what the walk computes, `w`: equal to it but for the scopes recorded, and equal
   * outright when the walked tree's ids are `distinct`. With repeated ids a nested function would
   * overwrite the children environment of an enclosing one of the same id.
   */
  ghost predicate Walked(s: State, w: State, distinct: bool) {
    Unscoped(s) == Unscoped(w) && (distinct ==> s == w)
  }

  /** The bindings of the children environments of `c` outside `open`, by the id of the node that opened each. */
  ghost function ClosedScopes(c: map<NodeId, LexicalEnvironment>, open: set<LexicalEnvironment>): map<NodeId, Bindings>
    reads c.Values
  {
    map id | id in c && c[id] !in open :: c[id].bindings
  }

  /** The recorded scopes are `m` when `m` holds the current bindings of exactly the environments that are not open. */
  lemma ClosedScopesAre(c: map<NodeId, LexicalEnvironment>, open: set<LexicalEnvironment>, m: map<NodeId, Bindings>)
    requires forall id :: id in m <==> id in c && c[id] !in open
    requires forall id :: id in m ==> c[id].bindings == m[id]
    ensures ClosedScopes(c, open) == m
  {
  }

  /** An entry replaced by an environment that is not open: its bindings are recorded under its id. */
  lemma ClosedScopesUpdate(c: map<NodeId, LexicalEnvironment>, k: NodeId, v: LexicalEnvironment, open: set<LexicalEnvironment>)
    requires v !in open
    ensures ClosedScopes(c[k := v], open) == ClosedScopes(c, open)[k := v.bindings]
  {
  }

  /** An entry replaced by an environment that becomes open, and that no other entry holds: its id is no longer recorded. */
  lemma ClosedScopesOpen(c: map<NodeId, LexicalEnvironment>, k: NodeId, v: LexicalEnvironment, open: set<LexicalEnvironment>)
    requires forall id :: id in c ==> c[id] != v
    ensures ClosedScopes(c[k := v], {v} + open) == ClosedScopes(c, open) - {k}
  {
  }

  /** The environment of entry `k` and of no other entry leaves the open set: `k`'s scope is recorded. */
  lemma ClosedScopesClose(c: map<NodeId, LexicalEnvironment>, k: NodeId, v: LexicalEnvironment, open: set<LexicalEnvironment>)
    requires k in c && c[k] == v && v !in open
    requires forall id :: id in c && id != k ==> c[id] != v
    ensures ClosedScopes(c, open) == ClosedScopes(c, {v} + open)[k := v.bindings]
  {
  }

  /**
   * Where populating `n` in `e` leaves it: `n` resides in `e`; a function declaration has a
   * children environment whose parent is `e`, and its walked children reside there; the walked
   * children of any other node reside in `e`, each placed the same way in turn.
   */
  ghost predicate EnvsPlaced(n: Node, e: LexicalEnvironment, nodeEnv: map<NodeId, LexicalEnvironment>,
                             childrenEnv: map<NodeId, LexicalEnvironment>)
    decreases 2 * Size(n), 1
  {
    n.id in nodeEnv && nodeEnv[n.id] == e && ChildEnvsPlaced(n, e, nodeEnv, childrenEnv)
  }

  /** The walked children of `n` placed as `envSpec` places them, `n` residing in `e`. */
  ghost predicate ChildEnvsPlaced(n: Node, e: LexicalEnvironment, nodeEnv: map<NodeId, LexicalEnvironment>,
                                  childrenEnv: map<NodeId, LexicalEnvironment>)
    decreases 2 * Size(n), 0
  {
    ChildNodesSize(n);
    if n.FunDecl? then
      n.id in childrenEnv && childrenEnv[n.id].parent == e && SeqEnvsPlaced(ChildNodes(n), childrenEnv[n.id], nodeEnv, childrenEnv)
    else
      SeqEnvsPlaced(ChildNodes(n), e, nodeEnv, childrenEnv)
  }

  /** Every node of `cs` placed in `e`. */
  ghost predicate SeqEnvsPlaced(cs: seq<Node>, e: LexicalEnvironment, nodeEnv: map<NodeId, LexicalEnvironment>,
                                childrenEnv: map<NodeId, LexicalEnvironment>)
    decreases 2 * SeqSize(cs) + 1
  {
    cs == [] || (SeqEnvsPlaced(cs[..|cs| - 1], e, nodeEnv, childrenEnv) && EnvsPlaced(cs[|cs| - 1], e, nodeEnv, childrenEnv))
  }

  /** The entries of `m` for `ids` are still in `m'`, unchanged. */
  ghost predicate AgreeOn(m: map<NodeId, LexicalEnvironment>, m': map<NodeId, LexicalEnvironment>, ids: set<NodeId>) {
    forall id :: id in m && id in ids ==> id in m' && m'[id] == m[id]
  }

  /** The entries of `m` for every id outside `ids` are still in `m'`, unchanged. */
  ghost predicate AgreeOutside(m: map<NodeId, LexicalEnvironment>, m': map<NodeId, LexicalEnvironment>, ids: set<NodeId>) {
    forall id :: id in m && id !in ids ==> id in m' && m'[id] == m[id]
  }

  /** Placement only looks at the entries of the tree's own ids. */
  lemma {:induction false} EnvsPlacedFrame(n: Node, e: LexicalEnvironment, m: map<NodeId, LexicalEnvironment>,
                                           c: map<NodeId, LexicalEnvironment>, m': map<NodeId, LexicalEnvironment>,
                                           c': map<NodeId, LexicalEnvironment>)
    requires EnvsPlaced(n, e, m, c) && AgreeOn(m, m', Ids(n)) && AgreeOn(c, c', Ids(n))
    ensures EnvsPlaced(n, e, m', c')
    decreases 2 * Size(n), 1
  {
    ChildEnvsPlacedFrame(n, e, m, c, m', c');
  }

  lemma {:induction false} ChildEnvsPlacedFrame(n: Node, e: LexicalEnvironment, m: map<NodeId, LexicalEnvironment>,
                                                c: map<NodeId, LexicalEnvironment>, m': map<NodeId, LexicalEnvironment>,
                                                c': map<NodeId, LexicalEnvironment>)
    requires ChildEnvsPlaced(n, e, m, c) && AgreeOn(m, m', Ids(n)) && AgreeOn(c, c', Ids(n))
    ensures ChildEnvsPlaced(n, e, m', c')
    decreases 2 * Size(n), 0
  {
    ChildNodesSize(n);
    assert Ids(n) == {n.id} + SeqIds(ChildNodes(n));
    var inner := if n.FunDecl? then c[n.id] else e;
    SeqEnvsPlacedFrame(ChildNodes(n), inner, m, c, m', c');
  }

  lemma {:induction false} SeqEnvsPlacedFrame(cs: seq<Node>, e: LexicalEnvironment, m: map<NodeId, LexicalEnvironment>,
                                              c: map<NodeId, LexicalEnvironment>, m': map<NodeId, LexicalEnvironment>,
                                              c': map<NodeId, LexicalEnvironment>)
    requires SeqEnvsPlaced(cs, e, m, c) && AgreeOn(m, m', SeqIds(cs)) && AgreeOn(c, c', SeqIds(cs))
    ensures SeqEnvsPlaced(cs, e, m', c')
    decreases 2 * SeqSize(cs) + 1
  {
    if cs != [] {
      SeqEnvsPlacedFrame(cs[..|cs| - 1], e, m, c, m', c');
      EnvsPlacedFrame(cs[|cs| - 1], e, m, c, m', c');
    }
  }

  lemma {:induction false} SeqEnvsPlacedElem(cs: seq<Node>, e: LexicalEnvironment, m: map<NodeId, LexicalEnvironment>,
                                             c: map<NodeId, LexicalEnvironment>, i: nat)
    requires SeqEnvsPlaced(cs, e, m, c) && i < |cs|
    ensures EnvsPlaced(cs[i], e, m, c)
    decreases |cs|
  {
    if i < |cs| - 1 {
      assert cs[..|cs| - 1][i] == cs[i];
      SeqEnvsPlacedElem(cs[..|cs| - 1], e, m, c, i);
    }
  }

  /** The children environments `c` holds for `ids`, in order; an id without one contributes nothing. */
  ghost function EnvsOf(c: map<NodeId, LexicalEnvironment>, ids: seq<NodeId>): seq<LexicalEnvironment> {
    if ids == [] then []
    else EnvsOf(c, ids[..|ids| - 1]) + (if ids[|ids| - 1] in c then [c[ids[|ids| - 1]]] else [])
  }

  lemma {:induction false} EnvsOfConcat(c: map<NodeId, LexicalEnvironment>, a: seq<NodeId>, b: seq<NodeId>)
    ensures EnvsOf(c, a + b) == EnvsOf(c, a) + EnvsOf(c, b)
  {
    if b != [] {
      assert (a + b)[..|a + b| - 1] == a + b[..|b| - 1];
      EnvsOfConcat(c, a, b[..|b| - 1]);
    } else {
      assert a + b == a;
    }
  }

  /** The environments of `ids` only depend on the entries of `ids`. */
  lemma {:induction false} EnvsOfAgree(c: map<NodeId, LexicalEnvironment>, c': map<NodeId, LexicalEnvironment>, ids: seq<NodeId>)
    requires forall k :: k in ids ==> k in c && k in c' && c'[k] == c[k]
    ensures EnvsOf(c', ids) == EnvsOf(c, ids)
  {
    if ids != [] {
      EnvsOfAgree(c, c', ids[..|ids| - 1]);
    }
  }

  /** In a placed tree every outermost function declaration has its children environment, and is a node of the tree. */
  lemma {:induction false} TopFunsPlaced(n: Node, e: LexicalEnvironment, m: map<NodeId, LexicalEnvironment>,
                                         c: map<NodeId, LexicalEnvironment>)
    requires EnvsPlaced(n, e, m, c)
    ensures forall k :: k in TopFunIds(n) ==> k in c && k in Ids(n)
    decreases 2 * Size(n), 1
  {
    ChildNodesSize(n);
    if !n.FunDecl? {
      SeqTopFunsPlaced(ChildNodes(n), e, m, c);
    }
  }

  lemma {:induction false} SeqTopFunsPlaced(cs: seq<Node>, e: LexicalEnvironment, m: map<NodeId, LexicalEnvironment>,
                                            c: map<NodeId, LexicalEnvironment>)
    requires SeqEnvsPlaced(cs, e, m, c)
    ensures forall k :: k in SeqTopFunIds(cs) ==> k in c && k in SeqIds(cs)
    decreases 2 * SeqSize(cs) + 1
  {
    if cs != [] {
      SeqTopFunsPlaced(cs[..|cs| - 1], e, m, c);
      TopFunsPlaced(cs[|cs| - 1], e, m, c);
    }
  }

  /**
   * Where a placed node's children reside: a function declaration's children in the environment
   * it opened, whose parent is the function's own environment; any other node's children in the
   * node's own environment.
   */
  lemma ChildrenResidence(n: Node, e: LexicalEnvironment, m: map<NodeId, LexicalEnvironment>, c: map<NodeId, LexicalEnvironment>)
    requires EnvsPlaced(n, e, m, c)
    ensures m[n.id] == e
    ensures n.FunDecl? ==> n.id in c && c[n.id].parent == e
    ensures forall k :: k in ChildNodes(n) ==> k.id in m && m[k.id] == (if n.FunDecl? then c[n.id] else e)
  {
    ChildNodesSize(n);
    var inner := if n.FunDecl? then c[n.id] else e;
    forall k | k in ChildNodes(n) ensures k.id in m && m[k.id] == inner {
      var i :| 0 <= i < |ChildNodes(n)| && ChildNodes(n)[i] == k;
      SeqEnvsPlacedElem(ChildNodes(n), inner, m, c, i);
    }
  }

  /** Without function declarations no environment is opened: every node of the tree resides in `e`. */
  lemma {:induction false} PlacedWithoutFunctions(n: Node, e: LexicalEnvironment, m: map<NodeId, LexicalEnvironment>,
                                                  c: map<NodeId, LexicalEnvironment>)
    requires EnvsPlaced(n, e, m, c) && FunIds(n) == {}
    ensures forall id :: id in Ids(n) ==> id in m && m[id] == e
    decreases 2 * Size(n), 1
  {
    ChildNodesSize(n);
    SeqPlacedWithoutFunctions(ChildNodes(n), e, m, c);
  }

  lemma {:induction false} SeqPlacedWithoutFunctions(cs: seq<Node>, e: LexicalEnvironment, m: map<NodeId, LexicalEnvironment>,
                                                     c: map<NodeId, LexicalEnvironment>)
    requires SeqEnvsPlaced(cs, e, m, c) && SeqFunIds(cs) == {}
    ensures forall id :: id in SeqIds(cs) ==> id in m && m[id] == e
    decreases 2 * SeqSize(cs) + 1
  {
    if cs != [] {
      SeqPlacedWithoutFunctions(cs[..|cs| - 1], e, m, c);
      PlacedWithoutFunctions(cs[|cs| - 1], e, m, c);
    }
  }

  /**
   * `childrenNodes`: the list elements of a list node; for any other node, the `@Child` values
   * that are nodes, or present `Optional`s of nodes, in index order. Null children, empty
   * `Optional`s and scalar values are skipped.
   */
  method ChildrenNodes(n: Node) returns (res: seq<Node>)
    ensures res == ChildNodes(n)
  {
    if n.ListNode? {
      return n.elems;
    }
    res := NodesOfChildren(ChildrenWithName(n));
  }

  /** The loop of `childrenNodes` over the child pairs. */
  method NodesOfChildren(ps: seq<ChildPair>) returns (res: seq<Node>)
    ensures res == NodesOf(ps)
  {
    res := [];
    var i := 0;
    while i < |ps|
      invariant 0 <= i <= |ps|
      invariant res == NodesOf(ps[..i])
    {
      match ps[i].value {
        case NodeChild(c) => res := res + [c];
        case PresentChild(c) => res := res + [c];
        case _ =>
      }
      NodesOfSnoc(ps[..i], ps[i]);
      assert ps[..i + 1] == ps[..i] + [ps[i]];
      i := i + 1;
    }
    assert ps[..i] == ps;
  }

  /**
   * `populateLexicalEnv`: stamp `n` with `e`, then run its `envSpec`. Only the entries of the
   * tree's own nodes change, and in a tree of distinct nodes each resides where `envSpec` puts it.
   */
  method PopulateLexicalEnv(unit: AnalysisUnit, n: Node, e: LexicalEnvironment)
    requires e.Valid()
    modifies unit`nodeEnv, unit`childrenEnv, unit`lexEnvDiagnostics, unit`referencedDecl, e
    ensures Walked(Snapshot(unit, e), Walk(n, old(Snapshot(unit, e))), DistinctIds(n))
    ensures AgreeOutside(old(unit.nodeEnv), unit.nodeEnv, Ids(n)) && AgreeOutside(old(unit.childrenEnv), unit.childrenEnv, Ids(n))
    ensures forall id :: id in unit.childrenEnv ==>
              (id in old(unit.childrenEnv) && unit.childrenEnv[id] == old(unit.childrenEnv)[id]) || fresh(unit.childrenEnv[id])
    ensures DistinctIds(n) ==> EnvsPlaced(n, e, unit.nodeEnv, unit.childrenEnv)
    ensures DistinctIds(n) ==> e.children == old(e.children) + EnvsOf(unit.childrenEnv, TopFunIds(n))
    decreases Size(n), 2
  {
    ghost var s0 := Snapshot(unit, e);
    unit.nodeEnv := unit.nodeEnv[n.id := e];
    assert unit.nodeEnv.Keys == s0.stamped + {n.id};
    assert Snapshot(unit, e) == s0.(stamped := s0.stamped + {n.id});
    EnvSpec(unit, n, e);
    assert Ids(n) == {n.id} + ChildIds(n);
    if DistinctIds(n) {
      DistinctChildren(n);
    }
  }

  /**
   * `envSpec`, run once the node is stamped with its environment `e`: the override of a function
   * declaration, of a parameter, a constant or a type declaration, or of a symbol literal; any
   * other node walks its children in `e`.
   */
  method EnvSpec(unit: AnalysisUnit, n: Node, e: LexicalEnvironment)
    requires e.Valid()
    requires n.id in unit.nodeEnv && unit.nodeEnv[n.id] == e
    modifies unit`nodeEnv, unit`childrenEnv, unit`lexEnvDiagnostics, unit`referencedDecl, e
    ensures Walked(Snapshot(unit, e), WalkEnvSpec(n, old(Snapshot(unit, e))), DistinctIds(n))
    ensures AgreeOutside(old(unit.nodeEnv), unit.nodeEnv, ChildIds(n)) && AgreeOutside(old(unit.childrenEnv), unit.childrenEnv, Ids(n))
    ensures forall id :: id in unit.childrenEnv ==>
              (id in old(unit.childrenEnv) && unit.childrenEnv[id] == old(unit.childrenEnv)[id]) || fresh(unit.childrenEnv[id])
    ensures DistinctIds(n) ==> ChildEnvsPlaced(n, e, unit.nodeEnv, unit.childrenEnv)
    ensures DistinctIds(n) ==> e.children == old(e.children) + EnvsOf(unit.childrenEnv, TopFunIds(n))
    decreases Size(n), 1
  {
    if n.FunDecl? {
      FunDeclEnvSpec(unit, n, e);
      if DistinctIds(n) {
        FunTopFuns(n, unit.childrenEnv);
      }
    } else if n.Param? || n.ConstDecl? || n.TypeDecl? {
      ghost var c0 := unit.childrenEnv;
      DeclEnvSpec(unit, n, n.name, e);
      AgreeOutsideMore(c0, unit.childrenEnv, ChildIds(n), Ids(n));
    } else if n.SymbolLiteral? {
      SymbolLiteralEnvSpec(unit, n, e);
      LeafChildNodes(n);
      assert TopFunIds(n) == [];
    } else {
      ghost var c0 := unit.childrenEnv;
      DefaultEnvSpecWalk(n, Snapshot(unit, e));
      PopulateChildren(unit, n, e);
      AgreeOutsideMore(c0, unit.childrenEnv, ChildIds(n), Ids(n));
      if DistinctIds(n) {
        DistinctChildren(n);
        assert TopFunIds(n) == SeqTopFunIds(ChildNodes(n));
      }
    }
  }

  /** A function declaration is its own outermost function: the environments it opens below its own are its children environment. */
  lemma FunTopFuns(n: Node, c: map<NodeId, LexicalEnvironment>)
    requires n.FunDecl? && n.id in c
    ensures EnvsOf(c, TopFunIds(n)) == [c[n.id]]
  {
    assert TopFunIds(n) == [n.id] && [n.id][..0] == [];
  }

  /** Maps that agree outside a set of ids agree outside any larger set. */
  lemma AgreeOutsideMore(m: map<NodeId, LexicalEnvironment>, m': map<NodeId, LexicalEnvironment>, ids: set<NodeId>, more: set<NodeId>)
    requires AgreeOutside(m, m', ids) && ids <= more
    ensures AgreeOutside(m, m', more)
  {
  }

  /**
   * `FunDecl.envSpec`: open a new environment below `e`, declare the function's name in `e`, then
   * walk the children (name, parameters, return type, body) in the new environment.
   */
  method FunDeclEnvSpec(unit: AnalysisUnit, n: Node, e: LexicalEnvironment)
    requires e.Valid() && n.FunDecl?
    modifies unit`nodeEnv, unit`childrenEnv, unit`lexEnvDiagnostics, unit`referencedDecl, e
    ensures Walked(Snapshot(unit, e), WalkEnvSpec(n, old(Snapshot(unit, e))), DistinctIds(n))
    ensures AgreeOutside(old(unit.nodeEnv), unit.nodeEnv, ChildIds(n)) && AgreeOutside(old(unit.childrenEnv), unit.childrenEnv, Ids(n))
    ensures forall id :: id in unit.childrenEnv ==>
              (id in old(unit.childrenEnv) && unit.childrenEnv[id] == old(unit.childrenEnv)[id]) || fresh(unit.childrenEnv[id])
    ensures DistinctIds(n) ==> ChildEnvsPlaced(n, e, unit.nodeEnv, unit.childrenEnv) && fresh(unit.childrenEnv[n.id])
    ensures DistinctIds(n) ==> unit.childrenEnv[n.id].bindings == WalkEnvSpec(n, old(Snapshot(unit, e))).scopes[n.id]
    ensures DistinctIds(n) ==> e.children == old(e.children) + [unit.childrenEnv[n.id]]
    ensures DistinctIds(n) ==> unit.childrenEnv[n.id].children == EnvsOf(unit.childrenEnv, SeqTopFunIds(ChildNodes(n)))
    decreases Size(n), 0, 1
  {
    ghost var s0 := Snapshot(unit, e);
    ghost var c0 := unit.childrenEnv;
    var inner := OpenAndDeclare(unit, n, e);
    ghost var chain := e.Chain();
    ghost var c1 := unit.childrenEnv;
    ghost var si := Snapshot(unit, inner);
    PopulateChildren(unit, n, inner);
    assert Unscoped(Snapshot(unit, e)) == Unscoped(Snapshot(unit, inner)).(chain := chain);
    var outer := DeclareName(Opening(s0, n.id), n, n.name);
    WalkFunDecl(n, s0, Opening(s0, n.id), outer);
    FunDeclPlaced(n, e, inner, c0, c1, unit.nodeEnv, unit.childrenEnv);
    if DistinctIds(n) {
      DistinctChildren(n);
      forall id | id in unit.childrenEnv && id != n.id
        ensures unit.childrenEnv[id] != inner
      {
        if id in c1 && unit.childrenEnv[id] == c1[id] {
          assert c1[id] == c0[id];
        }
      }
      ClosedScopesClose(unit.childrenEnv, n.id, inner, {e} + e.ancestors);
      assert inner.children == EnvsOf(unit.childrenEnv, SeqTopFunIds(ChildNodes(n)));
    }
  }

  /** The children environment a function declaration opened is kept while its children are walked. */
  lemma FunDeclPlaced(n: Node, e: LexicalEnvironment, inner: LexicalEnvironment, c0: map<NodeId, LexicalEnvironment>,
                      c1: map<NodeId, LexicalEnvironment>, m: map<NodeId, LexicalEnvironment>, c: map<NodeId, LexicalEnvironment>)
    requires n.FunDecl? && inner.parent == e && c1 == c0[n.id := inner]
    requires AgreeOutside(c1, c, ChildIds(n))
    requires SeqDistinctIds(ChildNodes(n)) ==> SeqEnvsPlaced(ChildNodes(n), inner, m, c)
    ensures AgreeOutside(c0, c, Ids(n))
    ensures DistinctIds(n) ==> ChildEnvsPlaced(n, e, m, c) && c[n.id] == inner
  {
    assert Ids(n) == {n.id} + ChildIds(n);
    if DistinctIds(n) {
      DistinctChildren(n);
      assert c[n.id] == inner;
      ChildNodesSize(n);
    }
  }

  /** The first steps of `FunDecl.envSpec`: open the function's environment, then declare its name in `e`. */
  method OpenAndDeclare(unit: AnalysisUnit, n: Node, e: LexicalEnvironment) returns (inner: LexicalEnvironment)
    requires e.Valid() && n.FunDecl?
    modifies unit`childrenEnv, unit`lexEnvDiagnostics, e
    ensures fresh(inner) && inner.Valid() && inner.parent == e
    ensures e.children == old(e.children) + [inner] && inner.children == []
    ensures unit.childrenEnv == old(unit.childrenEnv)[n.id := inner]
    ensures forall id :: id in old(unit.childrenEnv) ==> old(unit.childrenEnv)[id] != inner
    ensures Snapshot(unit, inner) == Opened(DeclareName(Opening(old(Snapshot(unit, e)), n.id), n, n.name))
  {
    ghost var s0 := Snapshot(unit, e);
    inner := OpenEnv(unit, n, e);
    ghost var s1 := Snapshot(unit, inner);
    assert Inside(map[], Outside(s1)) == s1;
    DeclareOutside(unit, n, e, inner);
  }

  /** The state seen from the scope enclosing the innermost one. */
  function Outside(st: State): (r: State)
    requires |st.chain| >= 2
    ensures r == st.(chain := st.chain[1..])
  {
    st.(chain := st.chain[1..])
  }

  /** The state seen from a scope binding `b`, opened below the innermost one; `Inside(map[], st)` is `Opened(st)`. */
  function Inside(b: Bindings, st: State): (r: State)
    requires |st.chain| >= 1
    ensures r == st.(chain := [b] + st.chain) && Outside(r) == st
  {
    st.(chain := [b] + st.chain)
  }

  /** The function's name declared in `e`, while the walk looks from the function's environment `inner` below it. */
  method DeclareOutside(unit: AnalysisUnit, n: Node, e: LexicalEnvironment, inner: LexicalEnvironment)
    requires inner.Valid() && inner.parent == e && n.FunDecl?
    modifies unit`lexEnvDiagnostics, e`bindings
    ensures Snapshot(unit, inner) == Inside(inner.bindings, DeclareName(Outside(old(Snapshot(unit, inner))), n, n.name))
  {
    if DeclaredSymbol(n.name).Some? {
      ghost var s0 := Snapshot(unit, inner);
      ghost var c, open := unit.childrenEnv, {inner} + inner.ancestors;
      ghost var closed := ClosedScopes(c, open);
      var _ := InsertOrDiag(unit, n, n.name.value.text, n.name.value, e);
      assert forall id :: id in closed ==> c[id] != e;
      ClosedScopesAre(c, open, closed);
      assert inner.Chain() == [inner.bindings] + e.Chain();
    }
  }

  /**
   * `Param.envSpec`, `ConstDecl.envSpec` and `TypeDecl.envSpec`: walk the children in `e`, then
   * declare the name there, so that the declaration is not in scope in its own children.
   */
  method DeclEnvSpec(unit: AnalysisUnit, n: Node, name: Nullable<Node>, e: LexicalEnvironment)
    requires e.Valid()
    requires (n.Param? || n.ConstDecl? || n.TypeDecl?) && n.name == name
    modifies unit`nodeEnv, unit`childrenEnv, unit`lexEnvDiagnostics, unit`referencedDecl, e
    ensures Walked(Snapshot(unit, e), WalkEnvSpec(n, old(Snapshot(unit, e))), DistinctIds(n))
    ensures AgreeOutside(old(unit.nodeEnv), unit.nodeEnv, ChildIds(n)) && AgreeOutside(old(unit.childrenEnv), unit.childrenEnv, ChildIds(n))
    ensures forall id :: id in unit.childrenEnv ==>
              (id in old(unit.childrenEnv) && unit.childrenEnv[id] == old(unit.childrenEnv)[id]) || fresh(unit.childrenEnv[id])
    ensures DistinctIds(n) ==> ChildEnvsPlaced(n, e, unit.nodeEnv, unit.childrenEnv)
    ensures DistinctIds(n) ==> e.children == old(e.children) + EnvsOf(unit.childrenEnv, TopFunIds(n))
    decreases Size(n), 0, 1
  {
    ghost var s0 := Snapshot(unit, e);
    PopulateChildren(unit, n, e);
    ghost var mid := Snapshot(unit, e);
    if DeclaredSymbol(name).Some? {
      var _ := InsertOrDiag(unit, n, name.value.text, name.value, e);
    }
    DeclStepWalked(n, s0, mid, Snapshot(unit, e));
    if DistinctIds(n) {
      DistinctChildren(n);
    }
  }

  /** A declaration's children walked, then its name declared: the state is the declaration's `envSpec`. */
  lemma DeclStepWalked(n: Node, s0: State, mid: State, now: State)
    requires n.Param? || n.ConstDecl? || n.TypeDecl?
    requires |s0.chain| >= 1 && |mid.chain| >= 1
    requires Walked(mid, WalkSeq(ChildNodes(n), s0), SeqDistinctIds(ChildNodes(n)))
    requires now == DeclareName(mid, n, n.name)
    ensures Walked(now, WalkEnvSpec(n, s0), DistinctIds(n))
  {
    DeclEnvSpecWalk(n, s0);
    DeclareNameUnscoped(mid, WalkSeq(ChildNodes(n), s0), n, n.name);
    if DistinctIds(n) {
      DistinctChildren(n);
    }
  }

  /** `SymbolLiteral.envSpec`: resolve the symbol from `e` and record the declaration found. */
  method SymbolLiteralEnvSpec(unit: AnalysisUnit, n: Node, e: LexicalEnvironment)
    requires e.Valid() && n.SymbolLiteral?
    modifies unit`lexEnvDiagnostics, unit`referencedDecl
    ensures Snapshot(unit, e) == WalkEnvSpec(n, old(Snapshot(unit, e)))
  {
    ghost var s0 := Snapshot(unit, e);
    var found := GetOrDiag(unit, n, n.symbol, e);
    assert Snapshot(unit, e) == s0.(diags := unit.lexEnvDiagnostics);
    if found.Some? {
      unit.referencedDecl := unit.referencedDecl[n.id := found.value];
    }
    SymbolLiteralEnvSpecWalk(n, s0);
  }

  /**
   * `populateChildren`: every walked child of `n`, in order, populated with the same environment
   * `e`. Only the entries of the nodes below `n` change.
   */
  method PopulateChildren(unit: AnalysisUnit, n: Node, e: LexicalEnvironment)
    requires e.Valid()
    modifies unit`nodeEnv, unit`childrenEnv, unit`lexEnvDiagnostics, unit`referencedDecl, e
    ensures Walked(Snapshot(unit, e), WalkSeq(ChildNodes(n), old(Snapshot(unit, e))), SeqDistinctIds(ChildNodes(n)))
    ensures AgreeOutside(old(unit.nodeEnv), unit.nodeEnv, ChildIds(n)) && AgreeOutside(old(unit.childrenEnv), unit.childrenEnv, ChildIds(n))
    ensures forall id :: id in unit.childrenEnv ==>
              (id in old(unit.childrenEnv) && unit.childrenEnv[id] == old(unit.childrenEnv)[id]) || fresh(unit.childrenEnv[id])
    ensures SeqDistinctIds(ChildNodes(n)) ==> SeqEnvsPlaced(ChildNodes(n), e, unit.nodeEnv, unit.childrenEnv)
    ensures SeqDistinctIds(ChildNodes(n)) ==> e.children == old(e.children) + EnvsOf(unit.childrenEnv, SeqTopFunIds(ChildNodes(n)))
    decreases Size(n), 0, 0
  {
    var cs := ChildrenNodes(n);
    ChildNodesSize(n);
    PopulateEach(unit, cs, e);
  }

  /** The `forEach` of `populateChildren`: `populateLexicalEnv` of each node of `cs` in turn. */
  method PopulateEach(unit: AnalysisUnit, cs: seq<Node>, e: LexicalEnvironment)
    requires e.Valid()
    modifies unit`nodeEnv, unit`childrenEnv, unit`lexEnvDiagnostics, unit`referencedDecl, e
    ensures Walked(Snapshot(unit, e), WalkSeq(cs, old(Snapshot(unit, e))), SeqDistinctIds(cs))
    ensures AgreeOutside(old(unit.nodeEnv), unit.nodeEnv, SeqIds(cs)) && AgreeOutside(old(unit.childrenEnv), unit.childrenEnv, SeqIds(cs))
    ensures forall id :: id in unit.childrenEnv ==>
              (id in old(unit.childrenEnv) && unit.childrenEnv[id] == old(unit.childrenEnv)[id]) || fresh(unit.childrenEnv[id])
    ensures SeqDistinctIds(cs) ==> SeqEnvsPlaced(cs, e, unit.nodeEnv, unit.childrenEnv)
    ensures SeqDistinctIds(cs) ==> e.children == old(e.children) + EnvsOf(unit.childrenEnv, SeqTopFunIds(cs))
    decreases SeqSize(cs), 3
  {
    var i := 0;
    while i < |cs|
      invariant 0 <= i <= |cs|
      invariant Walked(Snapshot(unit, e), WalkSeq(cs[..i], old(Snapshot(unit, e))), SeqDistinctIds(cs))
      invariant AgreeOutside(old(unit.nodeEnv), unit.nodeEnv, SeqIds(cs[..i]))
      invariant AgreeOutside(old(unit.childrenEnv), unit.childrenEnv, SeqIds(cs[..i]))
      invariant forall id :: id in unit.childrenEnv ==>
                  (id in old(unit.childrenEnv) && unit.childrenEnv[id] == old(unit.childrenEnv)[id]) || fresh(unit.childrenEnv[id])
      invariant SeqDistinctIds(cs) ==> SeqEnvsPlaced(cs[..i], e, unit.nodeEnv, unit.childrenEnv)
      invariant SeqDistinctIds(cs) ==> e.children == old(e.children) + EnvsOf(unit.childrenEnv, SeqTopFunIds(cs[..i]))
    {
      SeqSizeElem(cs, i);
      ghost var m, c := unit.nodeEnv, unit.childrenEnv;
      ghost var prev := Snapshot(unit, e);
      ghost var before := e.children;
      PopulateLexicalEnv(unit, cs[i], e);
      EachStepChildren(cs, i, e, m, c, unit.childrenEnv, old(e.children), before, e.children);
      EachStepWalked(cs, i, old(Snapshot(unit, e)), prev, Snapshot(unit, e));
      EachStepPlaced(cs, i, e, old(unit.nodeEnv), old(unit.childrenEnv), m, c, unit.nodeEnv, unit.childrenEnv);
      i := i + 1;
    }
    assert cs[..i] == cs;
  }

  /** One more node of `cs` populated: the state is still the walk of the prefix, now one node longer. */
  lemma EachStepWalked(cs: seq<Node>, i: nat, s0: State, prev: State, now: State)
    requires i < |cs| && |s0.chain| >= 1 && |prev.chain| >= 1
    requires Walked(prev, WalkSeq(cs[..i], s0), SeqDistinctIds(cs))
    requires Walked(now, Walk(cs[i], prev), DistinctIds(cs[i]))
    ensures Walked(now, WalkSeq(cs[..i + 1], s0), SeqDistinctIds(cs))
  {
    assert cs[..i + 1][..i] == cs[..i];
    WalkUnscoped(cs[i], prev, WalkSeq(cs[..i], s0));
    if SeqDistinctIds(cs) {
      SeqDistinctElem(cs, i);
    }
  }

  /** One more node of `cs` populated: the environments opened below `e` grow by those of its outermost functions. */
  lemma EachStepChildren(cs: seq<Node>, i: nat, e: LexicalEnvironment, m: map<NodeId, LexicalEnvironment>,
                         c: map<NodeId, LexicalEnvironment>, c': map<NodeId, LexicalEnvironment>,
                         start: seq<LexicalEnvironment>, before: seq<LexicalEnvironment>, after: seq<LexicalEnvironment>)
    requires i < |cs| && AgreeOutside(c, c', Ids(cs[i]))
    requires SeqDistinctIds(cs) ==> SeqEnvsPlaced(cs[..i], e, m, c) && before == start + EnvsOf(c, SeqTopFunIds(cs[..i]))
    requires DistinctIds(cs[i]) ==> after == before + EnvsOf(c', TopFunIds(cs[i]))
    ensures SeqDistinctIds(cs) ==> after == start + EnvsOf(c', SeqTopFunIds(cs[..i + 1]))
  {
    if SeqDistinctIds(cs) {
      PrefixEnvsKept(cs, i, e, m, c, c');
      var prefix, top := SeqTopFunIds(cs[..i]), TopFunIds(cs[i]);
      assert SeqTopFunIds(cs[..i + 1]) == prefix + top by {
        IdsSnoc(cs, i);
      }
      EnvsOfConcat(c', prefix, top);
      var old', new' := EnvsOf(c', prefix), EnvsOf(c', top);
      assert after == (start + old') + new';
      SeqConcatAssoc(start, old', new');
    }
  }

  lemma SeqConcatAssoc<T>(a: seq<T>, b: seq<T>, c: seq<T>)
    ensures (a + b) + c == a + (b + c)
  {
  }

  /** Populating `cs[i]` keeps the environments the earlier nodes of `cs` opened. */
  lemma PrefixEnvsKept(cs: seq<Node>, i: nat, e: LexicalEnvironment, m: map<NodeId, LexicalEnvironment>,
                       c: map<NodeId, LexicalEnvironment>, c': map<NodeId, LexicalEnvironment>)
    requires i < |cs| && SeqDistinctIds(cs) && AgreeOutside(c, c', Ids(cs[i])) && SeqEnvsPlaced(cs[..i], e, m, c)
    ensures EnvsOf(c', SeqTopFunIds(cs[..i])) == EnvsOf(c, SeqTopFunIds(cs[..i])) && DistinctIds(cs[i])
  {
    SeqDistinctElem(cs, i);
    SeqTopFunsPlaced(cs[..i], e, m, c);
    AgreeOnDisjoint(c, c', SeqIds(cs[..i]), Ids(cs[i]));
    EnvsOfAgree(c, c', SeqTopFunIds(cs[..i]));
  }

  /** Maps that agree outside a set of ids agree on every set disjoint from it. */
  lemma AgreeOnDisjoint(m: map<NodeId, LexicalEnvironment>, m': map<NodeId, LexicalEnvironment>, inside: set<NodeId>, outside: set<NodeId>)
    requires AgreeOutside(m, m', outside) && inside * outside == {}
    ensures AgreeOn(m, m', inside)
  {
    forall id | id in m && id in inside
      ensures id in m' && m'[id] == m[id]
    {
      assert id !in inside * outside;
    }
  }

  /** One more node of `cs` populated: the entries that may change, and the placement, grow by its tree. */
  lemma EachStepPlaced(cs: seq<Node>, i: nat, e: LexicalEnvironment,
                       m0: map<NodeId, LexicalEnvironment>, c0: map<NodeId, LexicalEnvironment>,
                       m: map<NodeId, LexicalEnvironment>, c: map<NodeId, LexicalEnvironment>,
                       m': map<NodeId, LexicalEnvironment>, c': map<NodeId, LexicalEnvironment>)
    requires i < |cs|
    requires AgreeOutside(m0, m, SeqIds(cs[..i])) && AgreeOutside(c0, c, SeqIds(cs[..i]))
    requires AgreeOutside(m, m', Ids(cs[i])) && AgreeOutside(c, c', Ids(cs[i]))
    requires SeqDistinctIds(cs) ==> SeqEnvsPlaced(cs[..i], e, m, c)
    requires DistinctIds(cs[i]) ==> EnvsPlaced(cs[i], e, m', c')
    ensures AgreeOutside(m0, m', SeqIds(cs[..i + 1])) && AgreeOutside(c0, c', SeqIds(cs[..i + 1]))
    ensures SeqDistinctIds(cs) ==> SeqEnvsPlaced(cs[..i + 1], e, m', c')
  {
    IdsSnoc(cs, i);
    assert cs[..i + 1][..i] == cs[..i];
    if SeqDistinctIds(cs) {
      SeqDistinctElem(cs, i);
      AgreeOnDisjoint(m, m', SeqIds(cs[..i]), Ids(cs[i]));
      AgreeOnDisjoint(c, c', SeqIds(cs[..i]), Ids(cs[i]));
      SeqEnvsPlacedFrame(cs[..i], e, m, c, m', c');
    }
  }

  /** `openEnv`: a new environment below `e` becomes the environment `n` opens for its children. */
  method OpenEnv(unit: AnalysisUnit, n: Node, e: LexicalEnvironment) returns (inner: LexicalEnvironment)
    requires e.Valid()
    modifies unit`childrenEnv, e
    ensures fresh(inner) && inner.Valid() && inner.parent == e && inner.bindings == map[] && inner.children == []
    ensures unit.childrenEnv == old(unit.childrenEnv)[n.id := inner]
    ensures e.children == old(e.children) + [inner] && e.bindings == old(e.bindings)
    ensures Snapshot(unit, inner) == Opened(Opening(old(Snapshot(unit, e)), n.id))
  {
    ghost var s0 := Snapshot(unit, e);
    ghost var c0, open := unit.childrenEnv, {e} + e.ancestors;
    ghost var closed := ClosedScopes(c0, open);
    inner := new LexicalEnvironment(e);
    ClosedScopesAre(c0, open, closed);
    assert e.Chain() == s0.chain;
    unit.childrenEnv := unit.childrenEnv[n.id := inner];
    ClosedScopesOpen(c0, n.id, inner, open);
    assert inner.Chain() == [map[]] + s0.chain;
  }

  /**
   * `insertOrDiag`: bind `symbol` to the declaration `decl` itself in `e`; on a conflict, report it
   * at `diagLoc` with a hint at the previous declaration. The result says whether the symbol was
   * bound, that is, whether the `then` continuation runs.
   */
  method InsertOrDiag(unit: AnalysisUnit, decl: Node, symbol: string, diagLoc: Node, e: LexicalEnvironment)
    returns (inserted: bool)
    requires e.Valid()
    modifies unit`lexEnvDiagnostics, e`bindings
    ensures inserted <==> symbol !in old(e.bindings)
    ensures Snapshot(unit, e) == ScopeSpec.InsertOrDiag(old(Snapshot(unit, e)), symbol, decl, diagLoc)
  {
    ghost var s0 := Snapshot(unit, e);
    ghost var c, open := unit.childrenEnv, {e} + e.ancestors;
    ghost var closed := ClosedScopes(c, open);
    var r := e.Insert(symbol, decl);
    assert forall id :: id in closed ==> c[id] != e;
    ClosedScopesAre(c, open, closed);
    ghost var s1 := Snapshot(unit, e);
    assert s1 == s0.(chain := e.Chain());
    if r.Success? {
      inserted := true;
      assert e.Chain() == [s0.chain[0][symbol := decl]] + s0.chain[1..];
      assert s1 == ScopeSpec.InsertOrDiag(s0, symbol, decl, diagLoc);
    } else {
      assert e.Chain() == s0.chain;
      ReportConflict(unit, symbol, diagLoc, e);
      inserted := false;
    }
  }

  /**
   * The conflict branch of `insertOrDiag`: one diagnostic at `diagLoc`, with a hint at the
   * declaration the simple lookup finds; the rest of the state is kept.
   */
  method ReportConflict(unit: AnalysisUnit, symbol: string, diagLoc: Node, e: LexicalEnvironment)
    requires e.Valid() && symbol in e.bindings
    modifies unit`lexEnvDiagnostics
    ensures Snapshot(unit, e) ==
            old(Snapshot(unit, e)).(diags := old(unit.lexEnvDiagnostics) + [ConflictDiagnostic(diagLoc.loc, e.bindings[symbol].loc)])
  {
    var previous := e.Lookup(symbol, Simple);
    unit.AddLexEnvDiagnostic(ConflictDiagnostic(diagLoc.loc, previous.value.loc));
  }

  /**
   * `getOrDiag`: the recursive lookup of `symbol` from `e`; when it finds nothing, one diagnostic
   * is reported at `diagLoc`. The result is what the `then` continuation receives.
   */
  method GetOrDiag(unit: AnalysisUnit, diagLoc: Node, symbol: string, e: LexicalEnvironment)
    returns (found: Option<Node>)
    requires e.Valid()
    modifies unit`lexEnvDiagnostics
    ensures found == LookupChain(e.Chain(), symbol)
    ensures found.Some? ==> unit.lexEnvDiagnostics == old(unit.lexEnvDiagnostics)
    ensures found.None? ==> unit.lexEnvDiagnostics == old(unit.lexEnvDiagnostics) + [MissingDiagnostic(diagLoc.loc)]
  {
    found := e.Lookup(symbol, Recursive);
    if found.None? {
      unit.AddLexEnvDiagnostic(MissingDiagnostic(diagLoc.loc));
    }
  }
}
