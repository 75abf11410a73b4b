/**
 * The Lime prelude: a synthetic module declaring the three scalar types `unit`, `bool` and
 * `int`, populated into a root environment that has no parent.
 */
module Preludes {
  import opened Wrappers
  import opened Sources
  import opened Sections
  import opened Ast
  import opened LexicalEnvironments
  import opened AnalysisUnits
  import opened ScopeSpec
  import opened LimeNodes

  /** `preludeSource`: a source without content. */
  const PreludeSource: Source := Source("<prelude>", "")

  /** The section of every prelude node. */
  const PreludeLoc: SourceSection := SourceSection(PreludeSource, First, First)

  /**
   * `scalarDecl(name, size)`: a type declaration named `name` whose type is a scalar of `size`
   * bytes. Its identifier, its scalar type and itself are created in that order, taking the ids
   * from `first` on.
   */
  function ScalarDecl(name: string, size: int, first: NodeId): Node {
    TypeDecl(first + 2, PreludeLoc, NonNull(Identifier(first, PreludeLoc, name)), NonNull(ScalarType(first + 1, PreludeLoc, size)))
  }

  /** The prelude module, created before its three declarations. */
  function PreludeModule(): Node {
    ListNode(0, PreludeLoc, Module, [ScalarDecl("unit", 0, 1), ScalarDecl("bool", 1, 4), ScalarDecl("int", 4, 7)])
  }

  /** What the root environment binds once the prelude is populated: each name to its declaration. */
  function PreludeBindings(): Bindings {
    map["unit" := ScalarDecl("unit", 0, 1), "bool" := ScalarDecl("bool", 1, 4), "int" := ScalarDecl("int", 4, 7)]
  }

  /** The prelude holds exactly three type declarations, in order, each with its scalar size, all at FIRST..FIRST. */
  lemma PreludeShape()
    ensures var m := PreludeModule();
            && m.ListNode? && m.kind == Module && |m.elems| == 3
            && (forall i :: 0 <= i < 3 ==> m.elems[i].TypeDecl? && m.elems[i].name.NonNull? && m.elems[i].name.value.Identifier?
                                           && m.elems[i].expr.NonNull? && m.elems[i].expr.value.ScalarType?)
            && [m.elems[0].name.value.text, m.elems[1].name.value.text, m.elems[2].name.value.text] == ["unit", "bool", "int"]
            && [m.elems[0].expr.value.size, m.elems[1].expr.value.size, m.elems[2].expr.value.size] == [0, 1, 4]
            && m.loc.start == First && m.loc.end == First
            && forall i :: 0 <= i < 3 ==> m.elems[i].loc == m.elems[i].name.value.loc == m.elems[i].expr.value.loc == m.loc
  {
  }

  /** The prelude's ids: the module, then an identifier, a scalar type and a declaration per name. */
  lemma PreludeIds()
    ensures Ids(PreludeModule()) == {0, 1, 2, 3, 4, 5, 6, 7, 8, 9}
    ensures FunIds(PreludeModule()) == {}
  {
    ScalarModuleIds("unit", "bool", "int");
  }

  /** The ids of a module of three scalar declarations laid out as the prelude's, whatever their names. */
  lemma ScalarModuleIds(x: string, y: string, z: string)
    ensures Ids(ListNode(0, PreludeLoc, Module, [ScalarDecl(x, 0, 1), ScalarDecl(y, 1, 4), ScalarDecl(z, 4, 7)])) ==
            {0, 1, 2, 3, 4, 5, 6, 7, 8, 9}
    ensures FunIds(ListNode(0, PreludeLoc, Module, [ScalarDecl(x, 0, 1), ScalarDecl(y, 1, 4), ScalarDecl(z, 4, 7)])) == {}
  {
    var a, b, c := ScalarDecl(x, 0, 1), ScalarDecl(y, 1, 4), ScalarDecl(z, 4, 7);
    ScalarDeclIds(x, 0, 1);
    ScalarDeclIds(y, 1, 4);
    ScalarDeclIds(z, 4, 7);
    ListOfThreeIds(0, PreludeLoc, Module, a, b, c);
    TenIdsUnion();
  }

  lemma TenIdsUnion()
    ensures {0} + {1, 2, 3} + {4, 5, 6} + {7, 8, 9} == {0, 1, 2, 3, 4, 5, 6, 7, 8, 9}
  {
  }

  /** The prelude's ten nodes are distinct, whatever the names. */
  lemma ScalarModuleSize(x: string, y: string, z: string)
    ensures Size(ListNode(0, PreludeLoc, Module, [ScalarDecl(x, 0, 1), ScalarDecl(y, 1, 4), ScalarDecl(z, 4, 7)])) == 10
  {
    var a, b, c := ScalarDecl(x, 0, 1), ScalarDecl(y, 1, 4), ScalarDecl(z, 4, 7);
    var ds := [a, b, c];
    assert ds[..2] == [a, b] && [a, b][..1] == [a] && [a][..0] == [];
    ScalarDeclSize(x, 0, 1);
    ScalarDeclSize(y, 1, 4);
    ScalarDeclSize(z, 4, 7);
    assert SeqSize([a]) == 3 && SeqSize([a, b]) == 6 && SeqSize(ds) == 9;
  }

  lemma TenIds()
    ensures |{0, 1, 2, 3, 4, 5, 6, 7, 8, 9}| == 10
  {
    assert |{0, 1, 2, 3, 4}| == 5;
    assert {0, 1, 2, 3, 4, 5, 6, 7, 8, 9} == {0, 1, 2, 3, 4} + {5, 6, 7, 8, 9};
  }

  lemma ScalarDeclSize(name: string, size: int, first: NodeId)
    ensures Size(ScalarDecl(name, size, first)) == 3
  {
    assert Size(Identifier(first, PreludeLoc, name)) == 1;
    assert Size(ScalarType(first + 1, PreludeLoc, size)) == 1;
  }

  lemma ListOfThreeIds(id: NodeId, loc: SourceSection, kind: ListKind, a: Node, b: Node, c: Node)
    ensures Ids(ListNode(id, loc, kind, [a, b, c])) == {id} + Ids(a) + Ids(b) + Ids(c)
    ensures FunIds(ListNode(id, loc, kind, [a, b, c])) == FunIds(a) + FunIds(b) + FunIds(c)
  {
    var ds := [a, b, c];
    var n := ListNode(id, loc, kind, ds);
    assert ds[..2] == [a, b] && [a, b][..1] == [a] && [a][..0] == [];
    assert SeqIds([a]) == Ids(a) && SeqFunIds([a]) == FunIds(a);
    assert SeqIds([a, b]) == Ids(a) + Ids(b) && SeqFunIds([a, b]) == FunIds(a) + FunIds(b);
    assert SeqIds(ds) == Ids(a) + Ids(b) + Ids(c);
    assert SeqFunIds(ds) == FunIds(a) + FunIds(b) + FunIds(c);
    assert ChildNodes(n) == ds;
    assert ChildIds(n) == SeqIds(ds) && ChildFunIds(n) == SeqFunIds(ds);
  }

  /** The children of a scalar declaration: its identifier, then its scalar type. */
  lemma ScalarDeclChildren(name: string, size: int, first: NodeId)
    ensures ChildNodes(ScalarDecl(name, size, first)) ==
            [Identifier(first, PreludeLoc, name), ScalarType(first + 1, PreludeLoc, size)]
  {
    var ps := ChildrenWithName(ScalarDecl(name, size, first));
    NodesOfDisplay(ps[0], ps[1], ps[1], ps[1]);
    assert ps == [ps[0], ps[1]];
  }

  lemma ScalarDeclIds(name: string, size: int, first: NodeId)
    ensures Ids(ScalarDecl(name, size, first)) == {first, first + 1, first + 2}
    ensures FunIds(ScalarDecl(name, size, first)) == {}
  {
    var i := Identifier(first, PreludeLoc, name);
    var s := ScalarType(first + 1, PreludeLoc, size);
    ScalarDeclChildren(name, size, first);
    LeafIds(i);
    LeafIds(s);
    assert [i, s][..1] == [i] && [i][..0] == [];
    assert SeqIds([i]) == {first} && SeqFunIds([i]) == {};
    assert SeqIds([i, s]) == {first} + {first + 1} && SeqFunIds([i, s]) == {};
    var d := ScalarDecl(name, size, first);
    assert ChildIds(d) == {first} + {first + 1};
    assert ChildFunIds(d) == {};
    assert Ids(d) == {first + 2} + ({first} + {first + 1});
    ThreeIdsUnion(first);
  }

  lemma ThreeIdsUnion(first: int)
    ensures {first + 2} + ({first} + {first + 1}) == {first, first + 1, first + 2}
  {
  }

  /** Populating one scalar declaration whose name is unbound binds the name to it and stamps its three nodes. */
  lemma ScalarDeclWalk(name: string, size: int, first: NodeId, st: State)
    requires |st.chain| >= 1 && name !in st.chain[0]
    ensures Walk(ScalarDecl(name, size, first), st) ==
            st.(chain := [st.chain[0][name := ScalarDecl(name, size, first)]] + st.chain[1..],
                stamped := st.stamped + {first + 2, first, first + 1})
  {
    var d := ScalarDecl(name, size, first);
    var i := Identifier(first, PreludeLoc, name);
    var s := ScalarType(first + 1, PreludeLoc, size);
    ScalarDeclChildren(name, size, first);
    var st1 := st.(stamped := st.stamped + {first + 2});
    var st2 := st1.(stamped := st1.stamped + {first});
    LeafWalk(i, st1);
    LeafWalk(s, st2);
    assert WalkSeq([i], st1) == st2 by { assert [i][..0] == []; }
    assert WalkSeq([i, s], st1) == st2.(stamped := st2.stamped + {first + 1}) by { assert [i, s][..1] == [i]; }
    assert WalkEnvSpec(d, st1) == DeclareName(WalkSeq([i, s], st1), d, d.name);
  }

  /** A list node walks its elements in order, in the scope it is populated in. */
  lemma ListOfThreeWalk(id: NodeId, loc: SourceSection, kind: ListKind, a: Node, b: Node, c: Node, st: State)
    requires |st.chain| >= 1
    ensures var st0 := st.(stamped := st.stamped + {id});
            Walk(ListNode(id, loc, kind, [a, b, c]), st) == Walk(c, Walk(b, Walk(a, st0)))
  {
    var ds := [a, b, c];
    var n := ListNode(id, loc, kind, ds);
    var st0 := st.(stamped := st.stamped + {id});
    assert ds[..2] == [a, b] && [a, b][..1] == [a] && [a][..0] == [];
    assert WalkSeq([a], st0) == Walk(a, st0);
    assert WalkSeq([a, b], st0) == Walk(b, Walk(a, st0));
    assert WalkSeq(ds, st0) == Walk(c, Walk(b, Walk(a, st0)));
    assert ChildNodes(n) == ds;
    assert Walk(n, st) == WalkEnvSpec(n, st0);
  }

  /**
   * Populating a module of three scalar declarations laid out as the prelude's, with distinct
   * names, into an empty root scope binds each name to its declaration and stamps every node.
   */
  lemma ScalarModuleWalk(x: string, y: string, z: string, st: State)
    requires st.chain == [map[]] && x != y && y != z && x != z
    ensures Walk(ListNode(0, PreludeLoc, Module, [ScalarDecl(x, 0, 1), ScalarDecl(y, 1, 4), ScalarDecl(z, 4, 7)]), st) ==
            st.(chain := [map[x := ScalarDecl(x, 0, 1), y := ScalarDecl(y, 1, 4), z := ScalarDecl(z, 4, 7)]],
                stamped := st.stamped + {0, 1, 2, 3, 4, 5, 6, 7, 8, 9})
  {
    ScalarModuleBinds(x, y, z, st);
    ScalarModuleStamps(x, y, z, st);
  }

  /** Populating the three-declaration module binds the three names and adds no diagnostic, reference or opener. */
  lemma ScalarModuleBinds(x: string, y: string, z: string, st: State)
    requires st.chain == [map[]] && x != y && y != z && x != z
    ensures var r := Walk(ListNode(0, PreludeLoc, Module, [ScalarDecl(x, 0, 1), ScalarDecl(y, 1, 4), ScalarDecl(z, 4, 7)]), st);
            && r.chain == [map[x := ScalarDecl(x, 0, 1), y := ScalarDecl(y, 1, 4), z := ScalarDecl(z, 4, 7)]]
            && r.diags == st.diags && r.refs == st.refs && r.openers == st.openers && r.scopes == st.scopes
  {
    var a, b, c := ScalarDecl(x, 0, 1), ScalarDecl(y, 1, 4), ScalarDecl(z, 4, 7);
    var st0 := st.(stamped := st.stamped + {0});
    ListOfThreeWalk(0, PreludeLoc, Module, a, b, c, st);
    ScalarDeclWalk(x, 0, 1, st0);
    var st1 := Walk(a, st0);
    assert st1.chain == [map[x := a]];
    ScalarDeclWalk(y, 1, 4, st1);
    var st2 := Walk(b, st1);
    assert st2.chain == [map[x := a, y := b]];
    ScalarDeclWalk(z, 4, 7, st2);
  }

  /** Populating the three-declaration module stamps exactly its ten ids. */
  lemma ScalarModuleStamps(x: string, y: string, z: string, st: State)
    requires |st.chain| >= 1
    ensures Walk(ListNode(0, PreludeLoc, Module, [ScalarDecl(x, 0, 1), ScalarDecl(y, 1, 4), ScalarDecl(z, 4, 7)]), st).stamped ==
            st.stamped + {0, 1, 2, 3, 4, 5, 6, 7, 8, 9}
  {
    WalkStamps(ListNode(0, PreludeLoc, Module, [ScalarDecl(x, 0, 1), ScalarDecl(y, 1, 4), ScalarDecl(z, 4, 7)]), st);
    ScalarModuleIds(x, y, z);
  }

  /** The walk over the prelude from a fresh root environment. */
  lemma PreludeWalk(st: State)
    requires st == State([map[]], [], map[], {}, {}, map[])
    ensures Walk(PreludeModule(), st) == State([PreludeBindings()], [], map[], {0, 1, 2, 3, 4, 5, 6, 7, 8, 9}, {}, map[])
  {
    ScalarModuleWalk("unit", "bool", "int", st);
  }

  /** `populateLexicalEnv` of the prelude module into a new root environment of a new unit. */
  method PopulatePrelude(unit: AnalysisUnit, prelude: Node, root: LexicalEnvironment)
    requires root.Valid() && prelude == PreludeModule()
    requires Snapshot(unit, root) == State([map[]], [], map[], {}, {}, map[])
    modifies unit`nodeEnv, unit`childrenEnv, unit`lexEnvDiagnostics, unit`referencedDecl, root
    ensures Snapshot(unit, root) == State([PreludeBindings()], [], map[], {0, 1, 2, 3, 4, 5, 6, 7, 8, 9}, {}, map[])
    ensures forall id :: id in unit.nodeEnv ==> unit.nodeEnv[id] == root
  {
    PreludeWalk(Snapshot(unit, root));
    PopulateLexicalEnv(unit, prelude, root);
    PreludeIds();
    ScalarModuleSize("unit", "bool", "int");
    TenIds();
    AllInRoot(prelude, root, unit.nodeEnv, unit.childrenEnv);
  }

  /** A populated tree of distinct nodes without functions, and nothing else stamped: every stamp is the root. */
  lemma AllInRoot(n: Node, root: LexicalEnvironment, m: map<NodeId, LexicalEnvironment>, c: map<NodeId, LexicalEnvironment>)
    requires FunIds(n) == {} && |Ids(n)| == Size(n) && m.Keys == Ids(n)
    requires DistinctIds(n) ==> EnvsPlaced(n, root, m, c)
    ensures forall id :: id in m ==> m[id] == root
  {
    PlacedWithoutFunctions(n, root, m, c);
  }

  /**
   * `preludeUnit`: a synthetic unit for the prelude source whose root is the prelude module,
   * populated into a new root environment. What the populated state means is spelled out by
   * `PreludePopulated`.
   */
  method PreludeUnit() returns (unit: AnalysisUnit, root: LexicalEnvironment)
    ensures fresh(unit) && fresh(root)
    ensures root.Valid() && root.parent == null
    ensures unit.source == PreludeSource && unit.rootNode == Some(PreludeModule()) && unit.diagnostics == []
    ensures Snapshot(unit, root) == State([PreludeBindings()], [], map[], {0, 1, 2, 3, 4, 5, 6, 7, 8, 9}, {}, map[])
    ensures forall id :: id in unit.nodeEnv ==> unit.nodeEnv[id] == root
  {
    unit := new AnalysisUnit(PreludeSource);
    var children: seq<Node> := [];
    children := children + [ScalarDecl("unit", 0, 1)];
    children := children + [ScalarDecl("bool", 1, 4)];
    children := children + [ScalarDecl("int", 4, 7)];
    var prelude := ListNode(0, PreludeLoc, Module, children);
    assert prelude == PreludeModule();
    root := new LexicalEnvironment(null);
    PopulatePrelude(unit, prelude, root);
    unit.rootNode := Some(prelude);
  }

  /**
   * After `preludeUnit`, the root environment binds exactly `unit`, `bool` and `int` to their
   * declarations and resolves them from itself, no lexical diagnostic was reported, every prelude
   * node resides in the root environment, and none opened one or references a declaration.
   */
  lemma PreludePopulated(unit: AnalysisUnit, root: LexicalEnvironment)
    requires root.Valid() && root.parent == null
    requires Snapshot(unit, root) == State([PreludeBindings()], [], map[], {0, 1, 2, 3, 4, 5, 6, 7, 8, 9}, {}, map[])
    requires forall id :: id in unit.nodeEnv ==> unit.nodeEnv[id] == root
    ensures root.bindings == PreludeBindings() && root.bindings.Keys == {"unit", "bool", "int"}
    ensures root.Lookup("unit", Recursive) == Some(ScalarDecl("unit", 0, 1))
    ensures root.Lookup("bool", Recursive) == Some(ScalarDecl("bool", 1, 4))
    ensures root.Lookup("int", Recursive) == Some(ScalarDecl("int", 4, 7))
    ensures unit.lexEnvDiagnostics == [] && unit.referencedDecl == map[]
    ensures unit.nodeEnv == map[0 := root, 1 := root, 2 := root, 3 := root, 4 := root, 5 := root, 6 := root, 7 := root,
                                8 := root, 9 := root]
    ensures unit.childrenEnv == map[]
  {
    assert root.Chain() == [root.bindings];
    assert unit.childrenEnv.Keys == {};
  }
}
