/**
 * What scope resolution reports on small Lime programs: declarations binding in the scope
 * they are populated in, redeclarations, references to a name before or inside its own
 * declaration, and a function referring to itself. Node ids and locations are left free, so
 * each lemma covers every parse of the snippet it names.
 */
module ScopeExamples {
  import opened Wrappers
  import opened Sections
  import opened Ast
  import opened Diagnostics
  import opened LexicalEnvironments
  import opened ScopeSpec

  /** A redeclared name keeps its first binding, and the second declaration reports a conflict at its name. */
  lemma RedeclarationConflicts(n: Node, x: string, st: State)
    requires |st.chain| >= 1 && (n.Param? || n.ConstDecl? || n.TypeDecl?)
    requires DeclaredSymbol(n.name) == Some(x) && x in st.chain[0]
    ensures var mid := WalkSeq(ChildNodes(n), st.(stamped := st.stamped + {n.id}));
            && Walk(n, st).chain == mid.chain
            && x in Walk(n, st).chain[0] && Walk(n, st).chain[0][x] == st.chain[0][x]
            && Walk(n, st).diags == mid.diags + [ConflictDiagnostic(n.name.value.loc, st.chain[0][x].loc)]
  {
    var st1 := st.(stamped := st.stamped + {n.id});
    var mid := WalkSeq(ChildNodes(n), st1);
    WalkSeqExtends(ChildNodes(n), st1);
    assert x in mid.chain[0] && mid.chain[0][x] == st.chain[0][x];
    assert Walk(n, st) == DeclareName(mid, n, n.name);
  }

  // ----- const x = v -----

  /** `const x = v`, without a type. */
  function Const(id: NodeId, loc: SourceSection, nameId: NodeId, nameLoc: SourceSection, x: string, v: Node): Node {
    ConstDecl(id, loc, NonNull(Identifier(nameId, nameLoc, x)), Empty, NonNull(v))
  }

  /** A constant walks its name, then its value, then binds its name. */
  lemma ConstWalk(id: NodeId, loc: SourceSection, nameId: NodeId, nameLoc: SourceSection, x: string, v: Node, st: State)
    requires |st.chain| >= 1
    ensures Walk(Const(id, loc, nameId, nameLoc, x, v), st) ==
            InsertOrDiag(Walk(v, st.(stamped := st.stamped + {id} + {nameId})), x,
                         Const(id, loc, nameId, nameLoc, x, v), Identifier(nameId, nameLoc, x))
  {
    var n := Const(id, loc, nameId, nameLoc, x, v);
    var i := Identifier(nameId, nameLoc, x);
    var ps := ChildrenWithName(n);
    NodesOfDisplay(ps[0], ps[1], ps[2], ps[2]);
    assert ps == [ps[0], ps[1], ps[2]];
    assert ChildNodes(n) == [i, v];
    var st1 := st.(stamped := st.stamped + {id});
    WalkSeqPair(i, v, st1);
    LeafWalk(i, st1);
    assert Walk(n, st) == DeclareName(WalkSeq([i, v], st1), n, n.name);
  }

  /** `const x = 0` with `x` unbound in the incoming scope binds `x`, and reports nothing. */
  lemma ConstBinds(id: NodeId, loc: SourceSection, nameId: NodeId, nameLoc: SourceSection, x: string,
                   litId: NodeId, litLoc: SourceSection, st: State)
    requires |st.chain| >= 1 && x !in st.chain[0]
    ensures var n := Const(id, loc, nameId, nameLoc, x, IntLiteral(litId, litLoc, 0));
            Walk(n, st) == st.(chain := [st.chain[0][x := n]] + st.chain[1..],
                               stamped := st.stamped + {id} + {nameId} + {litId})
  {
    var v := IntLiteral(litId, litLoc, 0);
    ConstWalk(id, loc, nameId, nameLoc, x, v, st);
    LeafWalk(v, st.(stamped := st.stamped + {id} + {nameId}));
  }

  /**
   * `const x = x`: the constant is not yet bound while its value is populated, so when no
   * enclosing scope binds `x` the reference is reported as missing, and `x` is bound afterwards.
   */
  lemma ConstSelfReferenceUnresolved(id: NodeId, loc: SourceSection, nameId: NodeId, nameLoc: SourceSection, x: string,
                                     refId: NodeId, refLoc: SourceSection, st: State)
    requires |st.chain| >= 1 && LookupChain(st.chain, x).None?
    ensures var n := Const(id, loc, nameId, nameLoc, x, SymbolLiteral(refId, refLoc, x));
            && Walk(n, st).diags == st.diags + [MissingDiagnostic(refLoc)]
            && Walk(n, st).refs == st.refs
            && Walk(n, st).chain == [st.chain[0][x := n]] + st.chain[1..]
  {
    var v := SymbolLiteral(refId, refLoc, x);
    var st2 := st.(stamped := st.stamped + {id} + {nameId});
    ConstWalk(id, loc, nameId, nameLoc, x, v, st);
    SymbolLiteralWalk(v, st2);
    LookupChainFinds(st.chain, x);
    assert x !in st.chain[0];
  }

  /** `const x = 0 const y = x`: the second constant's reference resolves to the first, with nothing reported. */
  lemma SequentialConstsResolve(a: Node, b: Node, x: string, y: string, refId: NodeId, refLoc: SourceSection,
                                ids: seq<NodeId>, locs: seq<SourceSection>, st: State)
    requires |ids| == 5 && |locs| == 5
    requires a == Const(ids[0], locs[0], ids[1], locs[1], x, IntLiteral(ids[2], locs[2], 0))
    requires b == Const(ids[3], locs[3], ids[4], locs[4], y, SymbolLiteral(refId, refLoc, x))
    requires |st.chain| >= 1 && x != y && x !in st.chain[0] && y !in st.chain[0]
    ensures var r := Walk(b, Walk(a, st));
            && r.diags == st.diags
            && r.refs == st.refs[refId := a]
            && r.chain == [st.chain[0][x := a][y := b]] + st.chain[1..]
  {
    ConstBinds(ids[0], locs[0], ids[1], locs[1], x, ids[2], locs[2], st);
    var st1 := Walk(a, st);
    var v := SymbolLiteral(refId, refLoc, x);
    var st2 := st1.(stamped := st1.stamped + {ids[3]} + {ids[4]});
    ConstWalk(ids[3], locs[3], ids[4], locs[4], y, v, st1);
    SymbolLiteralWalk(v, st2);
    LookupChainShadowing(st2.chain, x);
  }

  /** `const x = 0 const x = 0`: the second constant reports a conflict at its name, pointing at the first. */
  lemma DuplicateConstConflict(a: Node, b: Node, x: string, ids: seq<NodeId>, locs: seq<SourceSection>, st: State)
    requires |ids| == 6 && |locs| == 6
    requires a == Const(ids[0], locs[0], ids[1], locs[1], x, IntLiteral(ids[2], locs[2], 0))
    requires b == Const(ids[3], locs[3], ids[4], locs[4], x, IntLiteral(ids[5], locs[5], 0))
    requires |st.chain| >= 1 && x !in st.chain[0]
    ensures var r := Walk(b, Walk(a, st));
            && r.diags == st.diags + [ConflictDiagnostic(locs[4], locs[0])]
            && r.chain == [st.chain[0][x := a]] + st.chain[1..]
  {
    ConstBinds(ids[0], locs[0], ids[1], locs[1], x, ids[2], locs[2], st);
    var st1 := Walk(a, st);
    var v := IntLiteral(ids[5], locs[5], 0);
    ConstWalk(ids[3], locs[3], ids[4], locs[4], x, v, st1);
    LeafWalk(v, st1.(stamped := st1.stamped + {ids[3]} + {ids[4]}));
  }

  // ----- fun f() <body> -----

  /** `fun f() body`, where the parameters are missing and there is no return type. */
  function Fun(id: NodeId, loc: SourceSection, nameId: NodeId, nameLoc: SourceSection, f: string, body: Node): Node {
    FunDecl(id, loc, NonNull(Identifier(nameId, nameLoc, f)), Null, Empty, NonNull(body))
  }

  /**
   * A function binds its name in the incoming scope, then walks its name and body in a new scope
   * below, which is dropped afterwards.
   */
  lemma FunWalk(id: NodeId, loc: SourceSection, nameId: NodeId, nameLoc: SourceSection, f: string, body: Node, st: State)
    requires |st.chain| >= 1
    ensures var n := Fun(id, loc, nameId, nameLoc, f, body);
            var outer := InsertOrDiag(Opening(st.(stamped := st.stamped + {id}), id), f, n,
                                      Identifier(nameId, nameLoc, f));
            Walk(n, st) == Closed(Walk(body, Opened(outer).(stamped := outer.stamped + {nameId})), outer, id)
  {
    var n := Fun(id, loc, nameId, nameLoc, f, body);
    var i := Identifier(nameId, nameLoc, f);
    var ps := ChildrenWithName(n);
    NodesOfDisplay(ps[0], ps[1], ps[2], ps[3]);
    assert ps == [ps[0], ps[1], ps[2], ps[3]];
    assert ChildNodes(n) == [i, body];
    var st1 := st.(stamped := st.stamped + {id});
    var pre := Opening(st1, id);
    var outer := DeclareName(pre, n, n.name);
    WalkFunDecl(n, st1, pre, outer);
    WalkSeqPair(i, body, Opened(outer));
    LeafWalk(i, Opened(outer));
  }

  /** `{ e1 ... en }`: a block expression over its element list, as the visitor builds it. */
  function Block(id: NodeId, loc: SourceSection, elemsId: NodeId, elemsLoc: SourceSection, cs: seq<Node>): Node {
    BlockExpr(id, loc, ListNode(elemsId, elemsLoc, BlockElems, cs))
  }

  /** A block opens no scope: populating it stamps the block and its element list, then walks the elements in turn. */
  lemma BlockWalk(id: NodeId, loc: SourceSection, elemsId: NodeId, elemsLoc: SourceSection, cs: seq<Node>, st: State)
    requires |st.chain| >= 1
    ensures Walk(Block(id, loc, elemsId, elemsLoc, cs), st) == WalkSeq(cs, st.(stamped := st.stamped + {id} + {elemsId}))
  {
    var es := ListNode(elemsId, elemsLoc, BlockElems, cs);
    var b := Block(id, loc, elemsId, elemsLoc, cs);
    var ps := ChildrenWithName(b);
    NodesOfDisplay(ps[0], ps[0], ps[0], ps[0]);
    assert ps == [ps[0]];
    assert ChildNodes(b) == [es];
    var st1 := st.(stamped := st.stamped + {id});
    DefaultWalk(b, st);
    WalkSeqPair(es, es, st1);
    DefaultWalk(es, st1);
  }

  /**
   * `fun f() { f }`: inside its own body a function is in scope, so a reference to its name
   * resolves to the function itself and nothing is reported.
   */
  lemma RecursiveFunResolves(id: NodeId, loc: SourceSection, nameId: NodeId, nameLoc: SourceSection, f: string,
                             blockId: NodeId, blockLoc: SourceSection, elemsId: NodeId, elemsLoc: SourceSection,
                             refId: NodeId, refLoc: SourceSection, st: State)
    requires |st.chain| >= 1 && f !in st.chain[0]
    ensures var n := Fun(id, loc, nameId, nameLoc, f, Block(blockId, blockLoc, elemsId, elemsLoc, [SymbolLiteral(refId, refLoc, f)]));
            && Walk(n, st).diags == st.diags
            && Walk(n, st).refs == st.refs[refId := n]
            && Walk(n, st).chain == [st.chain[0][f := n]] + st.chain[1..]
  {
    var v := SymbolLiteral(refId, refLoc, f);
    var body := Block(blockId, blockLoc, elemsId, elemsLoc, [v]);
    var n := Fun(id, loc, nameId, nameLoc, f, body);
    FunWalk(id, loc, nameId, nameLoc, f, body, st);
    var outer := InsertOrDiag(Opening(st.(stamped := st.stamped + {id}), id), f, n,
                              Identifier(nameId, nameLoc, f));
    var inner := Opened(outer).(stamped := outer.stamped + {nameId});
    BlockWalk(blockId, blockLoc, elemsId, elemsLoc, [v], inner);
    var inBlock := inner.(stamped := inner.stamped + {blockId} + {elemsId});
    WalkSeqPair(v, v, inBlock);
    SymbolLiteralWalk(v, inBlock);
    assert f !in inBlock.chain[0] && inBlock.chain[1..] == outer.chain;
    assert LookupChain(inBlock.chain, f) == LookupChain(outer.chain, f);
    LookupChainShadowing(outer.chain, f);
  }

  /**
   * `fun f() { const f = 0 }`, standing for a parameter or a local named like the function: the
   * inner declaration binds in the function's own scope, so it is no conflict.
   */
  lemma InnerDeclShadowsFun(id: NodeId, loc: SourceSection, nameId: NodeId, nameLoc: SourceSection, f: string,
                            inner: Node, ids: seq<NodeId>, locs: seq<SourceSection>, st: State)
    requires |ids| == 5 && |locs| == 5
    requires inner == Const(ids[0], locs[0], ids[1], locs[1], f, IntLiteral(ids[2], locs[2], 0))
    requires |st.chain| >= 1 && f !in st.chain[0]
    ensures var n := Fun(id, loc, nameId, nameLoc, f, Block(ids[3], locs[3], ids[4], locs[4], [inner]));
            && Walk(n, st).diags == st.diags
            && Walk(n, st).chain == [st.chain[0][f := n]] + st.chain[1..]
  {
    var body := Block(ids[3], locs[3], ids[4], locs[4], [inner]);
    var n := Fun(id, loc, nameId, nameLoc, f, body);
    FunWalk(id, loc, nameId, nameLoc, f, body, st);
    var outer := InsertOrDiag(Opening(st.(stamped := st.stamped + {id}), id), f, n,
                              Identifier(nameId, nameLoc, f));
    var s0 := Opened(outer).(stamped := outer.stamped + {nameId});
    BlockWalk(ids[3], locs[3], ids[4], locs[4], [inner], s0);
    var inBlock := s0.(stamped := s0.stamped + {ids[3]} + {ids[4]});
    WalkSeqPair(inner, inner, inBlock);
    ConstBinds(ids[0], locs[0], ids[1], locs[1], f, ids[2], locs[2], inBlock);
  }

  // ----- fun f(x: T) <body> -----

  /** `x: T`, a parameter without a default value whose type is a named type. */
  function TypedParam(id: NodeId, loc: SourceSection, nameId: NodeId, nameLoc: SourceSection, x: string,
                      typeId: NodeId, typeLoc: SourceSection, typeName: string): Node {
    Param(id, loc, NonNull(Identifier(nameId, nameLoc, x)), NonNull(SymbolType(typeId, typeLoc, typeName)), Empty)
  }

  /** A parameter walks its name and its type, then binds its name; a named type resolves nothing. */
  lemma ParamWalk(id: NodeId, loc: SourceSection, nameId: NodeId, nameLoc: SourceSection, x: string,
                  typeId: NodeId, typeLoc: SourceSection, typeName: string, st: State)
    requires |st.chain| >= 1
    ensures var n := TypedParam(id, loc, nameId, nameLoc, x, typeId, typeLoc, typeName);
            Walk(n, st) == InsertOrDiag(st.(stamped := st.stamped + {id} + {nameId} + {typeId}), x, n,
                                        Identifier(nameId, nameLoc, x))
  {
    var n := TypedParam(id, loc, nameId, nameLoc, x, typeId, typeLoc, typeName);
    var i := Identifier(nameId, nameLoc, x);
    var ty := SymbolType(typeId, typeLoc, typeName);
    var ps := ChildrenWithName(n);
    NodesOfDisplay(ps[0], ps[1], ps[2], ps[2]);
    assert ps == [ps[0], ps[1], ps[2]];
    assert ChildNodes(n) == [i, ty];
    var st1 := st.(stamped := st.stamped + {id});
    WalkSeqPair(i, ty, st1);
    LeafWalk(i, st1);
    LeafWalk(ty, st1.(stamped := st1.stamped + {nameId}));
    assert Walk(n, st) == DeclareName(WalkSeq([i, ty], st1), n, n.name);
  }

  /**
   * `fun f(x: T) body`: the function binds its name in the incoming scope, then walks its name,
   * its parameter list and its body in a new scope below, which is dropped afterwards.
   */
  lemma FunWithParamWalk(n: Node, f: string, param: Node, body: Node, ids: seq<NodeId>, locs: seq<SourceSection>, st: State)
    requires |ids| == 3 && |locs| == 3 && |st.chain| >= 1
    requires n == FunDecl(ids[0], locs[0], NonNull(Identifier(ids[1], locs[1], f)),
                          NonNull(ListNode(ids[2], locs[2], ParamList, [param])), Empty, NonNull(body))
    ensures var outer := InsertOrDiag(Opening(st.(stamped := st.stamped + {ids[0]}), ids[0]), f, n,
                                      Identifier(ids[1], locs[1], f));
            var inner := Opened(outer).(stamped := outer.stamped + {ids[1]} + {ids[2]});
            Walk(n, st) == Closed(Walk(body, Walk(param, inner)), outer, ids[0])
  {
    var i := Identifier(ids[1], locs[1], f);
    var pl := ListNode(ids[2], locs[2], ParamList, [param]);
    var ps := ChildrenWithName(n);
    NodesOfDisplay(ps[0], ps[1], ps[2], ps[3]);
    assert ps == [ps[0], ps[1], ps[2], ps[3]];
    assert ChildNodes(n) == [i, pl, body];
    var st1 := st.(stamped := st.stamped + {ids[0]});
    var pre := Opening(st1, ids[0]);
    var outer := DeclareName(pre, n, n.name);
    WalkFunDecl(n, st1, pre, outer);
    var s0 := Opened(outer);
    var s1 := s0.(stamped := s0.stamped + {ids[1]});
    LeafWalk(i, s0);
    var inner := s1.(stamped := s1.stamped + {ids[2]});
    assert ChildNodes(pl) == [param];
    WalkSeqPair(param, param, inner);
    assert Walk(pl, s1) == WalkSeq([param], inner);
    var cs := [i, pl, body];
    assert cs[..2] == [i, pl];
    assert WalkSeq(cs, s0) == Walk(body, WalkSeq([i, pl], s0));
    WalkSeqPair(i, pl, s0);
  }

  /**
   * `fun f(p: int) body`, `f` unbound so far: `f` is bound outside to the function without a
   * diagnostic, and the body is walked in the function's scope, which then binds just `p`.
   */
  lemma FunWithIntParam(n: Node, f: string, p: string, param: Node, body: Node,
                        ids: seq<NodeId>, locs: seq<SourceSection>, st: State)
    requires |ids| == 6 && |locs| == 6 && |st.chain| >= 1 && f !in st.chain[0]
    requires param == TypedParam(ids[3], locs[3], ids[4], locs[4], p, ids[5], locs[5], "int")
    requires n == FunDecl(ids[0], locs[0], NonNull(Identifier(ids[1], locs[1], f)),
                          NonNull(ListNode(ids[2], locs[2], ParamList, [param])), Empty, NonNull(body))
    ensures var outer := InsertOrDiag(Opening(st.(stamped := st.stamped + {ids[0]}), ids[0]), f, n,
                                      Identifier(ids[1], locs[1], f));
            var inner := Walk(param, Opened(outer).(stamped := outer.stamped + {ids[1]} + {ids[2]}));
            && Walk(n, st) == Closed(Walk(body, inner), outer, ids[0])
            && outer.chain == [st.chain[0][f := n]] + st.chain[1..]
            && inner.chain == [map[p := param]] + outer.chain
            && inner.diags == st.diags
  {
    FunWithParamWalk(n, f, param, body, ids[..3], locs[..3], st);
    var outer := InsertOrDiag(Opening(st.(stamped := st.stamped + {ids[0]}), ids[0]), f, n,
                              Identifier(ids[1], locs[1], f));
    var inner := Opened(outer).(stamped := outer.stamped + {ids[1]} + {ids[2]});
    ParamWalk(ids[3], locs[3], ids[4], locs[4], p, ids[5], locs[5], "int", inner);
  }

  /**
   * `fun f(x: T) { const x = 0 }`: parameter and body share the function's scope, and the block
   * opens none, so the constant reports a conflict at its name pointing at the parameter.
   */
  lemma ParamThenConstConflict(n: Node, f: string, x: string, param: Node, decl: Node,
                               ids: seq<NodeId>, locs: seq<SourceSection>, st: State)
    requires |ids| == 11 && |locs| == 11 && |st.chain| >= 1 && f !in st.chain[0]
    requires param == TypedParam(ids[3], locs[3], ids[4], locs[4], x, ids[5], locs[5], "int")
    requires decl == Const(ids[6], locs[6], ids[7], locs[7], x, IntLiteral(ids[8], locs[8], 0))
    requires n == FunDecl(ids[0], locs[0], NonNull(Identifier(ids[1], locs[1], f)),
                          NonNull(ListNode(ids[2], locs[2], ParamList, [param])), Empty,
                          NonNull(Block(ids[9], locs[9], ids[10], locs[10], [decl])))
    ensures Walk(n, st).diags == st.diags + [ConflictDiagnostic(locs[7], locs[3])]
    ensures Walk(n, st).chain == [st.chain[0][f := n]] + st.chain[1..]
  {
    var body := Block(ids[9], locs[9], ids[10], locs[10], [decl]);
    FunWithIntParam(n, f, x, param, body, ids[..6], locs[..6], st);
    var outer := InsertOrDiag(Opening(st.(stamped := st.stamped + {ids[0]}), ids[0]), f, n,
                              Identifier(ids[1], locs[1], f));
    var afterParam := Walk(param, Opened(outer).(stamped := outer.stamped + {ids[1]} + {ids[2]}));
    BlockWalk(ids[9], locs[9], ids[10], locs[10], [decl], afterParam);
    var inBlock := afterParam.(stamped := afterParam.stamped + {ids[9]} + {ids[10]});
    WalkSeqPair(decl, decl, inBlock);
    RedeclarationConflicts(decl, x, inBlock);
    ConstWalk(ids[6], locs[6], ids[7], locs[7], x, IntLiteral(ids[8], locs[8], 0), inBlock);
    LeafWalk(IntLiteral(ids[8], locs[8], 0), inBlock.(stamped := inBlock.stamped + {ids[6]} + {ids[7]}));
  }

  /**
   * `fun f(f: T) { const x = 0 }`: the parameter binds in the function's own scope, so it may reuse
   * the function's name; nothing is reported, and once the function is walked its scope holds
   * exactly the parameter and the constant.
   */
  lemma ParamNamedLikeFun(n: Node, f: string, x: string, param: Node, decl: Node,
                          ids: seq<NodeId>, locs: seq<SourceSection>, st: State)
    requires |ids| == 11 && |locs| == 11 && |st.chain| >= 1 && f !in st.chain[0] && x != f
    requires param == TypedParam(ids[3], locs[3], ids[4], locs[4], f, ids[5], locs[5], "int")
    requires decl == Const(ids[6], locs[6], ids[7], locs[7], x, IntLiteral(ids[8], locs[8], 0))
    requires n == FunDecl(ids[0], locs[0], NonNull(Identifier(ids[1], locs[1], f)),
                          NonNull(ListNode(ids[2], locs[2], ParamList, [param])), Empty,
                          NonNull(Block(ids[9], locs[9], ids[10], locs[10], [decl])))
    ensures Walk(n, st).diags == st.diags
    ensures Walk(n, st).chain == [st.chain[0][f := n]] + st.chain[1..]
    ensures ids[0] in Walk(n, st).scopes && Walk(n, st).scopes[ids[0]] == map[f := param, x := decl]
  {
    var body := Block(ids[9], locs[9], ids[10], locs[10], [decl]);
    FunWithIntParam(n, f, f, param, body, ids[..6], locs[..6], st);
    var outer := InsertOrDiag(Opening(st.(stamped := st.stamped + {ids[0]}), ids[0]), f, n,
                              Identifier(ids[1], locs[1], f));
    var afterParam := Walk(param, Opened(outer).(stamped := outer.stamped + {ids[1]} + {ids[2]}));
    BlockOfConstBinds(ids[9], locs[9], ids[10], locs[10], decl, ids[6], locs[6], ids[7], locs[7], x, ids[8], locs[8], afterParam);
    var r := Walk(body, afterParam);
    assert r.chain[0] == map[f := param][x := decl];
    assert Walk(n, st) == Closed(r, outer, ids[0]);
  }

  /** `{ const x = 0 }` with `x` unbound in the current scope binds `x` there, and reports and records nothing else. */
  lemma BlockOfConstBinds(blockId: NodeId, blockLoc: SourceSection, elemsId: NodeId, elemsLoc: SourceSection, decl: Node,
                          id: NodeId, loc: SourceSection, nameId: NodeId, nameLoc: SourceSection, x: string,
                          litId: NodeId, litLoc: SourceSection, st: State)
    requires |st.chain| >= 1 && x !in st.chain[0]
    requires decl == Const(id, loc, nameId, nameLoc, x, IntLiteral(litId, litLoc, 0))
    ensures var r := Walk(Block(blockId, blockLoc, elemsId, elemsLoc, [decl]), st);
            && r.chain == [st.chain[0][x := decl]] + st.chain[1..]
            && r.diags == st.diags && r.scopes == st.scopes
  {
    BlockWalk(blockId, blockLoc, elemsId, elemsLoc, [decl], st);
    var inBlock := st.(stamped := st.stamped + {blockId} + {elemsId});
    WalkSeqPair(decl, decl, inBlock);
    ConstBinds(id, loc, nameId, nameLoc, x, litId, litLoc, inBlock);
  }

  /**
   * `fun f() {} fun f() {}`: the second function reports a conflict at its name, and the first keeps the name.
   * An empty block holds one unit literal.
   */
  lemma DuplicateFunConflict(a: Node, b: Node, f: string, ids: seq<NodeId>, locs: seq<SourceSection>, st: State)
    requires |ids| == 10 && |locs| == 10
    requires a == Fun(ids[0], locs[0], ids[1], locs[1], f, Block(ids[2], locs[2], ids[3], locs[3], [UnitLiteral(ids[4], locs[4])]))
    requires b == Fun(ids[5], locs[5], ids[6], locs[6], f, Block(ids[7], locs[7], ids[8], locs[8], [UnitLiteral(ids[9], locs[9])]))
    requires |st.chain| >= 1 && f !in st.chain[0]
    ensures var r := Walk(b, Walk(a, st));
            && r.diags == st.diags + [ConflictDiagnostic(locs[6], locs[0])]
            && r.chain == [st.chain[0][f := a]] + st.chain[1..]
  {
    var ua := UnitLiteral(ids[4], locs[4]);
    var ba := Block(ids[2], locs[2], ids[3], locs[3], [ua]);
    FunWalk(ids[0], locs[0], ids[1], locs[1], f, ba, st);
    var outerA := InsertOrDiag(Opening(st.(stamped := st.stamped + {ids[0]}), ids[0]), f, a,
                               Identifier(ids[1], locs[1], f));
    var sa := Opened(outerA).(stamped := outerA.stamped + {ids[1]});
    BlockWalk(ids[2], locs[2], ids[3], locs[3], [ua], sa);
    WalkSeqPair(ua, ua, sa.(stamped := sa.stamped + {ids[2]} + {ids[3]}));
    LeafWalk(ua, sa.(stamped := sa.stamped + {ids[2]} + {ids[3]}));
    var st1 := Walk(a, st);
    var ub := UnitLiteral(ids[9], locs[9]);
    var bb := Block(ids[7], locs[7], ids[8], locs[8], [ub]);
    FunWalk(ids[5], locs[5], ids[6], locs[6], f, bb, st1);
    var outerB := InsertOrDiag(Opening(st1.(stamped := st1.stamped + {ids[5]}), ids[5]), f, b,
                               Identifier(ids[6], locs[6], f));
    var sb := Opened(outerB).(stamped := outerB.stamped + {ids[6]});
    BlockWalk(ids[7], locs[7], ids[8], locs[8], [ub], sb);
    WalkSeqPair(ub, ub, sb.(stamped := sb.stamped + {ids[7]} + {ids[8]}));
    LeafWalk(ub, sb.(stamped := sb.stamped + {ids[7]} + {ids[8]}));
  }

  // ----- var x = v -----

  /** `var x = v`, without a type. */
  function Var(id: NodeId, loc: SourceSection, nameId: NodeId, nameLoc: SourceSection, x: string, v: Node): Node {
    VarDecl(id, loc, NonNull(Identifier(nameId, nameLoc, x)), Empty, NonNull(Present(v)))
  }

  /** A variable has no `envSpec` of its own: it walks its name and its value, and binds nothing. */
  lemma VarWalk(id: NodeId, loc: SourceSection, nameId: NodeId, nameLoc: SourceSection, x: string, v: Node, st: State)
    requires |st.chain| >= 1
    ensures Walk(Var(id, loc, nameId, nameLoc, x, v), st) == Walk(v, st.(stamped := st.stamped + {id} + {nameId}))
  {
    var n := Var(id, loc, nameId, nameLoc, x, v);
    var i := Identifier(nameId, nameLoc, x);
    var ps := ChildrenWithName(n);
    NodesOfDisplay(ps[0], ps[1], ps[2], ps[2]);
    assert ps == [ps[0], ps[1], ps[2]];
    assert ChildNodes(n) == [i, v];
    var st1 := st.(stamped := st.stamped + {id});
    WalkSeqPair(i, v, st1);
    LeafWalk(i, st1);
    assert Walk(n, st) == WalkSeq([i, v], st1);
  }

  /**
   * `var x = 0; var y = x`: a variable does not bind its name, so when no enclosing scope binds
   * `x` the later reference is reported as missing.
   */
  lemma VarReferenceUnresolved(a: Node, b: Node, x: string, y: string, refId: NodeId, refLoc: SourceSection,
                               ids: seq<NodeId>, locs: seq<SourceSection>, st: State)
    requires |ids| == 5 && |locs| == 5
    requires a == Var(ids[0], locs[0], ids[1], locs[1], x, IntLiteral(ids[2], locs[2], 0))
    requires b == Var(ids[3], locs[3], ids[4], locs[4], y, SymbolLiteral(refId, refLoc, x))
    requires |st.chain| >= 1 && LookupChain(st.chain, x).None?
    ensures var r := Walk(b, Walk(a, st));
            && r.diags == st.diags + [MissingDiagnostic(refLoc)]
            && r.refs == st.refs
            && r.chain == st.chain
  {
    var lit := IntLiteral(ids[2], locs[2], 0);
    VarWalk(ids[0], locs[0], ids[1], locs[1], x, lit, st);
    LeafWalk(lit, st.(stamped := st.stamped + {ids[0]} + {ids[1]}));
    var st1 := Walk(a, st);
    var v := SymbolLiteral(refId, refLoc, x);
    VarWalk(ids[3], locs[3], ids[4], locs[4], y, v, st1);
    SymbolLiteralWalk(v, st1.(stamped := st1.stamped + {ids[3]} + {ids[4]}));
  }
}
