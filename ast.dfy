/**
 * The Lime abstract syntax tree. Every node carries an identifier standing for its object
 * identity, and its location. Children follow the `@Child` indices of each node class; list
 * nodes hold their elements in insertion order.
 */
module Ast {
  import opened Sections

  /** Node identity: distinct node objects carry distinct ids. */
  type NodeId = nat

  /** A Kotlin nullable child: the parser leaves `null` where it recovered from an error. */
  datatype Nullable<+T> = Null | NonNull(value: T)

  /** A `java.util.Optional` child, which may be empty without any parsing error. */
  datatype Optional<+T> = Empty | Present(value: T)

  /** The list node classes, all of them `LimeListNode`s. */
  datatype ListKind = Module | BlockElems | ParamList | FunParamList | ArgList | TypeExprs

  datatype BinFamily = ArithBinOp | CompBinOp | LogicBinOp

  datatype UnFamily = ArithUnOp | LogicUnOp

  datatype OperatorKind = AndOp | DivOp | EqOp | GtOp | LeqOp | MulOp | NotOp | OrOp | PlusOp

  datatype Node =
    | Identifier(id: NodeId, loc: SourceSection, text: string)
    | ListNode(id: NodeId, loc: SourceSection, kind: ListKind, elems: seq<Node>)
    | ConstDecl(id: NodeId, loc: SourceSection, name: Nullable<Node>, constType: Optional<Node>, value: Nullable<Node>)
    | VarDecl(id: NodeId, loc: SourceSection, name: Nullable<Node>, varType: Optional<Node>, optValue: Nullable<Optional<Node>>)
    | VarAffect(id: NodeId, loc: SourceSection, varName: Node, newValue: Node)
    | FunDecl(id: NodeId, loc: SourceSection, name: Nullable<Node>, params: Nullable<Node>, returnType: Optional<Node>, body: Nullable<Node>)
    | Param(id: NodeId, loc: SourceSection, name: Nullable<Node>, paramType: Nullable<Node>, defaultValue: Optional<Node>)
    | TypeDecl(id: NodeId, loc: SourceSection, name: Nullable<Node>, expr: Nullable<Node>)
    | UnitLiteral(id: NodeId, loc: SourceSection)
    | BooleanLiteral(id: NodeId, loc: SourceSection, boolValue: bool)
    | IntLiteral(id: NodeId, loc: SourceSection, intValue: int)
    | SymbolLiteral(id: NodeId, loc: SourceSection, symbol: string)
    | BracketExpr(id: NodeId, loc: SourceSection, expr: Nullable<Node>)
    | ConditionalExpr(id: NodeId, loc: SourceSection, condition: Node, thenExpr: Node, elseExpr: Nullable<Node>)
    | BlockExpr(id: NodeId, loc: SourceSection, blockElems: Node)
    | FunCall(id: NodeId, loc: SourceSection, callee: Node, args: Node)
    | Arg(id: NodeId, loc: SourceSection, argName: Optional<Node>, value: Nullable<Node>)
    | BinOp(id: NodeId, loc: SourceSection, binFamily: BinFamily, left: Nullable<Node>, op: Nullable<Node>, right: Nullable<Node>)
    | UnOp(id: NodeId, loc: SourceSection, unFamily: UnFamily, op: Nullable<Node>, value: Nullable<Node>)
    | Operator(id: NodeId, loc: SourceSection, opKind: OperatorKind)
    | SymbolType(id: NodeId, loc: SourceSection, symbol: string)
    | FunType(id: NodeId, loc: SourceSection, paramTypes: Nullable<Node>, funReturnType: Nullable<Node>)
    | ScalarType(id: NodeId, loc: SourceSection, size: int)

  /** The simple Kotlin class name of a node. */
  function ClassName(n: Node): string {
    match n
    case Identifier(_, _, _) => "Identifier"
    case ListNode(_, _, kind, _) =>
      (match kind
       case Module => "Module"
       case BlockElems => "BlockElems"
       case ParamList => "ParamList"
       case FunParamList => "FunParamList"
       case ArgList => "ArgList"
       case TypeExprs => "TypeExprs")
    case ConstDecl(_, _, _, _, _) => "ConstDecl"
    case VarDecl(_, _, _, _, _) => "VarDecl"
    case VarAffect(_, _, _, _) => "VarAffect"
    case FunDecl(_, _, _, _, _, _) => "FunDecl"
    case Param(_, _, _, _, _) => "Param"
    case TypeDecl(_, _, _, _) => "TypeDecl"
    case UnitLiteral(_, _) => "UnitLiteral"
    case BooleanLiteral(_, _, _) => "BooleanLiteral"
    case IntLiteral(_, _, _) => "IntLiteral"
    case SymbolLiteral(_, _, _) => "SymbolLiteral"
    case BracketExpr(_, _, _) => "BracketExpr"
    case ConditionalExpr(_, _, _, _, _) => "ConditionalExpr"
    case BlockExpr(_, _, _) => "BlockExpr"
    case FunCall(_, _, _, _) => "FunCall"
    case Arg(_, _, _, _) => "Arg"
    case BinOp(_, _, family, _, _, _) =>
      (match family
       case ArithBinOp => "ArithBinOp"
       case CompBinOp => "CompBinOp"
       case LogicBinOp => "LogicBinOp")
    case UnOp(_, _, family, _, _) =>
      (match family
       case ArithUnOp => "ArithUnOp"
       case LogicUnOp => "LogicUnOp")
    case Operator(_, _, kind) =>
      (match kind
       case AndOp => "AndOp"
       case DivOp => "DivOp"
       case EqOp => "EqOp"
       case GtOp => "GtOp"
       case LeqOp => "LeqOp"
       case MulOp => "MulOp"
       case NotOp => "NotOp"
       case OrOp => "OrOp"
       case PlusOp => "PlusOp")
    case SymbolType(_, _, _) => "SymbolType"
    case FunType(_, _, _, _) => "FunType"
    case ScalarType(_, _, _) => "ScalarType"
  }

  /**
   * Nodes of the `Decl` family. The assignment the visitor builds is the `VarAffect` of the
   * `ast` package, a plain node: it is neither a declaration nor an expression.
   */
  predicate IsDecl(n: Node) {
    n.ConstDecl? || n.VarDecl? || n.FunDecl? || n.Param? || n.TypeDecl?
  }

  /** Nodes of the `Expr` family; every declaration is also an expression. */
  predicate IsExpr(n: Node) {
    IsDecl(n) || n.UnitLiteral? || n.BooleanLiteral? || n.IntLiteral? || n.SymbolLiteral? ||
    n.BracketExpr? || n.ConditionalExpr? || n.BlockExpr? || n.FunCall? || n.BinOp? || n.UnOp?
  }

  // ----- Children -----

  /** The value of a `@Child` property, as the reflection reads it. */
  datatype ChildValue =
    | NullChild
    | NodeChild(node: Node)
    | EmptyChild
    | PresentChild(node: Node)
    | TextChild(text: string)
    | BoolChild(b: bool)
    | IntChild(i: int)

  datatype ChildPair = ChildPair(name: string, value: ChildValue)

  function OfNullable(x: Nullable<Node>): ChildValue {
    if x.NonNull? then NodeChild(x.value) else NullChild
  }

  function OfOptional(x: Optional<Node>): ChildValue {
    if x.Present? then PresentChild(x.value) else EmptyChild
  }

  /** A nullable `Optional` child: null, or an `Optional` which is empty or present. */
  function OfNullableOptional(x: Nullable<Optional<Node>>): ChildValue {
    if x.Null? then NullChild else OfOptional(x.value)
  }

  /**
   * `childrenWithName`: each `@Child` property with its name, by index. Classes without any
   * `@Child` property, list nodes among them, have none. Two properties with the same index
   * (the callee and the arguments of a call) keep their declaration order.
   */
  function ChildrenWithName(n: Node): seq<ChildPair> {
    match n
    case ConstDecl(_, _, name, t, v) =>
      [ChildPair("name", OfNullable(name)), ChildPair("type", OfOptional(t)), ChildPair("value", OfNullable(v))]
    case VarDecl(_, _, name, t, v) =>
      [ChildPair("name", OfNullable(name)), ChildPair("type", OfOptional(t)), ChildPair("value", OfNullableOptional(v))]
    case FunDecl(_, _, name, p, t, b) =>
      [ChildPair("name", OfNullable(name)), ChildPair("params", OfNullable(p)),
       ChildPair("returnType", OfOptional(t)), ChildPair("body", OfNullable(b))]
    case Param(_, _, name, t, d) =>
      [ChildPair("name", OfNullable(name)), ChildPair("type", OfNullable(t)), ChildPair("defaultValue", OfOptional(d))]
    case TypeDecl(_, _, name, e) =>
      [ChildPair("name", OfNullable(name)), ChildPair("expr", OfNullable(e))]
    case BooleanLiteral(_, _, b) => [ChildPair("value", BoolChild(b))]
    case IntLiteral(_, _, i) => [ChildPair("value", IntChild(i))]
    case SymbolLiteral(_, _, s) => [ChildPair("symbol", TextChild(s))]
    case BracketExpr(_, _, e) => [ChildPair("expr", OfNullable(e))]
    case BlockExpr(_, _, e) => [ChildPair("elems", NodeChild(e))]
    case FunCall(_, _, c, a) => [ChildPair("callee", NodeChild(c)), ChildPair("args", NodeChild(a))]
    case Arg(_, _, name, v) => [ChildPair("name", OfOptional(name)), ChildPair("value", OfNullable(v))]
    case BinOp(_, _, _, l, o, r) =>
      [ChildPair("left", OfNullable(l)), ChildPair("op", OfNullable(o)), ChildPair("right", OfNullable(r))]
    case UnOp(_, _, _, o, v) => [ChildPair("op", OfNullable(o)), ChildPair("value", OfNullable(v))]
    case SymbolType(_, _, s) => [ChildPair("symbol", TextChild(s))]
    case FunType(_, _, p, r) => [ChildPair("paramTypes", OfNullable(p)), ChildPair("returnType", OfNullable(r))]
    case ScalarType(_, _, s) => [ChildPair("size", IntChild(s))]
    case _ => []
  }

  /** Each property appears once: the names of a node's children are distinct. */
  lemma ChildNamesDistinct(n: Node)
    ensures var r := ChildrenWithName(n);
            forall i, j :: 0 <= i < j < |r| ==> r[i].name != r[j].name
  {
  }

  /** The nodes a child value holds: the node itself, or the value of a present `Optional`. */
  function ValueNodes(v: ChildValue): seq<Node> {
    if v.NodeChild? || v.PresentChild? then [v.node] else []
  }

  /** The nodes held by a sequence of child pairs, in order. */
  function NodesOf(ps: seq<ChildPair>): seq<Node> {
    if ps == [] then [] else NodesOf(ps[..|ps| - 1]) + ValueNodes(ps[|ps| - 1].value)
  }

  /**
   * `childrenNodes`: the walked children of a node. For a list node these are its elements, in
   * list order; for any other node, the nodes among its `@Child` values.
   */
  function ChildNodes(n: Node): seq<Node> {
    if n.ListNode? then n.elems else NodesOf(ChildrenWithName(n))
  }

  /** A node is in `NodesOf(ps)` exactly when some pair holds it, directly or in a present `Optional`. */
  lemma {:induction false} NodesOfMembers(ps: seq<ChildPair>, c: Node)
    ensures c in NodesOf(ps) <==>
              exists i :: 0 <= i < |ps| && (ps[i].value == NodeChild(c) || ps[i].value == PresentChild(c))
  {
    if ps != [] {
      var init := ps[..|ps| - 1];
      NodesOfMembers(init, c);
      if c in NodesOf(init) {
        var i :| 0 <= i < |init| && (init[i].value == NodeChild(c) || init[i].value == PresentChild(c));
        assert ps[i] == init[i];
      }
      if exists i :: 0 <= i < |ps| && (ps[i].value == NodeChild(c) || ps[i].value == PresentChild(c)) {
        var i :| 0 <= i < |ps| && (ps[i].value == NodeChild(c) || ps[i].value == PresentChild(c));
        if i < |init| {
          assert init[i] == ps[i];
        }
      }
    }
  }

  /** The nodes of a prefix extended by one pair. */
  lemma NodesOfSnoc(ps: seq<ChildPair>, p: ChildPair)
    ensures NodesOf(ps + [p]) == NodesOf(ps) + ValueNodes(p.value)
  {
    assert (ps + [p])[..|ps|] == ps;
  }

  /** The nodes of a short display of child pairs, pair by pair. */
  lemma NodesOfDisplay(a: ChildPair, b: ChildPair, c: ChildPair, d: ChildPair)
    ensures NodesOf([a]) == ValueNodes(a.value)
    ensures NodesOf([a, b]) == ValueNodes(a.value) + ValueNodes(b.value)
    ensures NodesOf([a, b, c]) == ValueNodes(a.value) + ValueNodes(b.value) + ValueNodes(c.value)
    ensures NodesOf([a, b, c, d]) == ValueNodes(a.value) + ValueNodes(b.value) + ValueNodes(c.value) + ValueNodes(d.value)
  {
    assert [a, b][..1] == [a] && [a][..0] == [];
    assert [a, b, c][..2] == [a, b];
    assert [a, b, c, d][..3] == [a, b, c];
  }

  /** The nodes without any child node. */
  lemma LeafChildNodes(n: Node)
    requires n.Identifier? || n.UnitLiteral? || n.BooleanLiteral? || n.IntLiteral? || n.SymbolLiteral? ||
             n.Operator? || n.SymbolType? || n.ScalarType?
    ensures ChildNodes(n) == []
  {
    var ps := ChildrenWithName(n);
    if ps != [] {
      NodesOfDisplay(ps[0], ps[0], ps[0], ps[0]);
      assert ps == [ps[0]];
    }
  }

  // ----- Sizes -----

  /** The number of nodes in the tree below `n` along walked children, `n` included. */
  function Size(n: Node): (r: nat)
    ensures r >= 1
    decreases n
  {
    match n
    case ListNode(_, _, _, elems) => 1 + SeqSize(elems)
    case ConstDecl(_, _, name, t, v) => 1 + NullSize(name) + OptSize(t) + NullSize(v)
    case VarDecl(_, _, name, t, v) => 1 + NullSize(name) + OptSize(t) + NullOptSize(v)
    case FunDecl(_, _, name, p, t, b) => 1 + NullSize(name) + NullSize(p) + OptSize(t) + NullSize(b)
    case Param(_, _, name, t, d) => 1 + NullSize(name) + NullSize(t) + OptSize(d)
    case TypeDecl(_, _, name, e) => 1 + NullSize(name) + NullSize(e)
    case BracketExpr(_, _, e) => 1 + NullSize(e)
    case BlockExpr(_, _, e) => 1 + Size(e)
    case FunCall(_, _, c, a) => 1 + Size(c) + Size(a)
    case Arg(_, _, name, v) => 1 + OptSize(name) + NullSize(v)
    case BinOp(_, _, _, l, o, r) => 1 + NullSize(l) + NullSize(o) + NullSize(r)
    case UnOp(_, _, _, o, v) => 1 + NullSize(o) + NullSize(v)
    case FunType(_, _, p, r) => 1 + NullSize(p) + NullSize(r)
    case _ => 1
  }

  function NullSize(x: Nullable<Node>): nat
    decreases x
  {
    if x.NonNull? then Size(x.value) else 0
  }

  function OptSize(x: Optional<Node>): nat
    decreases x
  {
    if x.Present? then Size(x.value) else 0
  }

  function NullOptSize(x: Nullable<Optional<Node>>): nat
    decreases x
  {
    if x.NonNull? then OptSize(x.value) else 0
  }

  function SeqSize(s: seq<Node>): nat
    decreases s
  {
    if s == [] then 0 else SeqSize(s[..|s| - 1]) + Size(s[|s| - 1])
  }

  lemma {:induction false} SeqSizeConcat(a: seq<Node>, b: seq<Node>)
    ensures SeqSize(a + b) == SeqSize(a) + SeqSize(b)
    decreases |b|
  {
    if b == [] {
      assert a + b == a;
    } else {
      assert (a + b)[..|a + b| - 1] == a + b[..|b| - 1];
      assert (a + b)[|a + b| - 1] == b[|b| - 1];
      SeqSizeConcat(a, b[..|b| - 1]);
    }
  }

  lemma {:induction false} SeqSizeElem(s: seq<Node>, i: nat)
    requires i < |s|
    ensures Size(s[i]) <= SeqSize(s)
    decreases |s|
  {
    if i < |s| - 1 {
      assert s[..|s| - 1][i] == s[i];
      SeqSizeElem(s[..|s| - 1], i);
    }
  }

  lemma SingleSize(c: Node)
    ensures SeqSize([c]) == Size(c)
  {
    assert [c][..0] == [];
  }

  lemma ValueNodesSizes(x: Nullable<Node>, y: Optional<Node>, z: Nullable<Optional<Node>>)
    ensures SeqSize(ValueNodes(OfNullable(x))) == NullSize(x)
    ensures SeqSize(ValueNodes(OfOptional(y))) == OptSize(y)
    ensures SeqSize(ValueNodes(OfNullableOptional(z))) == NullOptSize(z)
  {
    if x.NonNull? { SingleSize(x.value); }
    if y.Present? { SingleSize(y.value); }
    if z.NonNull? && z.value.Present? { SingleSize(z.value.value); }
  }

  /** Walked children are pieces of their parent: together they are the whole tree but its root. */
  lemma ChildNodesSize(n: Node)
    ensures SeqSize(ChildNodes(n)) + 1 == Size(n)
    ensures forall c :: c in ChildNodes(n) ==> Size(c) < Size(n)
  {
    var cs := ChildNodes(n);
    if !n.ListNode? {
      var ps := ChildrenWithName(n);
      NodesOfSize(ps);
      PairsSize(n);
    }
    forall c | c in cs ensures Size(c) < Size(n) {
      var i :| 0 <= i < |cs| && cs[i] == c;
      SeqSizeElem(cs, i);
    }
  }

  /** The total size of the nodes held by a sequence of child pairs. */
  function PairsValueSize(ps: seq<ChildPair>): nat {
    if ps == [] then 0 else PairsValueSize(ps[..|ps| - 1]) + PairSize(ps[|ps| - 1])
  }

  lemma {:induction false} NodesOfSize(ps: seq<ChildPair>)
    ensures SeqSize(NodesOf(ps)) == PairsValueSize(ps)
  {
    if ps != [] {
      NodesOfSize(ps[..|ps| - 1]);
      SeqSizeConcat(NodesOf(ps[..|ps| - 1]), ValueNodes(ps[|ps| - 1].value));
    }
  }

  function PairSize(p: ChildPair): nat {
    SeqSize(ValueNodes(p.value))
  }

  lemma PairsValueSizeDisplay(a: ChildPair, b: ChildPair, c: ChildPair, d: ChildPair)
    ensures PairsValueSize([a]) == PairSize(a)
    ensures PairsValueSize([a, b]) == PairSize(a) + PairSize(b)
    ensures PairsValueSize([a, b, c]) == PairSize(a) + PairSize(b) + PairSize(c)
  {
    assert [a][..0] == [];
    assert [a, b][..1] == [a];
    assert [a, b, c][..2] == [a, b];
  }

  /** The sizes of a sequence of pairs add up from the front as well. */
  lemma {:induction false} PairsValueSizeFront(ps: seq<ChildPair>)
    requires ps != []
    ensures PairsValueSize(ps) == PairSize(ps[0]) + PairsValueSize(ps[1..])
    decreases |ps|
  {
    if |ps| == 1 {
      assert ps[..0] == [] == ps[1..];
    } else {
      var init := ps[..|ps| - 1];
      PairsValueSizeFront(init);
      assert init[1..] == ps[1..][..|ps[1..]| - 1];
      assert init[0] == ps[0];
      assert ps[1..][|ps[1..]| - 1] == ps[|ps| - 1];
    }
  }

  lemma DeclPairsSize(n: Node)
    requires IsDecl(n)
    ensures PairsValueSize(ChildrenWithName(n)) + 1 == Size(n)
  {
    var ps := ChildrenWithName(n);
    if ps != [] { PairsValueSizeFront(ps); }
    match n
    case ConstDecl(_, _, name, t, v) =>
      ValueNodesSizes(name, t, Null); ValueNodesSizes(v, Empty, Null);
      PairsValueSizeDisplay(ps[1], ps[2], ps[2], ps[2]);
      assert ps[1..] == [ps[1], ps[2]];
    case VarDecl(_, _, name, t, v) =>
      ValueNodesSizes(name, t, v);
      PairsValueSizeDisplay(ps[1], ps[2], ps[2], ps[2]);
      assert ps[1..] == [ps[1], ps[2]];
    case FunDecl(_, _, name, p, t, b) =>
      ValueNodesSizes(name, t, Null); ValueNodesSizes(p, Empty, Null); ValueNodesSizes(b, Empty, Null);
      PairsValueSizeDisplay(ps[1], ps[2], ps[3], ps[3]);
      assert ps[1..] == [ps[1], ps[2], ps[3]];
    case Param(_, _, name, t, d) =>
      ValueNodesSizes(name, d, Null); ValueNodesSizes(t, Empty, Null);
      PairsValueSizeDisplay(ps[1], ps[2], ps[2], ps[2]);
      assert ps[1..] == [ps[1], ps[2]];
    case TypeDecl(_, _, name, e) =>
      ValueNodesSizes(name, Empty, Null); ValueNodesSizes(e, Empty, Null);
      PairsValueSizeDisplay(ps[1], ps[1], ps[1], ps[1]);
      assert ps[1..] == [ps[1]];
  }

  lemma ExprPairsSize(n: Node)
    requires !n.ListNode? && !IsDecl(n)
    ensures PairsValueSize(ChildrenWithName(n)) + 1 == Size(n)
  {
    if n.BracketExpr? || n.BlockExpr? || n.FunCall? || n.Arg? {
      CallPairsSize(n);
    } else if n.BinOp? || n.UnOp? || n.FunType? {
      OperationPairsSize(n);
    } else {
      var ps := ChildrenWithName(n);
      if ps != [] { PairsValueSizeFront(ps); }
    }
  }

  lemma CallPairsSize(n: Node)
    requires n.BracketExpr? || n.BlockExpr? || n.FunCall? || n.Arg?
    ensures PairsValueSize(ChildrenWithName(n)) + 1 == Size(n)
  {
    var ps := ChildrenWithName(n);
    PairsValueSizeFront(ps);
    match n
    case BracketExpr(_, _, e) =>
      ValueNodesSizes(e, Empty, Null);
    case BlockExpr(_, _, e) =>
      SingleSize(e);
    case FunCall(_, _, c, a) =>
      SingleSize(c); SingleSize(a);
      PairsValueSizeDisplay(ps[1], ps[1], ps[1], ps[1]);
      assert ps[1..] == [ps[1]];
    case Arg(_, _, name, v) =>
      ValueNodesSizes(v, name, Null);
      PairsValueSizeDisplay(ps[1], ps[1], ps[1], ps[1]);
      assert ps[1..] == [ps[1]];
  }

  lemma OperationPairsSize(n: Node)
    requires n.BinOp? || n.UnOp? || n.FunType?
    ensures PairsValueSize(ChildrenWithName(n)) + 1 == Size(n)
  {
    var ps := ChildrenWithName(n);
    PairsValueSizeFront(ps);
    match n
    case BinOp(_, _, _, l, o, r) =>
      ValueNodesSizes(l, Empty, Null); ValueNodesSizes(o, Empty, Null); ValueNodesSizes(r, Empty, Null);
      PairsValueSizeDisplay(ps[1], ps[2], ps[2], ps[2]);
      assert ps[1..] == [ps[1], ps[2]];
    case UnOp(_, _, _, o, v) =>
      ValueNodesSizes(o, Empty, Null); ValueNodesSizes(v, Empty, Null);
      PairsValueSizeDisplay(ps[1], ps[1], ps[1], ps[1]);
      assert ps[1..] == [ps[1]];
    case FunType(_, _, p, r) =>
      ValueNodesSizes(p, Empty, Null); ValueNodesSizes(r, Empty, Null);
      PairsValueSizeDisplay(ps[1], ps[1], ps[1], ps[1]);
      assert ps[1..] == [ps[1]];
  }

  lemma PairsSize(n: Node)
    requires !n.ListNode?
    ensures PairsValueSize(ChildrenWithName(n)) + 1 == Size(n)
  {
    if IsDecl(n) {
      DeclPairsSize(n);
    } else {
      ExprPairsSize(n);
    }
  }

  // ----- Identity -----

  /** The ids of a node and of all nodes below it along walked children. */
  function Ids(n: Node): set<NodeId>
    decreases 2 * Size(n), 1
  {
    {n.id} + ChildIds(n)
  }

  /** The ids of all nodes below `n` along walked children. */
  function ChildIds(n: Node): set<NodeId>
    decreases 2 * Size(n), 0
  {
    ChildNodesSize(n);
    SeqIds(ChildNodes(n))
  }

  function SeqIds(cs: seq<Node>): set<NodeId>
    decreases 2 * SeqSize(cs) + 1
  {
    if cs == [] then {}
    else SeqIds(cs[..|cs| - 1]) + Ids(cs[|cs| - 1])
  }

  /** The ids of the function declarations among a node and its walked descendants. */
  function FunIds(n: Node): set<NodeId>
    decreases 2 * Size(n), 1
  {
    (if n.FunDecl? then {n.id} else {}) + ChildFunIds(n)
  }

  /** The ids of the function declarations below `n` along walked children. */
  function ChildFunIds(n: Node): set<NodeId>
    decreases 2 * Size(n), 0
  {
    ChildNodesSize(n);
    SeqFunIds(ChildNodes(n))
  }

  function SeqFunIds(cs: seq<Node>): set<NodeId>
    decreases 2 * SeqSize(cs) + 1
  {
    if cs == [] then {}
    else SeqFunIds(cs[..|cs| - 1]) + FunIds(cs[|cs| - 1])
  }

  /**
   * The ids of the outermost function declarations among a node and its walked descendants, in
   * walk order: the functions whose children environments open directly below the node's own.
   */
  function TopFunIds(n: Node): seq<NodeId>
    decreases 2 * Size(n), 1
  {
    ChildNodesSize(n);
    if n.FunDecl? then [n.id] else SeqTopFunIds(ChildNodes(n))
  }

  function SeqTopFunIds(cs: seq<Node>): seq<NodeId>
    decreases 2 * SeqSize(cs) + 1
  {
    if cs == [] then []
    else SeqTopFunIds(cs[..|cs| - 1]) + TopFunIds(cs[|cs| - 1])
  }

  /** A node without child nodes has its own id only, and is a function declaration not. */
  lemma LeafIds(n: Node)
    requires n.Identifier? || n.UnitLiteral? || n.BooleanLiteral? || n.IntLiteral? || n.SymbolLiteral? ||
             n.Operator? || n.SymbolType? || n.ScalarType?
    ensures Ids(n) == {n.id} && FunIds(n) == {}
  {
    LeafChildNodes(n);
    assert SeqIds([]) == {} && SeqFunIds([]) == {};
    assert ChildIds(n) == {} && ChildFunIds(n) == {};
  }

  /** Ids of a prefix extended by one more node. */
  lemma IdsSnoc(cs: seq<Node>, i: nat)
    requires i < |cs|
    ensures SeqIds(cs[..i + 1]) == SeqIds(cs[..i]) + Ids(cs[i])
    ensures SeqFunIds(cs[..i + 1]) == SeqFunIds(cs[..i]) + FunIds(cs[i])
    ensures SeqTopFunIds(cs[..i + 1]) == SeqTopFunIds(cs[..i]) + TopFunIds(cs[i])
  {
    assert cs[..i + 1][..i] == cs[..i];
  }

  lemma SeqIdsConcat(a: seq<Node>, b: seq<Node>)
    ensures SeqIds(a + b) == SeqIds(a) + SeqIds(b)
    decreases |b|
  {
    if b == [] {
      assert a + b == a;
    } else {
      assert (a + b)[..|a + b| - 1] == a + b[..|b| - 1];
      SeqIdsConcat(a, b[..|b| - 1]);
    }
  }

  /** A tree has at most as many ids as nodes. */
  lemma {:induction false} IdsBound(n: Node)
    ensures |Ids(n)| <= Size(n)
    decreases 2 * Size(n), 1
  {
    ChildNodesSize(n);
    SeqIdsBound(ChildNodes(n));
  }

  lemma {:induction false} SeqIdsBound(cs: seq<Node>)
    ensures |SeqIds(cs)| <= SeqSize(cs)
    decreases 2 * SeqSize(cs) + 1
  {
    if cs != [] {
      var init := cs[..|cs| - 1];
      SeqSizeConcat(init, [cs[|cs| - 1]]);
      assert init + [cs[|cs| - 1]] == cs;
      SingleSize(cs[|cs| - 1]);
      SeqIdsBound(init);
      IdsBound(cs[|cs| - 1]);
    }
  }

  /**
   * No two nodes of the tree share an id. Nodes are told apart by identity; in this model a
   * tree whose ids are distinct is one whose nodes are distinct objects.
   */
  ghost predicate DistinctIds(n: Node) {
    |Ids(n)| == Size(n)
  }

  ghost predicate SeqDistinctIds(cs: seq<Node>) {
    |SeqIds(cs)| == SeqSize(cs)
  }

  /** The two halves of a sequence of distinct nodes are distinct, and share no id. */
  lemma SeqDistinctConcat(a: seq<Node>, b: seq<Node>)
    requires SeqDistinctIds(a + b)
    ensures SeqDistinctIds(a) && SeqDistinctIds(b) && SeqIds(a) * SeqIds(b) == {}
  {
    SeqIdsConcat(a, b);
    SeqSizeConcat(a, b);
    SeqIdsBound(a);
    SeqIdsBound(b);
  }

  /** A tree of distinct nodes: its root's id is not below it, and its children are distinct. */
  lemma DistinctChildren(n: Node)
    requires DistinctIds(n)
    ensures n.id !in ChildIds(n) && SeqDistinctIds(ChildNodes(n))
  {
    ChildNodesSize(n);
    SeqIdsBound(ChildNodes(n));
    assert Ids(n) == {n.id} + ChildIds(n);
  }

  /** Each node of a sequence of distinct nodes is distinct, and shares no id with the nodes before it. */
  lemma SeqDistinctElem(cs: seq<Node>, i: nat)
    requires SeqDistinctIds(cs) && i < |cs|
    ensures SeqDistinctIds(cs[..i]) && DistinctIds(cs[i]) && SeqIds(cs[..i]) * Ids(cs[i]) == {}
  {
    assert cs == cs[..i + 1] + cs[i + 1..];
    SeqDistinctConcat(cs[..i + 1], cs[i + 1..]);
    assert cs[..i + 1] == cs[..i] + [cs[i]];
    SeqDistinctConcat(cs[..i], [cs[i]]);
    SingleSize(cs[i]);
    assert SeqIds([cs[i]]) == Ids(cs[i]) by {
      assert [cs[i]][..0] == [];
    }
  }
}
