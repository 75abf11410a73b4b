/**
 * `ParsingVisitor`: the translation of the concrete parse tree into Lime AST nodes. The parse
 * tree holds only what the visitor reads of each rule context: its position, the tokens it
 * names and its sub-contexts. Every node built takes the next free node id, in the order in
 * which the Kotlin code creates the node objects.
 */
module ParsingVisitors {
  import opened Wrappers
  import opened Sources
  import opened Sections
  import opened Ast
  import opened Numerals
  import opened TokenRanges

  /**
   * The rule contexts the visitor overrides, named after their ANTLR labels, plus any other
   * rule (visited by the generated base visitor) and terminal tokens. A missing sub-context or
   * token, which the parser leaves where it recovered from an error, is `None`.
   */
  datatype ParseTree =
    | FileModule(position: Option<Position>, moduleElems: ParseTree)
    | EmptyModuleElem(position: Option<Position>)
    | SingleModuleElem(position: Option<Position>, elem: Option<ParseTree>)
    | MultipleModuleElem(position: Option<Position>, head: Option<ParseTree>, tail: Option<ParseTree>)
    | UnitLiteralCtx(position: Option<Position>)
    | IntLiteralCtx(position: Option<Position>, text: string)
    | SymbolLiteralCtx(position: Option<Position>, text: string)
    | BracketExprCtx(position: Option<Position>, inner: Option<ParseTree>)
    | BlockCtx(position: Option<Position>, elems: Option<ParseTree>)
    | EmptyBlockElem(position: Option<Position>)
    | SingleBlockElem(position: Option<Position>, elem: Option<ParseTree>)
    | MultipleBlockElem(position: Option<Position>, head: Option<ParseTree>, tail: Option<ParseTree>)
    | VarDeclCtx(position: Option<Position>, name: Option<Token>, typeName: Option<Token>, value: Option<ParseTree>)
    | VarAffectCtx(position: Option<Position>, name: Option<Token>, value: Option<ParseTree>)
    | ConstDeclCtx(position: Option<Position>, name: Option<Token>, typeName: Option<Token>, value: Option<ParseTree>)
    | FunDeclCtx(position: Option<Position>, name: Option<Token>, params: Option<ParseTree>, typeName: Option<Token>,
                 body: Option<ParseTree>)
    | OtherRule(children: seq<ParseTree>)
    | Terminal

  /**
   * The exceptions the translation can raise: `!!` on null, `as` of null to a non-null type,
   * `as` of a node of another class, and `toBigInteger()` of a text that is not a number.
   */
  datatype VisitError = NullPointer | NullCast | ClassCast | NumberFormat

  /** The result of a visit, null or not, and the next free node id. */
  datatype Visited = Visited(node: Nullable<Node>, next: NodeId)

  /** A node that passed a cast, and the next free node id. */
  datatype Built = Built(node: Node, next: NodeId)

  /** The classes the visitor casts to. */
  datatype CastTarget = ToDecl | ToExpr | ToModule | ToBlockElems | ToFunParamList

  predicate IsA(n: Node, target: CastTarget) {
    match target
    case ToDecl => IsDecl(n)
    case ToExpr => IsExpr(n)
    case ToModule => n.ListNode? && n.kind == Module
    case ToBlockElems => n.ListNode? && n.kind == BlockElems
    case ToFunParamList => n.ListNode? && n.kind == FunParamList
  }

  /** `x as T` for a non-null class `T`. */
  function CastTo(x: Nullable<Node>, target: CastTarget): (r: Result<Node, VisitError>)
    ensures r.Success? <==> x.NonNull? && IsA(x.value, target)
    ensures r.Success? ==> r.value == x.value
    ensures x.Null? ==> r == Failure(NullCast)
  {
    if x.Null? then Failure(NullCast)
    else if !IsA(x.value, target) then Failure(ClassCast)
    else Success(x.value)
  }

  /** `x!!`. */
  function NotNull(x: Nullable<Node>): (r: Result<Node, VisitError>)
    ensures r.Success? <==> x.NonNull?
    ensures r.Success? ==> r.value == x.value
  {
    if x.Null? then Failure(NullPointer) else Success(x.value)
  }

  /** An identifier of the tree handed over as an `Optional` slot: empty for a missing token. */
  function AsOptional(x: Nullable<Node>): (r: Optional<Node>)
    ensures r.Present? <==> x.NonNull?
    ensures r.Present? ==> r.value == x.value
  {
    if x.NonNull? then Present(x.value) else Empty
  }

  /** `loc`: the section of a rule context's position, or FIRST..FIRST when it has none. */
  function Loc(source: Source, position: Option<Position>): (s: SourceSection)
    ensures s.source == source
    ensures position.None? ==> s.start == First && s.end == First
    ensures position.Some? ==> s == FromPosition(source, position.value)
  {
    if position.Some? then FromPosition(source, position.value) else SourceSection(source, First, First)
  }

  /**
   * `id`: no identifier for a missing token; otherwise an identifier with the token's text,
   * spanning as many columns of the token's start line as the text has UTF-16 code units
   * (`String.length`). The end column is a 32-bit `Int` sum, which wraps past the largest `Int`.
   */
  function Id(source: Source, token: Option<Token>, next: NodeId): (r: Result<Visited, VisitError>)
    ensures r.Failure? <==> token.Some? && token.value.text.None?
    ensures r.Failure? ==> r.error == NullPointer
    ensures token.None? ==> r == Success(Visited(Null, next))
    ensures token.Some? && r.Success? ==>
              && r.value.node.NonNull? && r.value.next == next + 1
              && var i := r.value.node.value;
              var sp := token.value.startPoint;
              && i.Identifier? && i.id == next
              && i.text == token.value.text.value
              && i.loc.source == source
              && i.loc.start == SourceLocation(sp.line, sp.column)
              && i.loc.end.line == sp.line
              && (i.loc.end.column - i.loc.start.column - |Utf16(i.text)|) % TwoTo32 == 0
              && (sp.column + |Utf16(i.text)| < TwoTo31 ==> i.loc.end.column - i.loc.start.column == |Utf16(i.text)|)
  {
    if token.None? then Success(Visited(Null, next))
    else if token.value.text.None? then Failure(NullPointer)
    else
      var text := token.value.text.value;
      var sp := token.value.startPoint;
      var loc := SourceSection(source, SourceLocation(sp.line, sp.column), SourceLocation(sp.line, ToInt32(sp.column + |Utf16(text)|)));
      Success(Visited(NonNull(Identifier(next, loc, text)), next + 1))
  }

  /** `id(token)!!`. */
  function RequiredId(source: Source, token: Option<Token>, next: NodeId): (r: Result<Built, VisitError>)
    ensures r.Success? <==> token.Some? && token.value.text.Some?
    ensures r.Success? ==> r.value.node.Identifier? && r.value.node.id == next && r.value.next == next + 1
  {
    var v :- Id(source, token, next);
    var n :- NotNull(v.node);
    Success(Built(n, v.next))
  }

  /**
   * `accept` of a parse tree: the AST node the visitor builds for it, null where it builds none,
   * or the exception the translation raises.
   */
  function Visit(source: Source, t: ParseTree, next: NodeId): (r: Result<Visited, VisitError>)
    ensures r.Success? ==> next <= r.value.next
    decreases t
  {
    match t
    case FileModule(_, elems) => Visit(source, elems, next)
    case EmptyModuleElem(p) =>
      Success(Visited(NonNull(ListNode(next, Loc(source, p), Module, [])), next + 1))
    case SingleModuleElem(p, elem) =>
      var e :- VisitCast(source, elem, ToDecl, next + 1);
      Success(Visited(NonNull(ListNode(next, Loc(source, p), Module, [e.node])), e.next))
    case MultipleModuleElem(_, head, tail) =>
      var m :- VisitCast(source, tail, ToModule, next);
      var h :- VisitCast(source, head, ToDecl, m.next);
      Success(Visited(NonNull(m.node.(elems := m.node.elems + [h.node])), h.next))
    case UnitLiteralCtx(p) =>
      Success(Visited(NonNull(UnitLiteral(next, Loc(source, p))), next + 1))
    case IntLiteralCtx(p, text) =>
      (match ParseInteger(text)
       case None => Failure(NumberFormat)
       case Some(v) => Success(Visited(NonNull(IntLiteral(next, Loc(source, p), v)), next + 1)))
    case SymbolLiteralCtx(p, text) =>
      Success(Visited(NonNull(SymbolLiteral(next, Loc(source, p), text)), next + 1))
    case BracketExprCtx(_, inner) => VisitOpt(source, inner, next)
    case BlockCtx(p, elems) =>
      var es :- VisitCast(source, elems, ToBlockElems, next);
      Success(Visited(NonNull(BlockExpr(es.next, Loc(source, p), es.node)), es.next + 1))
    case EmptyBlockElem(p) =>
      Success(Visited(NonNull(ListNode(next, Loc(source, p), BlockElems, [UnitLiteral(next + 1, Loc(source, p))])), next + 2))
    case SingleBlockElem(p, elem) =>
      var e :- VisitCast(source, elem, ToExpr, next + 1);
      Success(Visited(NonNull(ListNode(next, Loc(source, p), BlockElems, [e.node])), e.next))
    case MultipleBlockElem(_, head, tail) =>
      var b :- VisitCast(source, tail, ToBlockElems, next);
      var h :- VisitCast(source, head, ToExpr, b.next);
      Success(Visited(NonNull(b.node.(elems := b.node.elems + [h.node])), h.next))
    case VarDeclCtx(p, name, typeName, value) =>
      var n :- RequiredId(source, name, next);
      var ty :- Id(source, typeName, n.next);
      var v :- VisitOpt(source, value, ty.next);
      var e :- CastNullable(v.node, ToExpr);
      var optValue := if e.Null? then Null else NonNull(Present(e.value));
      Success(Visited(NonNull(VarDecl(v.next, Loc(source, p), NonNull(n.node), AsOptional(ty.node), optValue)), v.next + 1))
    case VarAffectCtx(p, name, value) =>
      var n :- RequiredId(source, name, next);
      var v :- VisitCast(source, value, ToExpr, n.next);
      Success(Visited(NonNull(VarAffect(v.next, Loc(source, p), n.node, v.node)), v.next + 1))
    case ConstDeclCtx(p, name, typeName, value) =>
      var n :- RequiredId(source, name, next);
      var ty :- Id(source, typeName, n.next);
      var v :- VisitCast(source, value, ToExpr, ty.next);
      Success(Visited(NonNull(ConstDecl(v.next, Loc(source, p), NonNull(n.node), AsOptional(ty.node), NonNull(v.node))), v.next + 1))
    case FunDeclCtx(p, name, params, typeName, body) =>
      var n :- RequiredId(source, name, next);
      var ps :- VisitRequiredCast(source, params, ToFunParamList, n.next);
      var ty :- Id(source, typeName, ps.next);
      var b :- VisitRequiredCast(source, body, ToExpr, ty.next);
      Success(Visited(NonNull(FunDecl(b.next, Loc(source, p), NonNull(n.node), NonNull(ps.node), AsOptional(ty.node), NonNull(b.node))),
                      b.next + 1))
    case OtherRule(children) => VisitChildren(source, children, next)
    case Terminal => Success(Visited(Null, next))
  }

  /** `ctx.sub?.accept(this)`: null for a missing sub-context. */
  function VisitOpt(source: Source, o: Option<ParseTree>, next: NodeId): (r: Result<Visited, VisitError>)
    ensures r.Success? ==> next <= r.value.next
    ensures o.None? ==> r == Success(Visited(Null, next))
    decreases o, 0
  {
    if o.None? then Success(Visited(Null, next)) else Visit(source, o.value, next)
  }

  /** `ctx.sub?.accept(this) as T`. */
  function VisitCast(source: Source, o: Option<ParseTree>, target: CastTarget, next: NodeId): (r: Result<Built, VisitError>)
    ensures r.Success? ==> next <= r.value.next && IsA(r.value.node, target)
    decreases o, 1
  {
    var v :- VisitOpt(source, o, next);
    var n :- CastTo(v.node, target);
    Success(Built(n, v.next))
  }

  /** `ctx.sub!!.accept(this) as T`. */
  function VisitRequiredCast(source: Source, o: Option<ParseTree>, target: CastTarget, next: NodeId)
    : (r: Result<Built, VisitError>)
    ensures r.Success? ==> next <= r.value.next && IsA(r.value.node, target)
    ensures o.None? ==> r == Failure(NullPointer)
    decreases o, 2
  {
    if o.None? then Failure(NullPointer) else VisitCast(source, o, target, next)
  }

  /** `x as T?`: null passes, a node must be of class `T`. */
  function CastNullable(x: Nullable<Node>, target: CastTarget): (r: Result<Nullable<Node>, VisitError>)
    ensures r.Success? <==> x.Null? || IsA(x.value, target)
    ensures r.Success? ==> r.value == x
  {
    if x.NonNull? && !IsA(x.value, target) then Failure(ClassCast) else Success(x)
  }

  /**
   * `visitChildren` of the generated base visitor: every child is visited in order, and the
   * result is that of the last one (null when there are no children).
   */
  function VisitChildren(source: Source, cs: seq<ParseTree>, next: NodeId): (r: Result<Visited, VisitError>)
    ensures r.Success? ==> next <= r.value.next
    ensures cs == [] ==> r == Success(Visited(Null, next))
    decreases cs
  {
    if cs == [] then Success(Visited(Null, next))
    else
      var init :- VisitChildren(source, cs[..|cs| - 1], next);
      Visit(source, cs[|cs| - 1], init.next)
  }

  // ----- Translation rules -----

  /** An empty module element is a module without children; an empty block holds one unit literal at its range. */
  lemma EmptyElemRules(source: Source, p: Option<Position>, next: NodeId)
    ensures Visit(source, EmptyModuleElem(p), next) == Success(Visited(NonNull(ListNode(next, Loc(source, p), Module, [])), next + 1))
    ensures var r := Visit(source, EmptyBlockElem(p), next);
            && r.Success? && r.value.node.NonNull? && r.value.node.value.ListNode?
            && r.value.node.value.kind == BlockElems
            && r.value.node.value.elems == [UnitLiteral(next + 1, Loc(source, p))]
            && r.value.node.value.loc == r.value.node.value.elems[0].loc
  {
  }

  /** An integer literal holds the whole value of its text, without truncation, whatever its magnitude. */
  lemma IntLiteralExact(source: Source, p: Option<Position>, v: int, next: NodeId)
    ensures Visit(source, IntLiteralCtx(p, IntToDecimal(v)), next) ==
            Success(Visited(NonNull(IntLiteral(next, Loc(source, p), v)), next + 1))
  {
    ParseIntegerOfDecimal(v);
  }

  /** A text that is not an integer makes `toBigInteger` throw. */
  lemma IntLiteralMalformed(source: Source, p: Option<Position>, text: string, next: NodeId)
    ensures Visit(source, IntLiteralCtx(p, text), next).Failure? <==> !IsIntegerText(text)
    ensures !IsIntegerText(text) ==> Visit(source, IntLiteralCtx(p, text), next) == Failure(NumberFormat)
  {
  }

  /** A bracketed expression is its inner expression: no node is made for the brackets. */
  lemma BracketTransparent(source: Source, p: Option<Position>, inner: Option<ParseTree>, next: NodeId)
    ensures Visit(source, BracketExprCtx(p, inner), next) == VisitOpt(source, inner, next)
    ensures inner.None? ==> Visit(source, BracketExprCtx(p, inner), next) == Success(Visited(Null, next))
  {
  }

  /** A declaration or an assignment whose name token is missing is a null dereference (`!!`). */
  lemma MissingNameRules(source: Source, p: Option<Position>, ty: Option<Token>, value: Option<ParseTree>,
                         params: Option<ParseTree>, body: Option<ParseTree>, next: NodeId)
    ensures Visit(source, VarDeclCtx(p, None, ty, value), next) == Failure(NullPointer)
    ensures Visit(source, ConstDeclCtx(p, None, ty, value), next) == Failure(NullPointer)
    ensures Visit(source, VarAffectCtx(p, None, value), next) == Failure(NullPointer)
    ensures Visit(source, FunDeclCtx(p, None, params, ty, body), next) == Failure(NullPointer)
  {
  }

  /** A constant or an assignment without a value context fails the cast of null to `Expr`. */
  lemma MissingValueRules(source: Source, p: Option<Position>, name: Token, ty: Option<Token>, next: NodeId)
    requires name.text.Some? && (ty.Some? ==> ty.value.text.Some?)
    ensures Visit(source, ConstDeclCtx(p, Some(name), ty, None), next) == Failure(NullCast)
    ensures Visit(source, VarAffectCtx(p, Some(name), None), next) == Failure(NullCast)
  {
  }

  /**
   * An assignment visits to the `ast` package's `VarAffect`, which is neither a `Decl` nor an
   * `Expr`: as a module or a block element, its cast throws a class-cast error.
   */
  lemma AssignmentIsNoElement(source: Source, p: Option<Position>, a: ParseTree, next: NodeId)
    requires a.VarAffectCtx? && Visit(source, a, next + 1).Success?
    ensures Visit(source, SingleModuleElem(p, Some(a)), next) == Failure(ClassCast)
    ensures Visit(source, SingleBlockElem(p, Some(a)), next) == Failure(ClassCast)
  {
    var v := Visit(source, a, next + 1).value;
    assert v.node.NonNull? && v.node.value.VarAffect?;
    assert VisitCast(source, Some(a), ToDecl, next + 1) == Failure(ClassCast);
    assert VisitCast(source, Some(a), ToExpr, next + 1) == Failure(ClassCast);
  }

  /** A variable without a value context is fine: its value slot is null (`as Expr?`). */
  lemma VarDeclWithoutValue(source: Source, p: Option<Position>, name: Token, ty: Option<Token>, next: NodeId)
    requires name.text.Some? && (ty.Some? ==> ty.value.text.Some?)
    ensures var r := Visit(source, VarDeclCtx(p, Some(name), ty, None), next);
            r.Success? && r.value.node.NonNull? && r.value.node.value.VarDecl? && r.value.node.value.optValue == Null
  {
  }

  /** A function without a parameter list context is a null dereference (`!!`). */
  lemma MissingParamsRule(source: Source, p: Option<Position>, name: Token, ty: Option<Token>, body: Option<ParseTree>,
                          next: NodeId)
    requires name.text.Some?
    ensures Visit(source, FunDeclCtx(p, Some(name), None, ty, body), next) == Failure(NullPointer)
  {
  }

  // ----- List elements -----

  /** The class the elements of a module or of a block are cast to. */
  function ElemTarget(kind: ListKind): CastTarget {
    if kind == Module then ToDecl else ToExpr
  }

  /**
   * The element contexts `ds`, nested as the grammar's `tail` and `head` labels nest them: the
   * innermost context is a single element holding `ds[0]`, and each enclosing context adds the
   * next element as its head. The positions of the enclosing contexts are not read.
   */
  function ListChain(kind: ListKind, p: Option<Position>, ds: seq<Option<ParseTree>>): (t: ParseTree)
    requires kind == Module || kind == BlockElems
    requires |ds| >= 1
  {
    if |ds| == 1 then
      if kind == Module then SingleModuleElem(p, ds[0]) else SingleBlockElem(p, ds[0])
    else
      var tail := Some(ListChain(kind, p, ds[..|ds| - 1]));
      if kind == Module then MultipleModuleElem(p, ds[|ds| - 1], tail) else MultipleBlockElem(p, ds[|ds| - 1], tail)
  }

  /** Several nodes visited in turn, and the next free node id after them. */
  datatype VisitedSeq = VisitedSeq(nodes: seq<Node>, next: NodeId)

  /** Each context of `ds` visited and cast in turn, from the first; the first failure stops. */
  function VisitEach(source: Source, ds: seq<Option<ParseTree>>, target: CastTarget, next: NodeId)
    : (r: Result<VisitedSeq, VisitError>)
    ensures r.Success? ==> |r.value.nodes| == |ds| && next <= r.value.next
    ensures r.Success? ==> forall i :: 0 <= i < |ds| ==> IsA(r.value.nodes[i], target)
  {
    if ds == [] then Success(VisitedSeq([], next))
    else
      var init :- VisitEach(source, ds[..|ds| - 1], target, next);
      var last :- VisitCast(source, ds[|ds| - 1], target, init.next);
      Success(VisitedSeq(init.nodes + [last.node], last.next))
  }

  /**
   * The module or block element rules together: the list node is created first, at the position
   * of the innermost element context, and the elements follow in nesting order, each cast to a
   * declaration (in a module) or to an expression (in a block). Any failure of an element is the
   * failure of the whole list.
   */
  ghost predicate ChainVisitsInOrder(source: Source, kind: ListKind, p: Option<Position>, ds: seq<Option<ParseTree>>,
                                     next: NodeId)
    requires kind == Module || kind == BlockElems
    requires |ds| >= 1
  {
    var r := Visit(source, ListChain(kind, p, ds), next);
    var each := VisitEach(source, ds, ElemTarget(kind), next + 1);
    && (each.Success? ==>
          r == Success(Visited(NonNull(ListNode(next, Loc(source, p), kind, each.value.nodes)), each.value.next)))
    && (each.Failure? ==> r == Failure(each.error))
  }

  lemma {:induction false} ListChainInOrder(source: Source, kind: ListKind, p: Option<Position>,
                                            ds: seq<Option<ParseTree>>, next: NodeId)
    requires kind == Module || kind == BlockElems
    requires |ds| >= 1
    ensures ChainVisitsInOrder(source, kind, p, ds, next)
  {
    if |ds| == 1 {
      ListChainSingle(source, kind, p, ds[0], next);
      assert ds == [ds[0]];
    } else {
      var init, d := ds[..|ds| - 1], ds[|ds| - 1];
      assert ds == init + [d];
      ListChainInOrder(source, kind, p, init, next);
      ListChainStep(source, kind, p, init, d, next);
    }
  }

  /** A single element context: a list holding the one element. */
  lemma ListChainSingle(source: Source, kind: ListKind, p: Option<Position>, d: Option<ParseTree>, next: NodeId)
    requires kind == Module || kind == BlockElems
    ensures ChainVisitsInOrder(source, kind, p, [d], next)
  {
    var target := ElemTarget(kind);
    var each := VisitEach(source, [d], target, next + 1);
    assert [d][..0] == [];
    assert VisitEach(source, [d][..0], target, next + 1) == Success(VisitedSeq([], next + 1));
    var last := VisitCast(source, d, target, next + 1);
    if kind == Module {
      assert ListChain(kind, p, [d]) == SingleModuleElem(p, d);
    } else {
      assert ListChain(kind, p, [d]) == SingleBlockElem(p, d);
    }
    if last.Success? {
      assert each == Success(VisitedSeq([] + [last.value.node], last.value.next));
      assert [] + [last.value.node] == [last.value.node];
    }
  }

  /** A multiple element context: the list of its tail, with its head appended. */
  lemma ListChainStep(source: Source, kind: ListKind, p: Option<Position>, init: seq<Option<ParseTree>>,
                      d: Option<ParseTree>, next: NodeId)
    requires kind == Module || kind == BlockElems
    requires |init| >= 1
    requires ChainVisitsInOrder(source, kind, p, init, next)
    ensures ChainVisitsInOrder(source, kind, p, init + [d], next)
  {
    var ds := init + [d];
    var target := ElemTarget(kind);
    var each := VisitEach(source, ds, target, next + 1);
    var rest := VisitEach(source, init, target, next + 1);
    assert ds[..|ds| - 1] == init;
    var chain := ListChain(kind, p, init);
    var listTarget := if kind == Module then ToModule else ToBlockElems;
    if kind == Module {
      assert ListChain(kind, p, ds) == MultipleModuleElem(p, d, Some(chain));
    } else {
      assert ListChain(kind, p, ds) == MultipleBlockElem(p, d, Some(chain));
    }
    if rest.Success? {
      var list := ListNode(next, Loc(source, p), kind, rest.value.nodes);
      assert VisitCast(source, Some(chain), listTarget, next) == Success(Built(list, rest.value.next));
      var last := VisitCast(source, d, target, rest.value.next);
      if last.Success? {
        assert each == Success(VisitedSeq(rest.value.nodes + [last.value.node], last.value.next));
        assert list.(elems := list.elems + [last.value.node]) == ListNode(next, Loc(source, p), kind, each.value.nodes);
      }
    } else {
      assert VisitCast(source, Some(chain), listTarget, next) == Failure(rest.error);
    }
  }

  // ----- Node identity -----

  /**
   * The nodes of a tree are distinct objects allocated while its ids ran from `lo` to `hi`:
   * every id of the tree is in that range, and no two of its nodes share one.
   */
  ghost predicate FreshNode(n: Node, lo: NodeId, hi: NodeId) {
    (forall i :: i in Ids(n) ==> lo <= i < hi) && |Ids(n)| == Size(n)
  }

  ghost predicate FreshSeq(cs: seq<Node>, lo: NodeId, hi: NodeId) {
    lo <= hi && (forall i :: i in SeqIds(cs) ==> lo <= i < hi) && |SeqIds(cs)| == SeqSize(cs)
  }

  /** A visit result that is null, or a tree of distinct nodes allocated in the range. */
  ghost predicate FreshOrNull(x: Nullable<Node>, lo: NodeId, hi: NodeId) {
    lo <= hi && (x.NonNull? ==> FreshNode(x.value, lo, hi))
  }

  lemma FreshSeqConcat(a: seq<Node>, b: seq<Node>, lo: NodeId, mid: NodeId, hi: NodeId)
    requires FreshSeq(a, lo, mid) && FreshSeq(b, mid, hi)
    ensures FreshSeq(a + b, lo, hi)
  {
    SeqIdsConcat(a, b);
    SeqSizeConcat(a, b);
    assert SeqIds(a) * SeqIds(b) == {};
  }

  lemma FreshSingle(c: Node, lo: NodeId, hi: NodeId)
    requires lo <= hi && FreshNode(c, lo, hi)
    ensures FreshSeq([c], lo, hi)
  {
    assert [c][..0] == [];
    SingleSize(c);
  }

  /** The nodes held by one child value form a fresh sequence when the value is null or fresh. */
  lemma FreshValues(x: Nullable<Node>, lo: NodeId, hi: NodeId)
    requires FreshOrNull(x, lo, hi)
    ensures FreshSeq(ValueNodes(OfNullable(x)), lo, hi)
    ensures FreshSeq(ValueNodes(OfOptional(AsOptional(x))), lo, hi)
    ensures FreshSeq(ValueNodes(OfNullableOptional(if x.Null? then Null else NonNull(Present(x.value)))), lo, hi)
  {
    if x.NonNull? { FreshSingle(x.value, lo, hi); }
  }

  /** A node without child nodes is one fresh node. */
  lemma FreshLeaf(n: Node)
    requires n.Identifier? || n.UnitLiteral? || n.IntLiteral? || n.SymbolLiteral?
    ensures FreshNode(n, n.id, n.id + 1)
  {
    LeafChildNodes(n);
    FreshAfter(n, n.id);
  }

  /** A block expression allocated after its elements. */
  lemma FreshBlockExpr(id: NodeId, loc: SourceSection, elems: Node, lo: NodeId)
    requires FreshSeq([elems], lo, id)
    ensures FreshNode(BlockExpr(id, loc, elems), lo, id + 1)
  {
    var b := BlockExpr(id, loc, elems);
    var ps := ChildrenWithName(b);
    NodesOfDisplay(ps[0], ps[0], ps[0], ps[0]);
    assert ps == [ps[0]];
    FreshAfter(b, lo);
  }

  /** A node allocated after all of its children. */
  lemma FreshAfter(n: Node, lo: NodeId)
    requires !n.ListNode? && FreshSeq(ChildNodes(n), lo, n.id)
    ensures FreshNode(n, lo, n.id + 1)
  {
    ChildNodesSize(n);
  }

  /** Three child values, fresh one after the other. */
  lemma FreshThree(n: Node, x: ChildValue, y: ChildValue, z: ChildValue, lo: NodeId, b1: NodeId, b2: NodeId)
    requires !n.ListNode? && |ChildrenWithName(n)| == 3
    requires ChildrenWithName(n)[0].value == x && ChildrenWithName(n)[1].value == y && ChildrenWithName(n)[2].value == z
    requires FreshSeq(ValueNodes(x), lo, b1) && FreshSeq(ValueNodes(y), b1, b2) && FreshSeq(ValueNodes(z), b2, n.id)
    ensures FreshNode(n, lo, n.id + 1)
  {
    var ps := ChildrenWithName(n);
    NodesOfDisplay(ps[0], ps[1], ps[2], ps[2]);
    assert ps == [ps[0], ps[1], ps[2]];
    FreshSeqConcat(ValueNodes(x), ValueNodes(y), lo, b1, b2);
    FreshSeqConcat(ValueNodes(x) + ValueNodes(y), ValueNodes(z), lo, b2, n.id);
    FreshAfter(n, lo);
  }

  /** A variable declaration allocated after its name, its type and its value. */
  lemma FreshVarDecl(id: NodeId, loc: SourceSection, name: Node, ty: Nullable<Node>, value: Nullable<Node>,
                     lo: NodeId, b1: NodeId, b2: NodeId)
    requires FreshNode(name, lo, b1) && lo <= b1 && FreshOrNull(ty, b1, b2) && FreshOrNull(value, b2, id)
    ensures FreshNode(VarDecl(id, loc, NonNull(name), AsOptional(ty), if value.Null? then Null else NonNull(Present(value.value))),
                      lo, id + 1)
  {
    var v := if value.Null? then Null else NonNull(Present(value.value));
    FreshValues(NonNull(name), lo, b1);
    FreshValues(ty, b1, b2);
    FreshValues(value, b2, id);
    FreshThree(VarDecl(id, loc, NonNull(name), AsOptional(ty), v), NodeChild(name), OfOptional(AsOptional(ty)),
               OfNullableOptional(v), lo, b1, b2);
  }

  /**
   * An assignment allocated after its name and its value. Its name and value are not `@Child`
   * properties, so the assignment's tree is the node alone.
   */
  lemma FreshVarAffect(id: NodeId, loc: SourceSection, name: Node, value: Node, lo: NodeId, b1: NodeId)
    requires FreshNode(name, lo, b1) && lo <= b1 && FreshNode(value, b1, id) && b1 <= id
    ensures FreshNode(VarAffect(id, loc, name, value), lo, id + 1)
  {
    var n := VarAffect(id, loc, name, value);
    assert ChildNodes(n) == [];
    assert SeqIds([]) == {};
    assert Ids(n) == {id};
  }

  /** A constant declaration allocated after its name, its type and its value. */
  lemma FreshConstDecl(id: NodeId, loc: SourceSection, name: Node, ty: Nullable<Node>, value: Node,
                       lo: NodeId, b1: NodeId, b2: NodeId)
    requires FreshNode(name, lo, b1) && lo <= b1 && FreshOrNull(ty, b1, b2) && FreshNode(value, b2, id) && b2 <= id
    ensures FreshNode(ConstDecl(id, loc, NonNull(name), AsOptional(ty), NonNull(value)), lo, id + 1)
  {
    FreshValues(NonNull(name), lo, b1);
    FreshValues(ty, b1, b2);
    FreshValues(NonNull(value), b2, id);
    FreshThree(ConstDecl(id, loc, NonNull(name), AsOptional(ty), NonNull(value)), NodeChild(name), OfOptional(AsOptional(ty)),
               NodeChild(value), lo, b1, b2);
  }

  /** A function declaration allocated after its name, its parameters, its return type and its body. */
  lemma FreshFunDecl(id: NodeId, loc: SourceSection, name: Node, params: Node, ty: Nullable<Node>, body: Node,
                     lo: NodeId, b1: NodeId, b2: NodeId, b3: NodeId)
    requires FreshNode(name, lo, b1) && lo <= b1 && FreshNode(params, b1, b2) && b1 <= b2
    requires FreshOrNull(ty, b2, b3) && FreshNode(body, b3, id) && b3 <= id
    ensures FreshNode(FunDecl(id, loc, NonNull(name), NonNull(params), AsOptional(ty), NonNull(body)), lo, id + 1)
  {
    var n := FunDecl(id, loc, NonNull(name), NonNull(params), AsOptional(ty), NonNull(body));
    FreshSingle(name, lo, b1);
    FreshSingle(params, b1, b2);
    FreshValues(ty, b2, b3);
    FreshSingle(body, b3, id);
    var ps := ChildrenWithName(n);
    NodesOfDisplay(ps[0], ps[1], ps[2], ps[3]);
    assert ps == [ps[0], ps[1], ps[2], ps[3]];
    var t := ValueNodes(OfOptional(AsOptional(ty)));
    FreshSeqConcat([name], [params], lo, b1, b2);
    FreshSeqConcat([name] + [params], t, lo, b2, b3);
    FreshSeqConcat([name] + [params] + t, [body], lo, b3, id);
    FreshAfter(n, lo);
  }

  /** A list node allocated before its elements. */
  lemma FreshListBefore(id: NodeId, loc: SourceSection, kind: ListKind, elems: seq<Node>, hi: NodeId)
    requires FreshSeq(elems, id + 1, hi)
    ensures FreshNode(ListNode(id, loc, kind, elems), id, hi)
  {
  }

  /** An element appended to a list node whose elements were allocated before it. */
  lemma FreshAppend(list: Node, e: Node, lo: NodeId, mid: NodeId, hi: NodeId)
    requires list.ListNode? && FreshNode(list, lo, mid) && FreshNode(e, mid, hi)
    ensures FreshNode(list.(elems := list.elems + [e]), lo, hi)
  {
    assert Ids(list) == {list.id} + SeqIds(list.elems);
    assert list.id !in SeqIds(list.elems) by {
      if list.id in SeqIds(list.elems) {
        assert Ids(list) == SeqIds(list.elems);
        SeqIdsBound(list.elems);
      }
    }
    FreshSeqConcat(list.elems, [e], lo, mid, hi) by {
      assert |Ids(list)| == 1 + |SeqIds(list.elems)|;
      assert FreshSeq(list.elems, lo, mid);
      FreshSingle(e, mid, hi);
    }
    var l := list.(elems := list.elems + [e]);
    assert Ids(l) == {list.id} + SeqIds(list.elems + [e]);
  }

  /** The identifier `id` builds is one fresh node. */
  lemma IdFresh(source: Source, token: Option<Token>, next: NodeId)
    ensures var r := Id(source, token, next); r.Success? ==> FreshOrNull(r.value.node, next, r.value.next)
  {
    var r := Id(source, token, next);
    if r.Success? && r.value.node.NonNull? {
      var i := r.value.node.value;
      FreshLeaf(i);
    }
  }

  lemma RequiredIdFresh(source: Source, token: Option<Token>, next: NodeId)
    ensures var r := RequiredId(source, token, next); r.Success? ==> FreshNode(r.value.node, next, r.value.next)
  {
    IdFresh(source, token, next);
  }

  /**
   * Visiting a parse tree allocates distinct nodes, with ids from `next` on: the translated tree
   * shares no node with anything built before, and no two of its nodes are the same object.
   */
  lemma {:induction false} VisitFresh(source: Source, t: ParseTree, next: NodeId)
    ensures var r := Visit(source, t, next); r.Success? ==> FreshOrNull(r.value.node, next, r.value.next)
    decreases t, 1
  {
    match t
    case FileModule(_, elems) => VisitFresh(source, elems, next);
    case EmptyModuleElem(p) =>
      FreshListBefore(next, Loc(source, p), Module, [], next + 1);
    case SingleModuleElem(_, _) => SingleListFresh(source, t, next);
    case MultipleModuleElem(_, _, _) => MultipleListFresh(source, t, next);
    case UnitLiteralCtx(_) => LiteralFresh(source, t, next);
    case IntLiteralCtx(_, _) => LiteralFresh(source, t, next);
    case SymbolLiteralCtx(_, _) => LiteralFresh(source, t, next);
    case BracketExprCtx(_, inner) => VisitOptFresh(source, inner, next);
    case BlockCtx(_, _) => BlockFresh(source, t, next);
    case EmptyBlockElem(_) => EmptyBlockFresh(source, t, next);
    case SingleBlockElem(_, _) => SingleListFresh(source, t, next);
    case MultipleBlockElem(_, _, _) => MultipleListFresh(source, t, next);
    case VarDeclCtx(_, _, _, _) => VarDeclFresh(source, t, next);
    case VarAffectCtx(_, _, _) => VarAffectFresh(source, t, next);
    case ConstDeclCtx(_, _, _, _) => ConstDeclFresh(source, t, next);
    case FunDeclCtx(_, _, _, _, _) => FunDeclFresh(source, t, next);
    case OtherRule(children) => VisitChildrenFresh(source, children, next);
    case Terminal =>
  }

  lemma {:induction false} VisitOptFresh(source: Source, o: Option<ParseTree>, next: NodeId)
    ensures var r := VisitOpt(source, o, next); r.Success? ==> FreshOrNull(r.value.node, next, r.value.next)
    decreases o, 0
  {
    if o.Some? {
      VisitFresh(source, o.value, next);
    }
  }

  lemma {:induction false} VisitCastFresh(source: Source, o: Option<ParseTree>, target: CastTarget, next: NodeId)
    ensures var r := VisitCast(source, o, target, next); r.Success? ==> FreshNode(r.value.node, next, r.value.next)
    decreases o, 1
  {
    VisitOptFresh(source, o, next);
  }

  lemma {:induction false} VisitRequiredCastFresh(source: Source, o: Option<ParseTree>, target: CastTarget, next: NodeId)
    ensures var r := VisitRequiredCast(source, o, target, next); r.Success? ==> FreshNode(r.value.node, next, r.value.next)
    decreases o, 2
  {
    if o.Some? {
      VisitCastFresh(source, o, target, next);
    }
  }

  lemma {:induction false} VisitChildrenFresh(source: Source, cs: seq<ParseTree>, next: NodeId)
    ensures var r := VisitChildren(source, cs, next); r.Success? ==> FreshOrNull(r.value.node, next, r.value.next)
    decreases cs
  {
    if cs != [] {
      var init := VisitChildren(source, cs[..|cs| - 1], next);
      if init.Success? {
        VisitFresh(source, cs[|cs| - 1], init.value.next);
      }
    }
  }

  lemma {:induction false} SingleListFresh(source: Source, t: ParseTree, next: NodeId)
    requires t.SingleModuleElem? || t.SingleBlockElem?
    ensures var r := Visit(source, t, next); r.Success? ==> FreshOrNull(r.value.node, next, r.value.next)
    decreases t, 0
  {
    var kind := if t.SingleModuleElem? then Module else BlockElems;
    var e := VisitCast(source, t.elem, ElemTarget(kind), next + 1);
    if e.Success? {
      VisitCastFresh(source, t.elem, ElemTarget(kind), next + 1);
      FreshSingle(e.value.node, next + 1, e.value.next);
      FreshListBefore(next, Loc(source, t.position), kind, [e.value.node], e.value.next);
    }
  }

  lemma {:induction false} MultipleListFresh(source: Source, t: ParseTree, next: NodeId)
    requires t.MultipleModuleElem? || t.MultipleBlockElem?
    ensures var r := Visit(source, t, next); r.Success? ==> FreshOrNull(r.value.node, next, r.value.next)
    decreases t, 0
  {
    var kind := if t.MultipleModuleElem? then Module else BlockElems;
    var listTarget := if kind == Module then ToModule else ToBlockElems;
    var m := VisitCast(source, t.tail, listTarget, next);
    if m.Success? {
      VisitCastFresh(source, t.tail, listTarget, next);
      var h := VisitCast(source, t.head, ElemTarget(kind), m.value.next);
      if h.Success? {
        VisitCastFresh(source, t.head, ElemTarget(kind), m.value.next);
        FreshAppend(m.value.node, h.value.node, next, m.value.next, h.value.next);
      }
    }
  }

  lemma LiteralFresh(source: Source, t: ParseTree, next: NodeId)
    requires t.UnitLiteralCtx? || t.IntLiteralCtx? || t.SymbolLiteralCtx?
    ensures var r := Visit(source, t, next); r.Success? ==> FreshOrNull(r.value.node, next, r.value.next)
  {
    var r := Visit(source, t, next);
    if r.Success? {
      FreshLeaf(r.value.node.value);
    }
  }

  lemma EmptyBlockFresh(source: Source, t: ParseTree, next: NodeId)
    requires t.EmptyBlockElem?
    ensures var r := Visit(source, t, next); r.Success? ==> FreshOrNull(r.value.node, next, r.value.next)
  {
    var u := UnitLiteral(next + 1, Loc(source, t.position));
    FreshLeaf(u);
    FreshSingle(u, next + 1, next + 2);
    FreshListBefore(next, Loc(source, t.position), BlockElems, [u], next + 2);
  }

  lemma {:induction false} BlockFresh(source: Source, t: ParseTree, next: NodeId)
    requires t.BlockCtx?
    ensures var r := Visit(source, t, next); r.Success? ==> FreshOrNull(r.value.node, next, r.value.next)
    decreases t, 0
  {
    var es := VisitCast(source, t.elems, ToBlockElems, next);
    if es.Success? {
      VisitCastFresh(source, t.elems, ToBlockElems, next);
      FreshSingle(es.value.node, next, es.value.next);
      FreshBlockExpr(es.value.next, Loc(source, t.position), es.value.node, next);
    }
  }

  lemma {:induction false} VarDeclFresh(source: Source, t: ParseTree, next: NodeId)
    requires t.VarDeclCtx?
    ensures var r := Visit(source, t, next); r.Success? ==> FreshOrNull(r.value.node, next, r.value.next)
    decreases t, 0
  {
    var r := Visit(source, t, next);
    if r.Success? {
      var n := RequiredId(source, t.name, next).value;
      RequiredIdFresh(source, t.name, next);
      var ty := Id(source, t.typeName, n.next).value;
      IdFresh(source, t.typeName, n.next);
      var v := VisitOpt(source, t.value, ty.next).value;
      VisitOptFresh(source, t.value, ty.next);
      FreshVarDecl(v.next, Loc(source, t.position), n.node, ty.node, v.node, next, n.next, ty.next);
    }
  }

  lemma {:induction false} VarAffectFresh(source: Source, t: ParseTree, next: NodeId)
    requires t.VarAffectCtx?
    ensures var r := Visit(source, t, next); r.Success? ==> FreshOrNull(r.value.node, next, r.value.next)
    decreases t, 0
  {
    var r := Visit(source, t, next);
    if r.Success? {
      var n := RequiredId(source, t.name, next).value;
      RequiredIdFresh(source, t.name, next);
      var v := VisitCast(source, t.value, ToExpr, n.next).value;
      VisitCastFresh(source, t.value, ToExpr, n.next);
      FreshVarAffect(v.next, Loc(source, t.position), n.node, v.node, next, n.next);
    }
  }

  lemma {:induction false} ConstDeclFresh(source: Source, t: ParseTree, next: NodeId)
    requires t.ConstDeclCtx?
    ensures var r := Visit(source, t, next); r.Success? ==> FreshOrNull(r.value.node, next, r.value.next)
    decreases t, 0
  {
    var r := Visit(source, t, next);
    if r.Success? {
      var n := RequiredId(source, t.name, next).value;
      RequiredIdFresh(source, t.name, next);
      var ty := Id(source, t.typeName, n.next).value;
      IdFresh(source, t.typeName, n.next);
      var v := VisitCast(source, t.value, ToExpr, ty.next).value;
      VisitCastFresh(source, t.value, ToExpr, ty.next);
      FreshConstDecl(v.next, Loc(source, t.position), n.node, ty.node, v.node, next, n.next, ty.next);
    }
  }

  lemma {:induction false} FunDeclFresh(source: Source, t: ParseTree, next: NodeId)
    requires t.FunDeclCtx?
    ensures var r := Visit(source, t, next); r.Success? ==> FreshOrNull(r.value.node, next, r.value.next)
    decreases t, 0
  {
    var r := Visit(source, t, next);
    if r.Success? {
      var n := RequiredId(source, t.name, next).value;
      RequiredIdFresh(source, t.name, next);
      var ps := VisitRequiredCast(source, t.params, ToFunParamList, n.next).value;
      VisitRequiredCastFresh(source, t.params, ToFunParamList, n.next);
      var ty := Id(source, t.typeName, ps.next).value;
      IdFresh(source, t.typeName, ps.next);
      var b := VisitRequiredCast(source, t.body, ToExpr, ty.next).value;
      VisitRequiredCastFresh(source, t.body, ToExpr, ty.next);
      FreshFunDecl(b.next, Loc(source, t.position), n.node, ps.node, ty.node, b.node, next, n.next, ps.next, ty.next);
    }
  }
}
