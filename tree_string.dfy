/**
 * `treeString`: the indented text rendering of a Lime syntax tree. A node prints its class name
 * and its `@Child` properties, one per line below it unless a single non-node child fits on the
 * same line; a list node prints a header and its elements with their indices.
 */
module TreeStrings {
  import opened Ast
  import opened Numerals
  import opened Sources

  const IndentUnit: string := "|  "
  const ParsingError: string := "<PARSING_ERROR>"
  const NoneText: string := "None"
  const ListHeader: string := " (list node)"

  /** `indentString`: the indentation unit repeated `level` times. */
  function Indent(level: nat): (r: string)
    ensures |r| == |IndentUnit| * level
  {
    if level == 0 then "" else IndentUnit + Indent(level - 1)
  }

  /** A deeper indentation starts with a shallower one. */
  lemma {:induction false} IndentPrefix(a: nat, b: nat)
    requires a <= b
    ensures Indent(a) <= Indent(b)
    decreases a
  {
    if a > 0 {
      IndentPrefix(a - 1, b - 1);
    }
  }

  /** The size of the nodes a child value holds. */
  function ValueSize(v: ChildValue): nat {
    SeqSize(ValueNodes(v))
  }

  /**
   * `repr` of a child value at the level of the node that holds it: a node is rendered one level
   * deeper, a null slot as `<PARSING_ERROR>`, an empty `Optional` as `None`, a present one as the
   * node it holds, and a scalar by its `toString()`.
   */
  function Repr(v: ChildValue, level: nat): string
    decreases ValueSize(v), 1
  {
    match v
    case NullChild => ParsingError
    case NodeChild(c) =>
      SingleSize(c);
      TreeString(c, level + 1)
    case EmptyChild => NoneText
    case PresentChild(c) =>
      SingleSize(c);
      TreeString(c, level + 1)
    case TextChild(s) => s
    case BoolChild(b) => if b then "true" else "false"
    case IntChild(i) => IntToDecimal(i)
  }

  /** One child on its own line: indentation, the property name, then its rendering. */
  function ChildLine(p: ChildPair, level: nat): string
    decreases PairSize(p), 2
  {
    Indent(level + 1) + p.name + ": " + Repr(p.value, level)
  }

  /** The child lines of a node, separated by line breaks, with none after the last one. */
  function ChildLines(ps: seq<ChildPair>, level: nat): string
    requires ps != []
    decreases PairsValueSize(ps), 3, |ps|
  {
    if |ps| == 1 then ChildLine(ps[0], level)
    else ChildLines(ps[..|ps| - 1], level) + "\n" + ChildLine(ps[|ps| - 1], level)
  }

  /** One list element: indentation, its 0-based index in angle brackets, then its tree. */
  function ElemLine(i: nat, e: Node, level: nat): string
    decreases Size(e), 2
  {
    Indent(level + 1) + "<" + NatToDecimal(i) + ">: " + TreeString(e, level + 1)
  }

  /** The element lines of a list node, separated by line breaks, with none after the last one. */
  function ElemLines(es: seq<Node>, level: nat): string
    requires es != []
    decreases SeqSize(es), 3, |es|
  {
    if |es| == 1 then ElemLine(0, es[0], level)
    else ElemLines(es[..|es| - 1], level) + "\n" + ElemLine(|es| - 1, es[|es| - 1], level)
  }

  /**
   * `treeString(indentLevel)`. A list node: its class name, ` (list node)` and a line break, then
   * its element lines. Any other node: its class name alone when it has no child; followed by
   * `{ name: value }` when its only child is not a node; otherwise followed by a line break and
   * its child lines.
   */
  function TreeString(n: Node, level: nat): string
    decreases Size(n), 0
  {
    if n.ListNode? then
      ClassName(n) + ListHeader + "\n" + (if n.elems == [] then "" else ElemLines(n.elems, level))
    else
      var ps := ChildrenWithName(n);
      PairsSize(n);
      if ps == [] then ClassName(n)
      else if |ps| == 1 && !ps[0].value.NodeChild? then
        ClassName(n) + " { " + ps[0].name + ": " + Repr(ps[0].value, level) + " }"
      else
        ClassName(n) + "\n" + ChildLines(ps, level)
  }

  // ----- The tree as lines -----

  /** `ls` with `pre` in front of its first line and `suf` after its last one. */
  function Inline(pre: string, ls: seq<string>, suf: string): (r: seq<string>)
    requires |ls| >= 1
    ensures |r| == |ls|
    ensures |ls| == 1 ==> r[0] == pre + ls[0] + suf
    ensures |ls| > 1 ==> r[0] == pre + ls[0] && r[|ls| - 1] == ls[|ls| - 1] + suf
    ensures forall k :: 0 < k < |ls| - 1 ==> r[k] == ls[k]
  {
    if |ls| == 1 then [pre + ls[0] + suf]
    else [pre + ls[0]] + ls[1..|ls| - 1] + [ls[|ls| - 1] + suf]
  }

  /** The lines of a child value's rendering, one line for anything but a node. */
  function ReprLines(v: ChildValue, level: nat): (r: seq<string>)
    ensures |r| >= 1
    decreases ValueSize(v), 1
  {
    match v
    case NodeChild(c) =>
      SingleSize(c);
      TreeLines(c, level + 1)
    case PresentChild(c) =>
      SingleSize(c);
      TreeLines(c, level + 1)
    case _ => [Repr(v, level)]
  }

  function ChildLineList(p: ChildPair, level: nat): (r: seq<string>)
    ensures |r| >= 1
    decreases PairSize(p), 2
  {
    Inline(Indent(level + 1) + p.name + ": ", ReprLines(p.value, level), "")
  }

  function ChildLinesList(ps: seq<ChildPair>, level: nat): (r: seq<string>)
    requires ps != []
    ensures |r| >= 1
    decreases PairsValueSize(ps), 3, |ps|
  {
    if |ps| == 1 then ChildLineList(ps[0], level)
    else ChildLinesList(ps[..|ps| - 1], level) + ChildLineList(ps[|ps| - 1], level)
  }

  function ElemLineList(i: nat, e: Node, level: nat): (r: seq<string>)
    ensures |r| >= 1
    decreases Size(e), 2
  {
    Inline(Indent(level + 1) + "<" + NatToDecimal(i) + ">: ", TreeLines(e, level + 1), "")
  }

  function ElemLinesList(es: seq<Node>, level: nat): (r: seq<string>)
    requires es != []
    ensures |r| >= 1
    decreases SeqSize(es), 3, |es|
  {
    if |es| == 1 then ElemLineList(0, es[0], level)
    else ElemLinesList(es[..|es| - 1], level) + ElemLineList(|es| - 1, es[|es| - 1], level)
  }

  /**
   * The rendering of `n` as a sequence of lines: the header line, then the lines of each child
   * (or element), the first of them prefixed by the indentation and the child's label. A child
   * shown inline continues the header line. An empty list node leaves an empty last line.
   */
  function TreeLines(n: Node, level: nat): (r: seq<string>)
    ensures |r| >= 1
    decreases Size(n), 0
  {
    if n.ListNode? then
      [ClassName(n) + ListHeader] + (if n.elems == [] then [""] else ElemLinesList(n.elems, level))
    else
      var ps := ChildrenWithName(n);
      PairsSize(n);
      if ps == [] then [ClassName(n)]
      else if |ps| == 1 && !ps[0].value.NodeChild? then
        Inline(ClassName(n) + " { " + ps[0].name + ": ", ReprLines(ps[0].value, level), " }")
      else
        [ClassName(n)] + ChildLinesList(ps, level)
  }

  // ----- Joining the lines gives the tree string -----

  lemma {:induction false} JoinLinesAppend(a: seq<string>, b: seq<string>)
    requires |a| >= 1 && |b| >= 1
    ensures JoinLines(a + b) == JoinLines(a) + "\n" + JoinLines(b)
    decreases |a|
  {
    if |a| == 1 {
      assert (a + b)[1..] == b;
    } else {
      assert (a + b)[1..] == a[1..] + b;
      JoinLinesAppend(a[1..], b);
    }
  }

  lemma {:induction false} JoinInline(pre: string, ls: seq<string>, suf: string)
    requires |ls| >= 1
    ensures JoinLines(Inline(pre, ls, suf)) == pre + JoinLines(ls) + suf
  {
    if |ls| > 1 {
      var mid := ls[1..|ls| - 1];
      var last := ls[|ls| - 1];
      var withSuf := mid + [last + suf];
      assert Inline(pre, ls, suf) == [pre + ls[0]] + withSuf;
      assert (Inline(pre, ls, suf))[1..] == withSuf;
      assert ls[1..] == mid + [last];
      JoinAppendLast(mid, last, suf);
    }
  }

  lemma {:induction false} JoinAppendLast(mid: seq<string>, last: string, suf: string)
    ensures JoinLines(mid + [last + suf]) == JoinLines(mid + [last]) + suf
    decreases |mid|
  {
    if mid != [] {
      assert (mid + [last + suf])[1..] == mid[1..] + [last + suf];
      assert (mid + [last])[1..] == mid[1..] + [last];
      JoinAppendLast(mid[1..], last, suf);
    }
  }

  /** Rendering a tree as a string is joining its lines with line breaks. */
  lemma {:induction false} TreeStringJoin(n: Node, level: nat)
    ensures TreeString(n, level) == JoinLines(TreeLines(n, level))
    decreases Size(n), 0
  {
    var head := [ClassName(n)];
    if n.ListNode? {
      var h := [ClassName(n) + ListHeader];
      if n.elems == [] {
        assert (h + [""])[1..] == [""];
      } else {
        ElemLinesJoin(n.elems, level);
        JoinLinesAppend(h, ElemLinesList(n.elems, level));
      }
    } else {
      var ps := ChildrenWithName(n);
      PairsSize(n);
      if ps == [] {
      } else if |ps| == 1 && !ps[0].value.NodeChild? {
        ReprJoin(ps[0].value, level);
        JoinInline(ClassName(n) + " { " + ps[0].name + ": ", ReprLines(ps[0].value, level), " }");
      } else {
        ChildLinesJoin(ps, level);
        JoinLinesAppend(head, ChildLinesList(ps, level));
      }
    }
  }

  lemma {:induction false} ReprJoin(v: ChildValue, level: nat)
    ensures Repr(v, level) == JoinLines(ReprLines(v, level))
    decreases ValueSize(v), 1
  {
    match v
    case NodeChild(c) =>
      SingleSize(c);
      TreeStringJoin(c, level + 1);
    case PresentChild(c) =>
      SingleSize(c);
      TreeStringJoin(c, level + 1);
    case _ =>
  }

  lemma {:induction false} ChildLineJoin(p: ChildPair, level: nat)
    ensures ChildLine(p, level) == JoinLines(ChildLineList(p, level))
    decreases PairSize(p), 2
  {
    ReprJoin(p.value, level);
    JoinInline(Indent(level + 1) + p.name + ": ", ReprLines(p.value, level), "");
  }

  lemma {:induction false} ChildLinesJoin(ps: seq<ChildPair>, level: nat)
    requires ps != []
    ensures ChildLines(ps, level) == JoinLines(ChildLinesList(ps, level))
    decreases PairsValueSize(ps), 3, |ps|
  {
    if |ps| == 1 {
      ChildLineJoin(ps[0], level);
    } else {
      ChildLinesJoin(ps[..|ps| - 1], level);
      ChildLineJoin(ps[|ps| - 1], level);
      JoinLinesAppend(ChildLinesList(ps[..|ps| - 1], level), ChildLineList(ps[|ps| - 1], level));
    }
  }

  lemma {:induction false} ElemLineJoin(i: nat, e: Node, level: nat)
    ensures ElemLine(i, e, level) == JoinLines(ElemLineList(i, e, level))
    decreases Size(e), 2
  {
    TreeStringJoin(e, level + 1);
    JoinInline(Indent(level + 1) + "<" + NatToDecimal(i) + ">: ", TreeLines(e, level + 1), "");
  }

  lemma {:induction false} ElemLinesJoin(es: seq<Node>, level: nat)
    requires es != []
    ensures ElemLines(es, level) == JoinLines(ElemLinesList(es, level))
    decreases SeqSize(es), 3, |es|
  {
    if |es| == 1 {
      ElemLineJoin(0, es[0], level);
    } else {
      ElemLinesJoin(es[..|es| - 1], level);
      ElemLineJoin(|es| - 1, es[|es| - 1], level);
      JoinLinesAppend(ElemLinesList(es[..|es| - 1], level), ElemLineList(|es| - 1, es[|es| - 1], level));
    }
  }

  /**
   * When no rendered text holds a line terminator, splitting the tree string at line
   * terminators gives back exactly the lines of the tree.
   */
  lemma TreeStringLines(n: Node, level: nat)
    requires forall k :: 0 <= k < |TreeLines(n, level)| ==> NoBreaks(TreeLines(n, level)[k])
    ensures Lines(TreeString(n, level)) == TreeLines(n, level)
  {
    TreeStringJoin(n, level);
    LinesOfJoinLines(TreeLines(n, level));
  }

  // ----- Indentation -----

  /** Each line is empty or starts with the indentation `ind`. */
  ghost predicate IndentedLines(ls: seq<string>, ind: string) {
    forall k :: 0 <= k < |ls| ==> ls[k] == "" || ind <= ls[k]
  }

  lemma PrefixTransitive(a: string, b: string, c: string)
    requires a <= b && b <= c
    ensures a <= c
  {
    assert c[..|b|][..|a|] == c[..|a|];
  }

  lemma PrefixOfConcat(a: string, b: string)
    ensures a <= a + b
  {
    assert (a + b)[..|a|] == a;
  }

  /** Lines indented one level deeper are indented at this level too. */
  lemma DeeperIndented(ls: seq<string>, level: nat)
    requires IndentedLines(ls, Indent(level + 2))
    ensures IndentedLines(ls, Indent(level + 1))
  {
    IndentPrefix(level + 1, level + 2);
    forall k | 0 <= k < |ls| && ls[k] != ""
      ensures Indent(level + 1) <= ls[k]
    {
      PrefixTransitive(Indent(level + 1), Indent(level + 2), ls[k]);
    }
  }

  lemma IndentedConcat(a: seq<string>, b: seq<string>, ind: string)
    requires IndentedLines(a, ind) && IndentedLines(b, ind)
    ensures IndentedLines(a + b, ind)
  {
    forall k | 0 <= k < |a + b|
      ensures (a + b)[k] == "" || ind <= (a + b)[k]
    {
      if k >= |a| { assert (a + b)[k] == b[k - |a|]; }
    }
  }

  /** The lines an inline prefix leaves unchanged keep their indentation. */
  lemma InlineIndented(pre: string, ls: seq<string>, ind: string)
    requires |ls| >= 1 && ind <= pre
    requires IndentedLines(ls[1..], ind)
    ensures IndentedLines(Inline(pre, ls, ""), ind)
  {
    var r := Inline(pre, ls, "");
    PrefixOfConcat(pre, ls[0]);
    PrefixTransitive(ind, pre, pre + ls[0]);
    if |ls| == 1 {
      assert r[0] == pre + ls[0];
    }
    forall k | 0 < k < |r|
      ensures r[k] == "" || ind <= r[k]
    {
      assert ls[1..][k - 1] == ls[k];
      if k == |ls| - 1 { assert r[k] == ls[k] + "" == ls[k]; }
    }
  }

  /** A node whose only child is shown inline holds no node in it, so it takes a single line. */
  lemma InlineChildIsScalar(n: Node)
    requires !n.ListNode?
    requires |ChildrenWithName(n)| == 1 && !ChildrenWithName(n)[0].value.NodeChild?
    ensures !ChildrenWithName(n)[0].value.PresentChild?
  {
  }

  /**
   * Below its first line, every line of a tree is indented one level deeper than the tree
   * itself, apart from the empty line an empty list leaves behind.
   */
  lemma {:induction false} TreeLinesIndented(n: Node, level: nat)
    ensures IndentedLines(TreeLines(n, level)[1..], Indent(level + 1))
    decreases Size(n), 0
  {
    var r := TreeLines(n, level);
    if n.ListNode? {
      var h := [ClassName(n) + ListHeader];
      if n.elems != [] {
        ElemLinesIndented(n.elems, level);
        assert r[1..] == ElemLinesList(n.elems, level);
      }
    } else {
      var ps := ChildrenWithName(n);
      PairsSize(n);
      if ps == [] {
      } else if |ps| == 1 && !ps[0].value.NodeChild? {
        InlineChildIsScalar(n);
      } else {
        ChildLinesIndented(ps, level);
        assert r[1..] == ChildLinesList(ps, level);
      }
    }
  }

  lemma {:induction false} ReprLinesIndented(v: ChildValue, level: nat)
    ensures IndentedLines(ReprLines(v, level)[1..], Indent(level + 1))
    decreases ValueSize(v), 1
  {
    if v.NodeChild? || v.PresentChild? {
      var c := v.node;
      SingleSize(c);
      TreeLinesIndented(c, level + 1);
      DeeperIndented(TreeLines(c, level + 1)[1..], level);
    }
  }

  lemma {:induction false} ChildLineIndented(p: ChildPair, level: nat)
    ensures IndentedLines(ChildLineList(p, level), Indent(level + 1))
    decreases PairSize(p), 2
  {
    ReprLinesIndented(p.value, level);
    var pre := Indent(level + 1) + p.name + ": ";
    PrefixOfConcat(Indent(level + 1), p.name + ": ");
    assert pre == Indent(level + 1) + (p.name + ": ");
    InlineIndented(pre, ReprLines(p.value, level), Indent(level + 1));
  }

  lemma {:induction false} ChildLinesIndented(ps: seq<ChildPair>, level: nat)
    requires ps != []
    ensures IndentedLines(ChildLinesList(ps, level), Indent(level + 1))
    decreases PairsValueSize(ps), 3, |ps|
  {
    if |ps| == 1 {
      ChildLineIndented(ps[0], level);
    } else {
      ChildLinesIndented(ps[..|ps| - 1], level);
      ChildLineIndented(ps[|ps| - 1], level);
      IndentedConcat(ChildLinesList(ps[..|ps| - 1], level), ChildLineList(ps[|ps| - 1], level), Indent(level + 1));
    }
  }

  lemma {:induction false} ElemLineIndented(i: nat, e: Node, level: nat)
    ensures IndentedLines(ElemLineList(i, e, level), Indent(level + 1))
    decreases Size(e), 2
  {
    TreeLinesIndented(e, level + 1);
    DeeperIndented(TreeLines(e, level + 1)[1..], level);
    var pre := Indent(level + 1) + "<" + NatToDecimal(i) + ">: ";
    PrefixOfConcat(Indent(level + 1), "<" + NatToDecimal(i) + ">: ");
    assert pre == Indent(level + 1) + ("<" + NatToDecimal(i) + ">: ");
    InlineIndented(pre, TreeLines(e, level + 1), Indent(level + 1));
  }

  lemma {:induction false} ElemLinesIndented(es: seq<Node>, level: nat)
    requires es != []
    ensures IndentedLines(ElemLinesList(es, level), Indent(level + 1))
    decreases SeqSize(es), 3, |es|
  {
    if |es| == 1 {
      ElemLineIndented(0, es[0], level);
    } else {
      ElemLinesIndented(es[..|es| - 1], level);
      ElemLineIndented(|es| - 1, es[|es| - 1], level);
      IndentedConcat(ElemLinesList(es[..|es| - 1], level), ElemLineList(|es| - 1, es[|es| - 1], level), Indent(level + 1));
    }
  }

  // ----- The string builders -----

  lemma AppendAssoc(a: string, b: string, c: string)
    ensures a + b + c == a + (b + c)
  {
  }

  /** A pair holds no more nodes than the sequence of pairs it belongs to. */
  lemma {:induction false} PairSizeElem(ps: seq<ChildPair>, i: nat)
    requires i < |ps|
    ensures PairSize(ps[i]) <= PairsValueSize(ps)
    decreases |ps|
  {
    if i < |ps| - 1 {
      assert ps[..|ps| - 1][i] == ps[i];
      PairSizeElem(ps[..|ps| - 1], i);
    }
  }

  /** Rendering one more child adds its line after a line break. */
  lemma ChildLinesSnoc(ps: seq<ChildPair>, i: nat, level: nat)
    requires i < |ps|
    ensures i == 0 ==> ChildLines(ps[..1], level) == ChildLine(ps[0], level)
    ensures i > 0 ==> ChildLines(ps[..i + 1], level) == ChildLines(ps[..i], level) + "\n" + ChildLine(ps[i], level)
  {
    assert ps[..i + 1][..i] == ps[..i];
  }

  /** Rendering one more element adds its numbered line after a line break. */
  lemma ElemLinesSnoc(es: seq<Node>, i: nat, level: nat)
    requires i < |es|
    ensures i == 0 ==> ElemLines(es[..1], level) == ElemLine(0, es[0], level)
    ensures i > 0 ==> ElemLines(es[..i + 1], level) == ElemLines(es[..i], level) + "\n" + ElemLine(i, es[i], level)
  {
    assert es[..i + 1][..i] == es[..i];
  }

  /**
   * `LimeNode.treeString(indentLevel)`: the class name, then either nothing, the only scalar child
   * inline, or one line per child; a list node is handed to `ListTreeString`.
   */
  method NodeTreeString(n: Node, level: nat) returns (s: string)
    ensures s == TreeString(n, level)
    decreases Size(n), 2
  {
    if n.ListNode? {
      s := ListTreeString(n, level);
      return;
    }
    var ps := ChildrenWithName(n);
    PairsSize(n);
    s := ClassName(n);
    if ps == [] {
      return;
    }
    if |ps| == 1 && !ps[0].value.NodeChild? {
      PairSizeElem(ps, 0);
      var r := ReprString(ps[0].value, level);
      s := s + " { " + ps[0].name + ": " + r + " }";
      return;
    }
    s := AppendChildLines(s + "\n", ps, level);
  }

  /** `repr` inside `treeString`, with the nodes it holds rendered by `NodeTreeString`. */
  method ReprString(v: ChildValue, level: nat) returns (s: string)
    ensures s == Repr(v, level)
    decreases ValueSize(v), 3
  {
    match v
    case NullChild => s := ParsingError;
    case NodeChild(c) =>
      SingleSize(c);
      s := NodeTreeString(c, level + 1);
    case EmptyChild => s := NoneText;
    case PresentChild(c) =>
      SingleSize(c);
      s := NodeTreeString(c, level + 1);
    case TextChild(t) => s := t;
    case BoolChild(b) => s := if b then "true" else "false";
    case IntChild(i) => s := IntToDecimal(i);
  }

  /** The loop of `treeString` over the children: one line per child, separated by line breaks. */
  method AppendChildLines(s0: string, ps: seq<ChildPair>, level: nat) returns (s: string)
    requires ps != []
    ensures s == s0 + ChildLines(ps, level)
    decreases PairsValueSize(ps), 5
  {
    s := s0;
    var i := 0;
    while i < |ps|
      invariant 0 <= i <= |ps|
      invariant i == 0 ==> s == s0
      invariant 0 < i ==> s == s0 + ChildLines(ps[..i], level) + (if i < |ps| then "\n" else "")
    {
      PairSizeElem(ps, i);
      var line := ChildLineString(ps[i], level);
      ghost var done := if i == 0 then "" else ChildLines(ps[..i], level) + "\n";
      assert s == s0 + done;
      s := s + line;
      ChildLinesSnoc(ps, i, level);
      AppendAssoc(s0, done, line);
      if i < |ps| - 1 {
        s := s + "\n";
      }
      i := i + 1;
    }
    assert ps[..i] == ps;
  }

  /** One child's line: indentation, the property name and its `repr`. */
  method ChildLineString(p: ChildPair, level: nat) returns (line: string)
    ensures line == ChildLine(p, level)
    decreases PairSize(p), 4
  {
    var r := ReprString(p.value, level);
    line := Indent(level + 1) + p.name + ": " + r;
  }

  /** One element's line: indentation, its index in angle brackets and its tree one level deeper. */
  method ElemLineString(i: nat, e: Node, level: nat) returns (line: string)
    ensures line == ElemLine(i, e, level)
    decreases Size(e), 3
  {
    var sub := NodeTreeString(e, level + 1);
    line := Indent(level + 1) + "<" + NatToDecimal(i) + ">: " + sub;
  }

  /** `LimeListNode.treeString(indentLevel)`: the header line, then one line per element, numbered from 0. */
  method ListTreeString(n: Node, level: nat) returns (s: string)
    requires n.ListNode?
    ensures s == TreeString(n, level)
    decreases Size(n), 1
  {
    s := ClassName(n) + ListHeader + "\n";
    if n.elems != [] {
      s := AppendElemLines(s, n.elems, level);
    }
  }

  /** The loop of `treeString` over the list elements: one numbered line per element. */
  method AppendElemLines(s0: string, es: seq<Node>, level: nat) returns (s: string)
    requires es != []
    ensures s == s0 + ElemLines(es, level)
    decreases SeqSize(es), 4
  {
    s := s0;
    var i := 0;
    while i < |es|
      invariant 0 <= i <= |es|
      invariant i == 0 ==> s == s0
      invariant 0 < i ==> s == s0 + ElemLines(es[..i], level) + (if i < |es| then "\n" else "")
    {
      SeqSizeElem(es, i);
      var line := ElemLineString(i, es[i], level);
      ghost var done := if i == 0 then "" else ElemLines(es[..i], level) + "\n";
      assert s == s0 + done;
      s := s + line;
      ElemLinesSnoc(es, i, level);
      AppendAssoc(s0, done, line);
      if i < |es| - 1 {
        s := s + "\n";
      }
      i := i + 1;
    }
    assert es[..i] == es;
  }
}
