/**
 * The tree renderer: one line per node in pre-order, each drawn as the
 * accumulated prefix, a branch (`└── ` for a last child, `├── ` otherwise)
 * and the node's label, followed by a newline.
 */
module Visualizer {
  import opened Wrappers
  import opened Types

  /** `getNodeLabel`: the node's kind and its value, name or operator. */
  function Label(n: Node, show: real -> string): (tag: string)
    ensures |tag| > 0
    ensures tag[0] == 'N' <==> n.Number?
    ensures tag[0] == 'V' <==> n.Variable?
    ensures tag[0] == 'U' <==> n.UnaryOp?
    ensures tag[0] == 'B' <==> n.BinaryOp?
  {
    match n
    case Number(v) => "NUMBER: " + show(v)
    case Variable(x) => "VARIABLE: " + x
    case UnaryOp(sign, _) => "UNARY_OP: " + UnSymbol(sign)
    case BinaryOp(op, _, _) => "BINARY_OP: " + BinSymbol(op)
  }

  /**
   * Equal labels belong to nodes of the same kind, and a variable's label
   * gives back its name, an operator's label its sign or operator.
   */
  lemma LabelIdentifiesNode(n1: Node, n2: Node, show: real -> string)
    requires Label(n1, show) == Label(n2, show)
    ensures n1.Number? == n2.Number? && n1.Variable? == n2.Variable?
    ensures n1.UnaryOp? == n2.UnaryOp? && n1.BinaryOp? == n2.BinaryOp?
    ensures n1.Variable? ==> n1 == n2
    ensures n1.UnaryOp? ==> n1.sign == n2.sign
    ensures n1.BinaryOp? ==> n1.op == n2.op
  {
    var tag := Label(n1, show);
    if n1.Variable? {
      assert tag[10..] == n1.name == n2.name;
    } else if n1.UnaryOp? {
      assert tag[10] == UnSymbol(n1.sign)[0] == UnSymbol(n2.sign)[0];
    } else if n1.BinaryOp? {
      assert tag[11] == BinSymbol(n1.op)[0] == BinSymbol(n2.op)[0];
    }
  }

  /** `getChildren`: the operand of a unary node, left then right of a binary one. */
  function Children(n: Node): (cs: seq<Node>)
    ensures forall k :: 0 <= k < |cs| ==> cs[k] < n
    ensures Size(n) == 1 + SizeOfAll(cs)
  {
    match n
    case Number(_) => []
    case Variable(_) => []
    case UnaryOp(_, e) =>
      assert [e][..0] == [];
      [e]
    case BinaryOp(_, l, r) =>
      assert [l, r][..1] == [l] && [l][..0] == [];
      assert SizeOfAll([l]) == Size(l);
      [l, r]
  }

  /** The number of nodes in a list of trees. */
  function SizeOfAll(ns: seq<Node>): nat {
    if ns == [] then 0 else SizeOfAll(ns[..|ns| - 1]) + Size(ns[|ns| - 1])
  }

  function Branch(isLast: bool): string {
    if isLast then "└── " else "├── "
  }

  /** The prefix a node hands to its children. */
  function Indent(prefix: string, isLast: bool): string {
    prefix + (if isLast then "    " else "│   ")
  }

  /** A node's own line: the prefix, the branch and the label. */
  function Head(n: Node, isLast: bool, prefix: string, show: real -> string): string {
    prefix + Branch(isLast) + Label(n, show)
  }

  /** The lines drawn for a subtree, without their newlines. */
  function Lines(n: Node, isLast: bool, prefix: string, show: real -> string): seq<string>
    decreases n
  {
    var head := Head(n, isLast, prefix, show);
    match n
    case Number(_) => [head]
    case Variable(_) => [head]
    case UnaryOp(_, e) => [head] + Lines(e, true, Indent(prefix, isLast), show)
    case BinaryOp(_, l, r) =>
      [head] + Lines(l, false, Indent(prefix, isLast), show) + Lines(r, true, Indent(prefix, isLast), show)
  }

  /** Each line followed by a newline. */
  function Unlines(ls: seq<string>): string {
    if ls == [] then "" else Unlines(ls[..|ls| - 1]) + ls[|ls| - 1] + "\n"
  }

  lemma {:induction false} UnlinesConcat(a: seq<string>, b: seq<string>)
    ensures Unlines(a + b) == Unlines(a) + Unlines(b)
    decreases |b|
  {
    if b == [] {
      assert a + b == a;
    } else {
      assert (a + b)[..|a + b| - 1] == a + b[..|b| - 1];
      UnlinesConcat(a, b[..|b| - 1]);
    }
  }

  /** The text the first `i` children draw, each told whether it is the last one. */
  function ChildrenText(cs: seq<Node>, i: nat, prefix: string, show: real -> string): string
    requires i <= |cs|
  {
    if i == 0 then ""
    else ChildrenText(cs, i - 1, prefix, show) + Unlines(Lines(cs[i - 1], i - 1 == |cs| - 1, prefix, show))
  }

  lemma UnlinesOne(line: string)
    ensures Unlines([line]) == line + "\n"
  {
    assert [line][..0] == [];
  }

  /** A node's lines are its own line followed by the lines of its children in order. */
  lemma SplitLines(n: Node, isLast: bool, prefix: string, show: real -> string)
    ensures Unlines(Lines(n, isLast, prefix, show))
         == Head(n, isLast, prefix, show) + "\n" + ChildrenText(Children(n), |Children(n)|, Indent(prefix, isLast), show)
  {
    var h := Head(n, isLast, prefix, show);
    var next := Indent(prefix, isLast);
    UnlinesOne(h);
    match n
    case Number(_) =>
      NoText(h + "\n");
    case Variable(_) =>
      NoText(h + "\n");
    case UnaryOp(_, e) =>
      var le := Lines(e, true, next, show);
      UnlinesConcat([h], le);
      assert ChildrenText([e], 1, next, show) == "" + Unlines(le);
      NoText(Unlines(le));
    case BinaryOp(_, l, r) =>
      var ll, lr := Lines(l, false, next, show), Lines(r, true, next, show);
      UnlinesConcat([h] + ll, lr);
      UnlinesConcat([h], ll);
      assert ChildrenText([l, r], 1, next, show) == "" + Unlines(ll);
      NoText(Unlines(ll));
      assert ChildrenText([l, r], 2, next, show) == Unlines(ll) + Unlines(lr);
      Regroup(h + "\n", Unlines(ll), Unlines(lr));
  }

  /**
   * `visualizeAST`: draws the node's own line, then each child's subtree
   * with the extended prefix, the last child marked as such. `depth` is
   * passed down but never read.
   */
  method VisualizeAST(n: Node, depth: int, isLast: bool, prefix: string, show: real -> string)
    returns (result: string)
    decreases n
    ensures result == Unlines(Lines(n, isLast, prefix, show))
  {
    var indent := prefix + Branch(isLast);
    var nextPrefix := Indent(prefix, isLast);
    result := indent + Label(n, show) + "\n";
    var children := Children(n);
    NoText(result);
    for i := 0 to |children|
      invariant result == Head(n, isLast, prefix, show) + "\n" + ChildrenText(children, i, nextPrefix, show)
    {
      var child := children[i];
      var isLastChild := i == |children| - 1;
      var sub := VisualizeAST(child, depth + 1, isLastChild, nextPrefix, show);
      Regroup(Head(n, isLast, prefix, show) + "\n", ChildrenText(children, i, nextPrefix, show), sub);
      result := result + sub;
    }
    SplitLines(n, isLast, prefix, show);
  }

  /** The nodes of a tree in pre-order: a node, then its children's subtrees in order. */
  function PreOrder(n: Node): seq<Node> {
    match n
    case Number(_) => [n]
    case Variable(_) => [n]
    case UnaryOp(_, e) => [n] + PreOrder(e)
    case BinaryOp(_, l, r) => [n] + PreOrder(l) + PreOrder(r)
  }

  /** `line` starts with `prefix` and ends with `caption`, the two not overlapping. */
  predicate Frames(line: string, prefix: string, caption: string) {
    |prefix| + |caption| <= |line| && line[..|prefix|] == prefix && line[|line| - |caption|..] == caption
  }

  /** One line per node. */
  lemma {:induction false} LineCount(n: Node, isLast: bool, prefix: string, show: real -> string)
    ensures |Lines(n, isLast, prefix, show)| == |PreOrder(n)| == Size(n)
    decreases n
  {
    var next := Indent(prefix, isLast);
    match n
    case Number(_) =>
    case Variable(_) =>
    case UnaryOp(_, e) =>
      LineCount(e, true, next, show);
    case BinaryOp(_, l, r) =>
      LineCount(l, false, next, show);
      LineCount(r, true, next, show);
  }

  /**
   * The children's lines, framed by the extended prefix, are framed by the
   * node's own prefix once they follow the node's line.
   */
  lemma ChildLinesFramed(head: string, ll: seq<string>, lr: seq<string>, n: Node, pl: seq<Node>, pr: seq<Node>,
                         prefix: string, isLast: bool, caption: Node -> string)
    requires |ll| == |pl| && |lr| == |pr|
    requires forall k :: 0 <= k < |pl| ==> Frames(ll[k], Indent(prefix, isLast), caption(pl[k]))
    requires forall k :: 0 <= k < |pr| ==> Frames(lr[k], Indent(prefix, isLast), caption(pr[k]))
    ensures forall k :: 1 <= k < 1 + |pl| + |pr| ==>
              Frames(([head] + ll + lr)[k], prefix, caption(([n] + pl + pr)[k]))
  {
    forall k | 1 <= k < 1 + |pl| + |pr|
      ensures Frames(([head] + ll + lr)[k], prefix, caption(([n] + pl + pr)[k]))
    {
      Pick(head, ll, lr, k);
      Pick(n, pl, pr, k);
      FramesWeaken(([head] + ll + lr)[k], prefix, isLast, caption(([n] + pl + pr)[k]));
    }
  }

  /**
   * One line per node, in pre-order: the k-th line starts with the prefix
   * the subtree was given and ends with the label of the k-th node.
   */
  lemma {:induction false} LinesInPreOrder(n: Node, isLast: bool, prefix: string, show: real -> string)
    ensures |Lines(n, isLast, prefix, show)| == |PreOrder(n)| == Size(n)
    ensures forall k :: 0 <= k < |PreOrder(n)| ==>
              Frames(Lines(n, isLast, prefix, show)[k], prefix, Label(PreOrder(n)[k], show))
    decreases n
  {
    LineCount(n, isLast, prefix, show);
    var head := Head(n, isLast, prefix, show);
    var next := Indent(prefix, isLast);
    assert Frames(head, prefix, Label(n, show));
    match n
    case Number(_) =>
    case Variable(_) =>
    case UnaryOp(_, e) =>
      LinesInPreOrder(e, true, next, show);
      var le, pe := Lines(e, true, next, show), PreOrder(e);
      ChildLinesFramed(head, le, [], n, pe, [], prefix, isLast, m => Label(m, show));
      assert Lines(n, isLast, prefix, show) == [head] + le + [];
      assert PreOrder(n) == [n] + pe + [];
    case BinaryOp(_, l, r) =>
      LinesInPreOrder(l, false, next, show);
      LinesInPreOrder(r, true, next, show);
      ChildLinesFramed(head, Lines(l, false, next, show), Lines(r, true, next, show),
                       n, PreOrder(l), PreOrder(r), prefix, isLast, m => Label(m, show));
  }

  /** Indexing into an element followed by two sequences. */
  lemma Pick<T>(x: T, a: seq<T>, b: seq<T>, k: nat)
    requires k < 1 + |a| + |b|
    ensures ([x] + a + b)[k] == if k == 0 then x else if k <= |a| then a[k - 1] else b[k - 1 - |a|]
  {
  }

  /** A line framed by an extended prefix is framed by the original prefix too. */
  lemma FramesWeaken(line: string, prefix: string, isLast: bool, caption: string)
    requires Frames(line, Indent(prefix, isLast), caption)
    ensures Frames(line, prefix, caption)
  {
    var p := Indent(prefix, isLast);
    assert line[..|prefix|] == line[..|p|][..|prefix|];
  }

  /**
   * The default call draws the root as a last child with an empty prefix:
   * its line is `└── ` and the root's label.
   */
  lemma RootLine(n: Node, show: real -> string)
    ensures Lines(n, true, "", show)[0] == "└── " + Label(n, show)
  {
  }
}
