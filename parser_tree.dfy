/**
 * The tree `parse` evidently means to build, next to what it builds as written.
 *
 * As written, the stack holds separate copies of the nodes placed in the result, so a child
 * is only ever added to a copy; and the stack is popped to `indent / 2 + 1` entries, one more
 * than the open ancestors of a line at that indent, so a line at indent 0 stays under the
 * node opened before it. Module ParserProperties proves what follows: the result is the
 * content lines up to and including the first that takes children, all childless.
 *
 * The corrected builder keeps the open nodes on a stack of values and attaches each node to
 * its parent when it is closed, which builds the same tree as attaching it in place; a line
 * with indent `d` keeps `d / 2` open ancestors. Its result holds every content line exactly
 * once, in order, and fails exactly as `parse` does.
 */
module ParserTree {
  import opened Wrappers
  import opened Strings
  import opened Ast
  import opened Parser
  import opened ParserProperties

  // ------------------------------------------------------------------ flattening a tree

  /** The node without its children. */
  function Strip(n: Node): Node
  {
    match n
    case Element(tag, props, _) => Element(tag, props, [])
    case Component(name, props, _) => Component(name, props, [])
    case _ => n
  }

  /** Every node of the tree rooted at `n`, children removed, in document order. */
  function Flatten(n: Node): seq<Node>
    decreases n, 1
  {
    if n.Element? || n.Component? then [Strip(n)] + FlattenChildren(n, |n.children|) else [n]
  }

  /** The flattening of the first `k` children of `n`, one after the other. */
  function FlattenChildren(n: Node, k: nat): seq<Node>
    requires (n.Element? || n.Component?) && k <= |n.children|
    decreases n, 0, k
  {
    if k == 0 then [] else FlattenChildren(n, k - 1) + Flatten(n.children[k - 1])
  }

  /** The flattening of a list of trees, one after the other. */
  function FlattenAll(ns: seq<Node>): seq<Node>
  {
    if ns == [] then [] else FlattenAll(ns[..|ns| - 1]) + Flatten(ns[|ns| - 1])
  }

  lemma FlattenAllAppend(ns: seq<Node>, x: Node)
    ensures FlattenAll(ns + [x]) == FlattenAll(ns) + Flatten(x)
  {
    assert (ns + [x])[..|ns|] == ns;
  }

  /** A node without children flattens to itself. */
  lemma FlattenChildless(n: Node)
    requires ChildrenOf(n) == []
    ensures Flatten(n) == [n]
  {
  }

  /** A list of nodes without children flattens to itself. */
  lemma {:induction false} FlattenAllChildless(ns: seq<Node>)
    requires forall j :: 0 <= j < |ns| ==> ChildrenOf(ns[j]) == []
    ensures FlattenAll(ns) == ns
  {
    if ns != [] {
      FlattenAllChildless(ns[..|ns| - 1]);
      FlattenChildless(ns[|ns| - 1]);
    }
  }

  /** Two nodes whose first `k` children agree flatten those children alike. */
  lemma {:induction false} FlattenChildrenPrefix(p: Node, q: Node, k: nat)
    requires (p.Element? || p.Component?) && (q.Element? || q.Component?)
    requires k <= |p.children| && k <= |q.children| && p.children[..k] == q.children[..k]
    ensures FlattenChildren(p, k) == FlattenChildren(q, k)
  {
    if k > 0 {
      assert p.children[..k - 1] == p.children[..k][..k - 1];
      assert q.children[..k - 1] == q.children[..k][..k - 1];
      assert p.children[k - 1] == p.children[..k][k - 1];
      assert q.children[k - 1] == q.children[..k][k - 1];
      FlattenChildrenPrefix(p, q, k - 1);
    }
  }

  /** A child added last comes, with its own subtree, after everything already in the tree. */
  lemma FlattenAppendChild(p: Node, c: Node)
    requires p.Element? || p.Component?
    ensures Flatten(AppendChild(p, c)) == Flatten(p) + Flatten(c)
  {
    var q := AppendChild(p, c);
    var k := |p.children|;
    assert q.children == p.children + [c];
    assert q.children[..k] == p.children[..k];
    FlattenChildrenPrefix(p, q, k);
    assert FlattenChildren(q, k + 1) == FlattenChildren(q, k) + Flatten(c);
  }

  // ------------------------------------------------------------------ the corrected builder

  /** Every node on the stack can take children. */
  predicate Open(stack: seq<Node>) {
    forall j :: 0 <= j < |stack| ==> stack[j].Element? || stack[j].Component?
  }

  /** The finished top-level nodes and the stack of nodes still open, innermost last. */
  datatype TreeState = TreeState(nodes: seq<Node>, stack: seq<Node>)

  /** Everything the state holds, in document order. */
  function Total(st: TreeState): seq<Node>
  {
    FlattenAll(st.nodes) + FlattenAll(st.stack)
  }

  /** A finished node becomes the last child of the innermost open node, or a top-level node. */
  function Place(st: TreeState, node: Node): TreeState
  {
    if st.stack == [] then TreeState(st.nodes + [node], [])
    else TreeState(st.nodes, st.stack[..|st.stack| - 1] + [AppendChild(st.stack[|st.stack| - 1], node)])
  }

  /** Close open nodes, innermost first, until at most `bound` remain open. */
  function CloseTo(st: TreeState, bound: nat): (r: TreeState)
    ensures |r.stack| == if |st.stack| > bound then bound else |st.stack|
    decreases |st.stack|
  {
    if |st.stack| <= bound then st
    else CloseTo(Place(TreeState(st.nodes, st.stack[..|st.stack| - 1]), st.stack[|st.stack| - 1]), bound)
  }

  /**
   * One line: a failure of `parse_line` stops the build; otherwise the nodes deeper than the
   * line's depth are closed and the line's node is opened, when it takes children, or placed.
   */
  function TreeStep(st: TreeState, o: LineOutcome): Result<TreeState>
  {
    match o
    case Skip => Ok(st)
    case Parsed(indent, parsed) =>
      if parsed.Err? then Err(parsed.message)
      else if parsed.Panic? then Panic(parsed.at)
      else
        var closed := CloseTo(st, indent / 2);
        Ok(if HasChildren(parsed.value) then closed.(stack := closed.stack + [parsed.value])
           else Place(closed, parsed.value))
  }

  /** The tree built from the lines from `i` on; at the end every open node is closed. */
  function TreeFrom(outcomes: seq<LineOutcome>, i: nat, st: TreeState): Result<seq<Node>>
    requires i <= |outcomes|
    decreases |outcomes| - i
  {
    if i == |outcomes| then Ok(CloseTo(st, 0).nodes)
    else
      var r := TreeStep(st, outcomes[i]);
      if r.Ok? then TreeFrom(outcomes, i + 1, r.value)
      else if r.Err? then Err(r.message) else Panic(r.at)
  }

  /** The corrected `parse`. */
  function ParseTreeSpec(input: string): (r: Result<seq<Node>>)
    ensures r.Ok? <==> ContentNodes(Outcomes(Lines(input)), 0).Ok?
    ensures !r.Ok? ==> r == ContentNodes(Outcomes(Lines(input)), 0)
  {
    OutcomesChildless(Lines(input));
    TreeFromLines(Outcomes(Lines(input)), 0, TreeState([], []));
    TreeFrom(Outcomes(Lines(input)), 0, TreeState([], []))
  }

  // ------------------------------------------------------------------ what it promises

  /** Appending to the innermost open node adds the new child's tree after the whole stack. */
  lemma StackAppendChild(init: seq<Node>, top: Node, node: Node)
    requires top.Element? || top.Component?
    ensures FlattenAll(init + [AppendChild(top, node)]) == FlattenAll(init + [top]) + Flatten(node)
  {
    FlattenAllAppend(init, top);
    FlattenAllAppend(init, AppendChild(top, node));
    FlattenAppendChild(top, node);
    NodesAssoc(FlattenAll(init), Flatten(top), Flatten(node));
  }

  lemma NodesAssoc(a: seq<Node>, b: seq<Node>, c: seq<Node>)
    ensures a + (b + c) == (a + b) + c
  {
  }

  /** Placing a node keeps the stack open and adds the node's tree after everything else. */
  lemma PlaceTotal(st: TreeState, node: Node)
    requires Open(st.stack)
    ensures Open(Place(st, node).stack)
    ensures Total(Place(st, node)) == Total(st) + Flatten(node)
  {
    if st.stack == [] {
      assert Place(st, node) == TreeState(st.nodes + [node], []);
      FlattenAllAppend(st.nodes, node);
    } else {
      var init, top := st.stack[..|st.stack| - 1], st.stack[|st.stack| - 1];
      assert st.stack == init + [top];
      var top' := AppendChild(top, node);
      assert Place(st, node) == TreeState(st.nodes, init + [top']);
      assert top'.Element? || top'.Component?;
      StackAppendChild(init, top, node);
      NodesAssoc(FlattenAll(st.nodes), FlattenAll(st.stack), Flatten(node));
    }
  }

  /** Closing nodes moves them into their parents without losing or reordering anything. */
  lemma {:induction false} CloseToTotal(st: TreeState, bound: nat)
    requires Open(st.stack)
    ensures Open(CloseTo(st, bound).stack)
    ensures Total(CloseTo(st, bound)) == Total(st)
    decreases |st.stack|
  {
    if |st.stack| > bound {
      var rest, top := TreeState(st.nodes, st.stack[..|st.stack| - 1]), st.stack[|st.stack| - 1];
      PopTotal(st);
      PlaceTotal(rest, top);
      CloseToTotal(Place(rest, top), bound);
    }
  }

  /** Taking the innermost open node off the stack splits the state's contents after the rest. */
  lemma PopTotal(st: TreeState)
    requires Open(st.stack) && |st.stack| > 0
    ensures Open(st.stack[..|st.stack| - 1])
    ensures Total(st) == Total(TreeState(st.nodes, st.stack[..|st.stack| - 1])) + Flatten(st.stack[|st.stack| - 1])
  {
    var init, top := st.stack[..|st.stack| - 1], st.stack[|st.stack| - 1];
    assert st.stack == init + [top];
    FlattenAllAppend(init, top);
    NodesAssoc(FlattenAll(st.nodes), FlattenAll(init), Flatten(top));
  }

  /** Opening a node that takes children adds it after everything else. */
  lemma OpenTotal(st: TreeState, node: Node)
    requires Open(st.stack) && HasChildren(node)
    ensures Open(st.stack + [node])
    ensures Total(st.(stack := st.stack + [node])) == Total(st) + Flatten(node)
  {
    FlattenAllAppend(st.stack, node);
    NodesAssoc(FlattenAll(st.nodes), FlattenAll(st.stack), Flatten(node));
  }

  /**
   * The build from line `i` on fails exactly as the content lines do, with the same failure;
   * otherwise it holds what the state held followed by every content line, in order.
   */
  lemma {:induction false} TreeFromLines(outcomes: seq<LineOutcome>, i: nat, st: TreeState)
    requires i <= |outcomes| && ChildlessOutcomes(outcomes) && Open(st.stack)
    ensures TreeFrom(outcomes, i, st).Ok? <==> ContentNodes(outcomes, i).Ok?
    ensures !ContentNodes(outcomes, i).Ok? ==> TreeFrom(outcomes, i, st) == ContentNodes(outcomes, i)
    ensures TreeFrom(outcomes, i, st).Ok? ==>
              FlattenAll(TreeFrom(outcomes, i, st).value) == Total(st) + ContentNodes(outcomes, i).value
    decreases |outcomes| - i
  {
    if i == |outcomes| {
      CloseToTotal(st, 0);
      assert CloseTo(st, 0).stack == [];
    } else if outcomes[i].Skip? {
      TreeFromLines(outcomes, i + 1, st);
    } else if outcomes[i].parsed.Ok? {
      var node := outcomes[i].parsed.value;
      StepTotal(st, outcomes[i]);
      var next := TreeStep(st, outcomes[i]).value;
      TreeFromLines(outcomes, i + 1, next);
      var rest := ContentNodes(outcomes, i + 1);
      if rest.Ok? {
        NodesAssoc(Total(st), [node], rest.value);
      }
    }
  }

  /** One content line adds its node after everything the state holds. */
  lemma StepTotal(st: TreeState, o: LineOutcome)
    requires Open(st.stack) && o.Parsed? && o.parsed.Ok? && ChildrenOf(o.parsed.value) == []
    ensures TreeStep(st, o).Ok?
    ensures Open(TreeStep(st, o).value.stack)
    ensures Total(TreeStep(st, o).value) == Total(st) + [o.parsed.value]
  {
    var node := o.parsed.value;
    var closed := CloseTo(st, o.indent / 2);
    CloseToTotal(st, o.indent / 2);
    FlattenChildless(node);
    if HasChildren(node) {
      OpenTotal(closed, node);
    } else {
      PlaceTotal(closed, node);
    }
  }

  /**
   * The corrected `parse` fails exactly when a content line fails, with that line's
   * failure, and otherwise its tree holds every content line exactly once, in input order.
   */
  lemma ParseTreeLines(input: string)
    ensures ParseTreeSpec(input).Ok? <==> ContentNodes(Outcomes(Lines(input)), 0).Ok?
    ensures !ParseTreeSpec(input).Ok? ==> ParseTreeSpec(input) == ContentNodes(Outcomes(Lines(input)), 0)
    ensures ParseTreeSpec(input).Ok? ==>
              FlattenAll(ParseTreeSpec(input).value) == ContentNodes(Outcomes(Lines(input)), 0).value
  {
    OutcomesChildless(Lines(input));
    TreeFromLines(Outcomes(Lines(input)), 0, TreeState([], []));
  }

  /** The corrected `parse` fails on the same inputs as `parse` as written, in the same way. */
  lemma SameFailures(input: string)
    ensures ParseTreeSpec(input).Ok? <==> ParseSpec(input).Ok?
    ensures !ParseSpec(input).Ok? ==> ParseTreeSpec(input) == ParseSpec(input)
  {
    ParseResult(input);
    ParseTreeLines(input);
  }

  /**
   * A line indented by less than two closes every open node and becomes a top-level node:
   * opened, when it takes children, or placed last among the finished nodes.
   */
  lemma TopLevelLine(st: TreeState, indent: nat, node: Node)
    requires indent < 2
    ensures TreeStep(st, Parsed(indent, Ok(node)))
            == Ok(if HasChildren(node) then TreeState(CloseTo(st, 0).nodes, [node])
                  else TreeState(CloseTo(st, 0).nodes + [node], []))
  {
    assert indent / 2 == 0;
    var closed := CloseTo(st, 0);
    assert closed.stack == [];
    if HasChildren(node) {
      assert closed.(stack := closed.stack + [node]) == TreeState(closed.nodes, [node]);
    } else {
      assert Place(closed, node) == TreeState(closed.nodes + [node], []);
    }
  }

  /**
   * As written, `parse` loses content lines whenever a line that takes children is followed
   * by any other content line, while the corrected tree keeps them all.
   */
  lemma AsWrittenLosesLines(input: string)
    requires ContentNodes(Outcomes(Lines(input)), 0).Ok?
    requires var ns := ContentNodes(Outcomes(Lines(input)), 0).value;
             exists j :: 0 <= j < |ns| - 1 && HasChildren(ns[j])
    ensures ParseSpec(input).Ok? && ParseTreeSpec(input).Ok?
    ensures |FlattenAll(ParseSpec(input).value)| < |FlattenAll(ParseTreeSpec(input).value)|
  {
    var ns := ContentNodes(Outcomes(Lines(input)), 0).value;
    ParseResult(input);
    ParseTreeLines(input);
    ParseShape(input);
    var kept := UpToFirstParent(ns);
    assert ParseSpec(input).value == kept;
    FlattenAllChildless(kept);
    var j :| 0 <= j < |ns| - 1 && HasChildren(ns[j]);
    UpToFirstParentEnds(ns, j);
  }

  /** The kept prefix ends at or before any node that takes children. */
  lemma {:induction false} UpToFirstParentEnds(ns: seq<Node>, j: nat)
    requires j < |ns| && HasChildren(ns[j])
    ensures |UpToFirstParent(ns)| <= j + 1
  {
    if !HasChildren(ns[0]) {
      assert j > 0;
      UpToFirstParentEnds(ns[1..], j - 1);
    }
  }

  // ------------------------------------------------------------------ where each line goes

  /** `q` is `p`, possibly with more children after the ones `p` has. */
  predicate Extends(p: Node, q: Node) {
    Strip(q) == Strip(p) && ChildrenOf(p) <= ChildrenOf(q)
  }

  lemma ExtendsAppendChild(p: Node, c: Node)
    ensures Extends(p, AppendChild(p, c))
  {
  }

  lemma ExtendsTrans(p: Node, q: Node, r: Node)
    requires Extends(p, q) && Extends(q, r)
    ensures Extends(p, r)
  {
  }

  /** Placing a node into a stack of at least `bound` entries leaves the entries below `bound - 1` alone. */
  lemma PlaceBelow(st: TreeState, node: Node, bound: nat)
    requires 1 <= bound <= |st.stack|
    ensures Place(st, node).nodes == st.nodes && |Place(st, node).stack| == |st.stack|
    ensures Place(st, node).stack[..bound - 1] == st.stack[..bound - 1]
    ensures Extends(st.stack[bound - 1], Place(st, node).stack[bound - 1])
  {
    var m := |st.stack|;
    var stack := st.stack[..m - 1] + [AppendChild(st.stack[m - 1], node)];
    assert Place(st, node).stack == stack;
    assert stack[..bound - 1] == st.stack[..bound - 1];
    if bound == m {
      ExtendsAppendChild(st.stack[m - 1], node);
    } else {
      assert stack[bound - 1] == st.stack[bound - 1];
    }
  }

  /**
   * Closing nodes down to `bound >= 1` open ones keeps the finished nodes and the open nodes
   * below position `bound - 1`; the node at `bound - 1` only gains children.
   */
  lemma {:induction false} CloseToKeeps(st: TreeState, bound: nat)
    requires 1 <= bound <= |st.stack|
    ensures CloseTo(st, bound).nodes == st.nodes
    ensures CloseTo(st, bound).stack[..bound - 1] == st.stack[..bound - 1]
    ensures Extends(st.stack[bound - 1], CloseTo(st, bound).stack[bound - 1])
    decreases |st.stack|
  {
    if |st.stack| > bound {
      var next := CloseOne(st);
      CloseOneBelow(st, bound);
      CloseToKeeps(next, bound);
      ExtendsTrans(st.stack[bound - 1], next.stack[bound - 1], CloseTo(next, bound).stack[bound - 1]);
    }
  }

  /** The state after closing the innermost open node into the one below it. */
  function CloseOne(st: TreeState): TreeState
    requires st.stack != []
  {
    Place(TreeState(st.nodes, st.stack[..|st.stack| - 1]), st.stack[|st.stack| - 1])
  }

  lemma CloseOneBelow(st: TreeState, bound: nat)
    requires 1 <= bound < |st.stack|
    ensures CloseTo(st, bound) == CloseTo(CloseOne(st), bound)
    ensures CloseOne(st).nodes == st.nodes && |CloseOne(st).stack| == |st.stack| - 1
    ensures CloseOne(st).stack[..bound - 1] == st.stack[..bound - 1]
    ensures Extends(st.stack[bound - 1], CloseOne(st).stack[bound - 1])
  {
    var rest := TreeState(st.nodes, st.stack[..|st.stack| - 1]);
    PlaceBelow(rest, st.stack[|st.stack| - 1], bound);
    assert rest.stack[..bound - 1] == st.stack[..bound - 1];
    assert rest.stack[bound - 1] == st.stack[bound - 1];
  }

  /**
   * A line at indent `d` with `1 <= d / 2` open nodes available goes under the open node at
   * position `d / 2 - 1`, after the deeper ones are closed into it: a node without children
   * becomes that node's last child, a node that takes children is opened right above it, and
   * the finished nodes and the open nodes below it stay as they were.
   */
  lemma TreeStepPlacement(st: TreeState, indent: nat, node: Node)
    requires 1 <= indent / 2 <= |st.stack|
    ensures TreeStep(st, Parsed(indent, Ok(node))).Ok?
    ensures var d, r := indent / 2, TreeStep(st, Parsed(indent, Ok(node))).value;
            var closed := CloseTo(st, d);
            && r.nodes == st.nodes
            && r.stack[..d - 1] == st.stack[..d - 1]
            && Extends(st.stack[d - 1], closed.stack[d - 1])
            && (HasChildren(node) ==> r.stack == closed.stack + [node])
            && (!HasChildren(node) ==> |r.stack| == d && r.stack[d - 1] == AppendChild(closed.stack[d - 1], node))
  {
    var d := indent / 2;
    var closed := CloseTo(st, d);
    CloseToKeeps(st, d);
    if HasChildren(node) {
      assert (closed.stack + [node])[..d - 1] == closed.stack[..d - 1];
    } else {
      var placed := Place(closed, node);
      assert placed.stack == closed.stack[..d - 1] + [AppendChild(closed.stack[d - 1], node)];
      assert placed.stack[..d - 1] == closed.stack[..d - 1];
    }
  }

  // ------------------------------------------------------------------ self-closing elements

  /** No self-closing element (`input`, `img`, `br`, `hr`, `meta`, `link`) in the tree has children. */
  predicate VoidChildless(n: Node)
    decreases n
  {
    (n.Element? && IsSelfClosing(n.tag) ==> n.children == [])
    && (n.Element? || n.Component? ==> forall c :: c in n.children ==> VoidChildless(c))
  }

  /** Every finished and open node is such a tree, and every open node takes children. */
  predicate VoidSafe(st: TreeState) {
    (forall j :: 0 <= j < |st.nodes| ==> VoidChildless(st.nodes[j]))
    && (forall j :: 0 <= j < |st.stack| ==> VoidChildless(st.stack[j]) && HasChildren(st.stack[j]))
  }

  lemma AppendChildVoid(p: Node, c: Node)
    requires HasChildren(p) && VoidChildless(p) && VoidChildless(c)
    ensures HasChildren(AppendChild(p, c)) && VoidChildless(AppendChild(p, c))
  {
    assert forall x :: x in ChildrenOf(AppendChild(p, c)) ==> x in p.children || x == c;
  }

  lemma PlaceVoid(st: TreeState, node: Node)
    requires VoidSafe(st) && VoidChildless(node)
    ensures VoidSafe(Place(st, node))
  {
    if st.stack != [] {
      var m := |st.stack|;
      AppendChildVoid(st.stack[m - 1], node);
      var stack := st.stack[..m - 1] + [AppendChild(st.stack[m - 1], node)];
      assert forall j :: 0 <= j < m - 1 ==> stack[j] == st.stack[j];
    }
  }

  lemma {:induction false} CloseToVoid(st: TreeState, bound: nat)
    requires VoidSafe(st)
    ensures VoidSafe(CloseTo(st, bound))
    decreases |st.stack|
  {
    if |st.stack| > bound {
      var rest := TreeState(st.nodes, st.stack[..|st.stack| - 1]);
      assert VoidSafe(rest);
      PlaceVoid(rest, st.stack[|st.stack| - 1]);
      CloseToVoid(Place(rest, st.stack[|st.stack| - 1]), bound);
    }
  }

  lemma TreeStepVoid(st: TreeState, indent: nat, node: Node)
    requires VoidSafe(st) && ChildrenOf(node) == []
    ensures VoidSafe(TreeStep(st, Parsed(indent, Ok(node))).value)
  {
    var closed := CloseTo(st, indent / 2);
    CloseToVoid(st, indent / 2);
    assert VoidChildless(node);
    if !HasChildren(node) {
      PlaceVoid(closed, node);
    }
  }

  lemma {:induction false} TreeFromVoid(outcomes: seq<LineOutcome>, i: nat, st: TreeState)
    requires i <= |outcomes| && ChildlessOutcomes(outcomes) && VoidSafe(st)
    ensures TreeFrom(outcomes, i, st).Ok? ==>
      forall j :: 0 <= j < |TreeFrom(outcomes, i, st).value| ==> VoidChildless(TreeFrom(outcomes, i, st).value[j])
    decreases |outcomes| - i
  {
    if i == |outcomes| {
      CloseToVoid(st, 0);
    } else if outcomes[i].Parsed? && outcomes[i].parsed.Ok? {
      TreeStepVoid(st, outcomes[i].indent, outcomes[i].parsed.value);
      TreeFromVoid(outcomes, i + 1, TreeStep(st, outcomes[i]).value);
    } else if outcomes[i].Skip? {
      TreeFromVoid(outcomes, i + 1, st);
    }
  }

  /** In the corrected tree no line is ever placed under a self-closing element. */
  lemma ParseTreeVoidChildless(input: string)
    requires ParseTreeSpec(input).Ok?
    ensures forall j :: 0 <= j < |ParseTreeSpec(input).value| ==> VoidChildless(ParseTreeSpec(input).value[j])
  {
    OutcomesChildless(Lines(input));
    TreeFromVoid(Outcomes(Lines(input)), 0, TreeState([], []));
  }

  // ------------------------------------------------------------------ two small inputs

  /** The lines `<div>` and `  hello`, as written: the result is the `div` without children. */
  lemma IndentedChildAsWritten()
    ensures ParseFrom([Parsed(0, Ok(Element("div", [], []))), Parsed(2, Ok(Text("hello")))], 0, ParseState([], []))
            == Ok([Element("div", [], [])])
  {
    var d, h := Element("div", [], []), Text("hello");
    var os := [Parsed(0, Ok(d)), Parsed(2, Ok(h))];
    var tree := Element("div", [], [h]);
    assert AppendChild(d, h) == tree && !HasChildren(h) && HasChildren(d);
    assert PopTo([], 1) == [] && PopTo([d], 2) == [d];
    assert Attach(ParseState([], []), d) == ParseState([d], [d]);
    assert Attach(ParseState([d], [d]), h) == ParseState([d], [tree]);
    assert ParseStep(ParseState([], []), os[0]) == Ok(ParseState([d], [d]));
    assert ParseStep(ParseState([d], [d]), os[1]) == Ok(ParseState([d], [tree]));
    assert ParseFrom(os, 2, ParseState([d], [tree])) == Ok([d]);
  }

  /** The lines `<div>` and `  hello`, corrected: `hello` is the child of the `div`. */
  lemma IndentedChildCorrected()
    ensures TreeFrom([Parsed(0, Ok(Element("div", [], []))), Parsed(2, Ok(Text("hello")))], 0, TreeState([], []))
            == Ok([Element("div", [], [Text("hello")])])
  {
    var d, h := Element("div", [], []), Text("hello");
    var os := [Parsed(0, Ok(d)), Parsed(2, Ok(h))];
    var tree := Element("div", [], [h]);
    assert AppendChild(d, h) == tree && !HasChildren(h) && HasChildren(d);
    assert CloseTo(TreeState([], []), 0) == TreeState([], []);
    assert CloseTo(TreeState([], [d]), 1) == TreeState([], [d]);
    assert Place(TreeState([], [d]), h) == TreeState([], [tree]);
    var empty := CloseTo(TreeState([], []), 0);
    assert empty == TreeState([], []);
    assert empty.(stack := empty.stack + [d]) == TreeState([], [d]);
    assert TreeStep(TreeState([], []), os[0]) == Ok(TreeState([], [d]));
    assert TreeStep(TreeState([], [d]), os[1]) == Ok(TreeState([], [tree]));
    assert Place(TreeState([], []), tree) == TreeState([tree], []);
    assert CloseTo(TreeState([], [tree]), 0) == TreeState([tree], []);
    assert TreeFrom(os, 2, TreeState([], [tree])) == Ok([tree]);
  }

  /**
   * The lines `<div>` and `hello`, both unindented, as written: `hello` is kept under the
   * open `div` and lost from the result.
   */
  lemma UnindentedSiblingAsWritten()
    ensures ParseFrom([Parsed(0, Ok(Element("div", [], []))), Parsed(0, Ok(Text("hello")))], 0, ParseState([], []))
            == Ok([Element("div", [], [])])
  {
    var d, h := Element("div", [], []), Text("hello");
    var os := [Parsed(0, Ok(d)), Parsed(0, Ok(h))];
    var tree := Element("div", [], [h]);
    assert AppendChild(d, h) == tree && !HasChildren(h) && HasChildren(d);
    assert PopTo([], 1) == [] && PopTo([d], 1) == [d];
    assert Attach(ParseState([], []), d) == ParseState([d], [d]);
    assert Attach(ParseState([d], [d]), h) == ParseState([d], [tree]);
    assert ParseStep(ParseState([], []), os[0]) == Ok(ParseState([d], [d]));
    assert ParseStep(ParseState([d], [d]), os[1]) == Ok(ParseState([d], [tree]));
    assert ParseFrom(os, 2, ParseState([d], [tree])) == Ok([d]);
  }

  /** The lines `<div>` and `hello`, both unindented, corrected: two top-level siblings. */
  lemma UnindentedSiblingCorrected()
    ensures TreeFrom([Parsed(0, Ok(Element("div", [], []))), Parsed(0, Ok(Text("hello")))], 0, TreeState([], []))
            == Ok([Element("div", [], []), Text("hello")])
  {
    var d, h := Element("div", [], []), Text("hello");
    var os := [Parsed(0, Ok(d)), Parsed(0, Ok(h))];
    assert !HasChildren(h) && HasChildren(d);
    assert CloseTo(TreeState([], []), 0) == TreeState([], []);
    var empty := CloseTo(TreeState([], []), 0);
    assert empty == TreeState([], []);
    assert empty.(stack := empty.stack + [d]) == TreeState([], [d]);
    assert TreeStep(TreeState([], []), os[0]) == Ok(TreeState([], [d]));
    assert Place(TreeState([], []), d) == TreeState([d], []);
    assert CloseTo(TreeState([], [d]), 0) == TreeState([d], []);
    assert Place(TreeState([d], []), h) == TreeState([d, h], []);
    assert TreeStep(TreeState([], [d]), os[1]) == Ok(TreeState([d, h], []));
    assert CloseTo(TreeState([d, h], []), 0) == TreeState([d, h], []);
    assert TreeFrom(os, 2, TreeState([d, h], [])) == Ok([d, h]);
  }
}
