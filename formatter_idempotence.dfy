/**
 * Formatting twice: the formatter writes every node `parse` returns as one line, so a
 * second run gives the same text exactly when each of those lines parses back to its node.
 * The empty element `<>` is the input on which that fails: its line is blank.
 */
module FormatterIdempotence {
  import opened Wrappers
  import opened Strings
  import opened Ast
  import opened Parser
  import opened ParserProperties
  import opened Formatter
  import opened FormatterProperties

  /**
   * The top-level line the formatter writes for `n` is a single line that the parser reads
   * back as `n` itself.
   */
  predicate ReadsBack(f: FerrumFormatter, n: Node) {
    var b := LineBody(f, n);
    NodeLine(f, n, 0) == b + "\n" && SingleLine(b) && !IsSkipped(b) && ParseLineSpec(Trim(b)) == Ok(n)
  }

  /** The line the formatter writes for `n` at the top level, without its line feed. */
  function LineBody(f: FerrumFormatter, n: Node): string
  {
    var l := NodeLine(f, n, 0);
    if l == [] then [] else l[..|l| - 1]
  }

  /** The text of a list of top-level nodes is the first node's text followed by the rest's. */
  lemma {:induction false} NodesTextCons(f: FerrumFormatter, ns: seq<Node>)
    requires ns != []
    ensures NodesText(f, ns) == NodeText(f, ns[0], 0) + NodesText(f, ns[1..])
    decreases |ns|
  {
    if |ns| == 1 {
      assert ns[..0] == [] && ns[1..] == [];
    } else {
      var init := ns[..|ns| - 1];
      NodesTextCons(f, init);
      assert init[1..] == ns[1..][..|ns[1..]| - 1];
      assert init[0] == ns[0] && ns[1..][|ns[1..]| - 1] == ns[|ns| - 1];
      AppendAssoc(NodeText(f, ns[0], 0), NodesText(f, init[1..]), NodeText(f, ns[|ns| - 1], 0));
    }
  }

  /** Outcomes of lines taken one at a time from the front. */
  lemma OutcomesCons(b: string, lines: seq<string>)
    ensures Outcomes([b] + lines) == [Outcome(b)] + Outcomes(lines)
  {
    assert ([b] + lines)[1..] == lines;
  }

  /** Content nodes after a first outcome are those of the remaining outcomes. */
  lemma {:induction false} ContentNodesShift(o: LineOutcome, rest: seq<LineOutcome>, i: nat)
    requires i <= |rest|
    ensures ContentNodes([o] + rest, i + 1) == ContentNodes(rest, i)
    decreases |rest| - i
  {
    if i < |rest| {
      assert ([o] + rest)[i + 1] == rest[i];
      ContentNodesShift(o, rest, i + 1);
    }
  }

  /** A childless node that reads back is written as its line, which parses as the node. */
  lemma NodeReadsBack(f: FerrumFormatter, n: Node)
    requires ReadsBack(f, n) && ChildrenOf(n) == []
    ensures NodeText(f, n, 0) == LineBody(f, n) + "\n"
    ensures Outcome(LineBody(f, n)) == Parsed(Indent(LineBody(f, n)), Ok(n))
  {
    if n.Element? || n.Component? {
      assert ChildrenText(f, n, 0, 1) == "";
    }
  }

  /** Every node is childless and reads back from its line. */
  predicate AllReadBack(f: FerrumFormatter, ns: seq<Node>) {
    forall j :: 0 <= j < |ns| ==> ReadsBack(f, ns[j]) && ChildrenOf(ns[j]) == []
  }

  /** Childless nodes that each read back are read back, in order, from their text. */
  lemma {:induction false} ReadBackAll(f: FerrumFormatter, ns: seq<Node>)
    requires AllReadBack(f, ns)
    ensures ContentNodes(Outcomes(Lines(NodesText(f, ns))), 0) == Ok(ns)
    decreases |ns|
  {
    if ns == [] {
      assert Lines("") == [];
    } else {
      AllReadBackTail(f, ns);
      ReadBackAll(f, ns[1..]);
      ReadBackHead(f, ns);
    }
  }

  lemma AllReadBackTail(f: FerrumFormatter, ns: seq<Node>)
    requires ns != [] && AllReadBack(f, ns)
    ensures ReadsBack(f, ns[0]) && ChildrenOf(ns[0]) == [] && AllReadBack(f, ns[1..])
  {
    forall j | 0 <= j < |ns| - 1
      ensures ReadsBack(f, ns[1..][j]) && ChildrenOf(ns[1..][j]) == []
    {
      assert ns[1..][j] == ns[j + 1];
    }
  }

  /** A first node that reads back, before nodes read back from their text. */
  lemma ReadBackHead(f: FerrumFormatter, ns: seq<Node>)
    requires ns != [] && ReadsBack(f, ns[0]) && ChildrenOf(ns[0]) == []
    requires ContentNodes(Outcomes(Lines(NodesText(f, ns[1..]))), 0) == Ok(ns[1..])
    ensures ContentNodes(Outcomes(Lines(NodesText(f, ns))), 0) == Ok(ns)
  {
    HeadText(f, ns);
    ReadBackJoin(ns[0], LineBody(f, ns[0]), NodesText(f, ns[1..]), ns[1..]);
    ConsTail(ns);
  }

  /** The text of nodes whose first reads back: that node's line, then the others' text. */
  lemma HeadText(f: FerrumFormatter, ns: seq<Node>)
    requires ns != [] && ReadsBack(f, ns[0]) && ChildrenOf(ns[0]) == []
    ensures NodesText(f, ns) == LineBody(f, ns[0]) + "\n" + NodesText(f, ns[1..])
    ensures SingleLine(LineBody(f, ns[0]))
    ensures Outcome(LineBody(f, ns[0])) == Parsed(Indent(LineBody(f, ns[0])), Ok(ns[0]))
  {
    NodeReadsBack(f, ns[0]);
    NodesTextCons(f, ns);
  }

  lemma ConsTail(ns: seq<Node>)
    requires ns != []
    ensures [ns[0]] + ns[1..] == ns
  {
  }

  /** A line that parses as `n`, then text whose content nodes are `tail`. */
  lemma ReadBackJoin(n: Node, b: string, rest: string, tail: seq<Node>)
    requires SingleLine(b) && Outcome(b) == Parsed(Indent(b), Ok(n))
    requires ContentNodes(Outcomes(Lines(rest)), 0) == Ok(tail)
    ensures ContentNodes(Outcomes(Lines(b + "\n" + rest)), 0) == Ok([n] + tail)
  {
    LinesCons(b, rest);
    ReadBackStep(n, b, Lines(rest));
  }

  /** A line that parses as `n`, before other lines: `n` comes first among the content nodes. */
  lemma ReadBackStep(n: Node, b: string, lines: seq<string>)
    requires Outcome(b) == Parsed(Indent(b), Ok(n))
    requires ContentNodes(Outcomes(lines), 0).Ok?
    ensures ContentNodes(Outcomes([b] + lines), 0) == Ok([n] + ContentNodes(Outcomes(lines), 0).value)
  {
    OutcomesCons(b, lines);
    ContentNodesCons(Outcome(b), Outcomes(lines));
  }

  /** A first outcome that parsed a node puts that node first. */
  lemma ContentNodesCons(o: LineOutcome, rest: seq<LineOutcome>)
    requires o.Parsed? && o.parsed.Ok? && ContentNodes(rest, 0).Ok?
    ensures ContentNodes([o] + rest, 0) == Ok([o.parsed.value] + ContentNodes(rest, 0).value)
  {
    ContentNodesShift(o, rest, 0);
  }

  /** A list in which only the last node can take children is kept whole. */
  lemma {:induction false} UpToFirstParentWhole(ns: seq<Node>)
    requires forall j :: 0 <= j < |ns| - 1 ==> !HasChildren(ns[j])
    ensures UpToFirstParent(ns) == ns
    decreases |ns|
  {
    if |ns| > 1 {
      UpToFirstParentWhole(ns[1..]);
      assert [ns[0]] + ns[1..] == ns;
    }
  }

  /**
   * When every node `parse` returns reads back from its line, parsing the formatted text
   * gives the same nodes, and formatting it again gives the same text.
   */
  lemma FormatIdempotent(f: FerrumFormatter, input: string)
    requires ParseSpec(input).Ok?
    requires forall j :: 0 <= j < |ParseSpec(input).value| ==> ReadsBack(f, ParseSpec(input).value[j])
    ensures FormatSpec(f, input).Ok?
    ensures ParseSpec(FormatSpec(f, input).value) == ParseSpec(input)
    ensures FormatSpec(f, FormatSpec(f, input).value) == FormatSpec(f, input)
  {
    var ns := ParseSpec(input).value;
    ParseShape(input);
    var text := NodesText(f, ns);
    assert AllReadBack(f, ns);
    ReadBackAll(f, ns);
    ParseResult(text);
    UpToFirstParentWhole(ns);
    assert [] + ns == ns;
  }

  /** A plain text node reads back from its line. */
  lemma TextReadsBack(t: string)
    requires PlainText(t)
    ensures ReadsBack(Default(), Text(t))
  {
    assert IndentString(Default(), 0) == "";
    assert NodeLine(Default(), Text(t), 0) == t + "\n";
    assert (t + "\n")[..|t|] == t;
    assert !IsWhitespace(t[|t| - 1]);
    ParseLineText(t);
  }

  /** A document whose lines are all plain text formats to a fixed point. */
  lemma PlainDocumentIdempotent(input: string)
    requires ParseSpec(input).Ok?
    requires forall j :: 0 <= j < |ParseSpec(input).value| ==>
      ParseSpec(input).value[j].Text? && PlainText(ParseSpec(input).value[j].text)
    ensures FormatSpec(Default(), FormatSpec(Default(), input).value) == FormatSpec(Default(), input)
  {
    var ns := ParseSpec(input).value;
    forall j | 0 <= j < |ns|
      ensures ReadsBack(Default(), ns[j])
    {
      TextReadsBack(ns[j].text);
    }
    FormatIdempotent(Default(), input);
  }

  /**
   * As written, `<>` parses as an element with an empty tag and no props, which the formatter
   * writes as a blank line; formatting that again gives nothing.
   */
  lemma EmptyTagNotIdempotent()
    ensures FormatSpec(Default(), "<>") == Ok("\n")
    ensures FormatSpec(Default(), "\n") == Ok("")
  {
    var e := Element("", [], []);
    EmptyTagParses();
    assert IndentString(Default(), 0) == "";
    assert NodeText(Default(), e, 0) == "\n";
    assert [e][..0] == [];
    assert NodesText(Default(), [e]) == "\n";
    BlankLineParses();
  }

  /** `<>` is one element with an empty tag, no props and no children. */
  lemma EmptyTagParses()
    ensures ParseSpec("<>") == Ok([Element("", [], [])])
  {
    var e := Element("", [], []);
    EmptyTagContent();
    ParseResult("<>");
    assert HasChildren(e) && UpToFirstParent([e]) == [e];
    assert MapOk(Ok([e]), [], true) == Ok([] + [e]);
    assert [] + [e] == [e];
  }

  /** The content nodes of `<>`: the one element. */
  lemma EmptyTagContent()
    ensures ContentNodes(Outcomes(Lines("<>")), 0) == Ok([Element("", [], [])])
  {
    assert Lines("<>") == ["<>"] by {
      assert Find("<>", '\n') == None;
    }
    EmptyTagLine();
    var none: seq<string> := [];
    OutcomesCons("<>", none);
    assert ["<>"] + none == ["<>"];
    assert Outcomes(none) == [] && ContentNodes(Outcomes(none), 0) == Ok([]);
    ContentNodesCons(Outcome("<>"), Outcomes(none));
    var e, os := Element("", [], []), [Outcome("<>")] + Outcomes(none);
    assert Outcomes(Lines("<>")) == os;
    assert ContentNodes(os, 0) == Ok([e] + []);
    assert [e] + [] == [e];
  }

  /** The line `<>` is read as the element with an empty tag. */
  lemma EmptyTagLine()
    ensures Outcome("<>").Parsed? && Outcome("<>").parsed == Ok(Element("", [], []))
  {
    TrimIdentity("<>");
    assert !IsSkipped("<>");
    assert Find("<>", '(') == None;
    assert Find("<>", '<') == Some(0) && Find("<>", '>') == Some(1);
    assert "<>"[1..1] == "";
    assert SplitOnceOr("", ' ') == ("", "");
    assert SplitWhitespace("") == [];
  }

  /** A blank line parses as no node at all. */
  lemma BlankLineParses()
    ensures ParseSpec("\n") == Ok([])
  {
    BlankLineSkipped();
    ParseResult("\n");
  }

  /** A blank line holds no content. */
  lemma BlankLineSkipped()
    ensures ContentNodes(Outcomes(Lines("\n")), 0) == Ok([])
  {
    var none: string := [];
    LinesCons(none, none);
    assert none + "\n" + none == "\n";
    assert [none] + Lines(none) == [none];
    EmptyLineSkipped();
  }

  lemma EmptyLineSkipped()
    ensures ContentNodes(Outcomes([[]]), 0) == Ok([])
  {
    var none: string := [];
    TrimEmpty(none);
    assert IsSkipped(none);
    OutcomesAt([none], 0);
  }
}
