/**
 * The line-oriented parser of the DSL (`FerrumParser` in ferrum-core).
 *
 * Each operation is a method that follows the source's loops and updates, proved equal to
 * a specification function of the same name with the suffix `Spec` (or, for the fold steps,
 * to the `...From` function that consumes its input from a position). The properties the
 * parser promises are proved about those functions in module ParserProperties.
 *
 * The parser object's two fields (`components`, `current_indent`) are never read, so the
 * operations are module-level methods.
 */
module Parser {
  import opened Wrappers
  import opened Strings
  import opened Props
  import opened Ast

  /** The tags `has_children` lists as taking no children. */
  predicate IsSelfClosing(tag: string) {
    tag == "input" || tag == "img" || tag == "br" || tag == "hr" || tag == "meta" || tag == "link"
  }

  // ---------------------------------------------------------------- parse_props

  /** A trimmed `key: value` segment of a component's argument list, if it has a colon. */
  function PropSegment(segment: string): Option<(string, string)>
  {
    var t := Trim(segment);
    match Find(t, ':')
    case Some(i) => Some((Trim(t[..i]), Trim(t[i + 1..])))
    case None => None
  }

  function InsertSegment(p: Props, segment: string): Props
  {
    match PropSegment(segment)
    case Some(kv) => Insert(p, kv.0, kv.1)
    case None => p
  }

  /** The attribute map after inserting `segments[i..]` into `p`, left to right. */
  function PropsFrom(segments: seq<string>, i: nat, p: Props): Props
    requires i <= |segments|
    decreases |segments| - i
  {
    if i == |segments| then p else PropsFrom(segments, i + 1, InsertSegment(p, segments[i]))
  }

  function ParsePropsSpec(propsStr: string): Props
  {
    PropsFrom(Split(propsStr, ','), 0, [])
  }

  method ParseProps(propsStr: string) returns (props: Props)
    ensures props == ParsePropsSpec(propsStr)
  {
    props := [];
    var pairs := Split(propsStr, ',');
    for i := 0 to |pairs|
      invariant PropsFrom(pairs, i, props) == ParsePropsSpec(propsStr)
    {
      ghost var before := props;
      var pair := Trim(pairs[i]);
      var colon := Find(pair, ':');
      if colon.Some? {
        var key := Trim(pair[..colon.value]);
        var value := Trim(pair[colon.value + 1..]);
        props := Insert(props, key, value);
      }
      assert props == InsertSegment(before, pairs[i]);
    }
  }

  // ------------------------------------------------- key="value" attribute tokens

  /**
   * The effect of one whitespace-delimited token on an attribute map: `key="value"` stores
   * `value` under `key`; any other token is ignored. A value that is a single `"` both
   * starts and ends with a quote, and slicing off the quotes panics.
   */
  function QuotedAttribute(p: Props, part: string): (r: Result<Props>)
    ensures !r.Err?
  {
    match Find(part, '=')
    case Some(eq) =>
      var key := part[..eq];
      var value := part[eq + 1..];
      if StartsWith(value, "\"") && EndsWith(value, "\"") then
        if |value| < 2 then Panic(value) else Ok(Insert(p, key, value[1..|value| - 1]))
      else Ok(p)
    case None => Ok(p)
  }

  /** The attribute map after applying `parts[i..]` to `p`; the first panic stops it. */
  function AttributesFrom(parts: seq<string>, i: nat, p: Props): (r: Result<Props>)
    requires i <= |parts|
    ensures !r.Err?
    decreases |parts| - i
  {
    if i == |parts| then Ok(p)
    else
      var r := QuotedAttribute(p, parts[i]);
      if r.Ok? then AttributesFrom(parts, i + 1, r.value) else r
  }

  // ------------------------------------------------------ parse_html_element

  function HtmlElementSpec(line: string): (r: Result<Node>)
    ensures r.Ok? ==> r.value.Element? && r.value.children == []
  {
    var start, end := Find(line, '<'), Find(line, '>');
    if start.None? || end.None? then Err("Invalid HTML element syntax: " + line)
    else if end.value < start.value + 1 then Panic(line)
    else
      ElementContentSpec(line[start.value + 1..end.value])
  }

  /** The element written between `<` and `>`: the tag up to the first space, then attributes. */
  function ElementContentSpec(content: string): (r: Result<Node>)
    ensures !r.Err?
    ensures r.Ok? ==> r.value.Element? && r.value.children == []
  {
    var (tag, rest) := SplitOnceOr(content, ' ');
    var attrs := AttributesFrom(SplitWhitespace(rest), 0, []);
    if attrs.Ok? then Ok(Element(tag, attrs.value, [])) else Panic(attrs.at)
  }

  /** The loop of `parse_html_element` over the tokens after the tag. */
  method ParseAttributes(parts: seq<string>) returns (r: Result<Props>)
    ensures r == AttributesFrom(parts, 0, [])
  {
    var props: Props := [];
    for i := 0 to |parts|
      invariant AttributesFrom(parts, i, props) == AttributesFrom(parts, 0, [])
    {
      var attribute := QuotedAttribute(props, parts[i]);
      if attribute.Panic? {
        return Panic(attribute.at);
      }
      props := attribute.value;
    }
    return Ok(props);
  }

  method ParseElementContent(tagContent: string) returns (r: Result<Node>)
    ensures r == ElementContentSpec(tagContent)
  {
    var (tag, rest) := SplitOnceOr(tagContent, ' ');
    var props: Props := [];
    if rest != [] {
      var attributes := ParseAttributes(SplitWhitespace(rest));
      if attributes.Panic? {
        return Panic(attributes.at);
      }
      props := attributes.value;
    } else {
      assert SplitWhitespace(rest) == [];
    }
    return Ok(Element(tag, props, []));
  }

  method ParseHtmlElement(line: string) returns (r: Result<Node>)
    ensures r == HtmlElementSpec(line)
  {
    var start, end := Find(line, '<'), Find(line, '>');
    if start.None? || end.None? {
      return Err("Invalid HTML element syntax: " + line);
    }
    if end.value < start.value + 1 {
      return Panic(line);
    }
    r := ParseElementContent(line[start.value + 1..end.value]);
  }

  // ------------------------------------------------------ parse_tag_shorthand

  /** Attributes and class names collected so far from a shorthand line. */
  datatype ShorthandState = ShorthandState(props: Props, classes: seq<string>)

  /** A `.name` token adds a class; any other token is read as a `key="value"` attribute. */
  function ShorthandToken(st: ShorthandState, part: string): (r: Result<ShorthandState>)
    ensures !r.Err?
  {
    if StartsWith(part, ".") then Ok(st.(classes := st.classes + [part[1..]]))
    else
      var r := QuotedAttribute(st.props, part);
      if r.Ok? then Ok(st.(props := r.value)) else Panic(r.at)
  }

  function ShorthandFrom(parts: seq<string>, i: nat, st: ShorthandState): (r: Result<ShorthandState>)
    requires i <= |parts|
    ensures !r.Err?
    decreases |parts| - i
  {
    if i == |parts| then Ok(st)
    else
      var r := ShorthandToken(st, parts[i]);
      if r.Ok? then ShorthandFrom(parts, i + 1, r.value) else r
  }

  /**
   * The tag, id and first class of a shorthand's first token: `tag#id.class`. The id and
   * the class are only split out when the token contains `#`.
   */
  function ShorthandHead(firstPart: string): (string, string, string)
  {
    var (tagPart, rest) := SplitOnceOr(firstPart, '#');
    var (idPart, classPart) := if rest != [] then SplitOnceOr(rest, '.') else ("", "");
    (tagPart, idPart, classPart)
  }

  function ShorthandStart(idPart: string, classPart: string): ShorthandState
  {
    ShorthandState(if idPart != [] then Insert([], "id", idPart) else [],
                   if classPart != [] then [classPart] else [])
  }

  function ShorthandSpec(line: string): (r: Result<Node>)
    ensures r.Ok? ==> r.value.Element? && r.value.children == []
  {
    var parts := SplitWhitespace(line);
    if parts == [] then Err("Empty line")
    else
      var (tagPart, idPart, classPart) := ShorthandHead(parts[0]);
      var r := ShorthandFrom(parts, 1, ShorthandStart(idPart, classPart));
      if r.Ok? then
        var st := r.value;
        Ok(Element(tagPart,
                   if st.classes != [] then Insert(st.props, "class", Join(st.classes, " ")) else st.props,
                   []))
      else Panic(r.at)
  }

  method ParseTagShorthand(line: string) returns (r: Result<Node>)
    ensures r == ShorthandSpec(line)
  {
    var parts := SplitWhitespace(line);
    if parts == [] {
      return Err("Empty line");
    }
    var firstPart := parts[0];
    var (tagPart, rest) := SplitOnceOr(firstPart, '#');
    var idPart, classPart := "", "";
    if rest != [] {
      var split := SplitOnceOr(rest, '.');
      idPart, classPart := split.0, split.1;
    }
    assert ShorthandHead(firstPart) == (tagPart, idPart, classPart);
    var props: Props := [];
    if idPart != [] {
      props := Insert(props, "id", idPart);
    }
    var classes: seq<string> := [];
    if classPart != [] {
      classes := classes + [classPart];
    }
    ghost var start := ShorthandState(props, classes);
    assert start == ShorthandStart(idPart, classPart);
    for i := 1 to |parts|
      invariant ShorthandFrom(parts, i, ShorthandState(props, classes)) == ShorthandFrom(parts, 1, start)
    {
      var part := parts[i];
      if StartsWith(part, ".") {
        classes := classes + [part[1..]];
      } else {
        var attribute := QuotedAttribute(props, part);
        if attribute.Panic? {
          return Panic(attribute.at);
        }
        props := attribute.value;
      }
    }
    if classes != [] {
      props := Insert(props, "class", Join(classes, " "));
    }
    return Ok(Element(tagPart, props, []));
  }

  // ---------------------------------------------------------------- parse_line

  /** None of the characters that make a line more than bare text. */
  predicate IsBareText(line: string) {
    !(' ' in line || '#' in line || '.' in line || '(' in line)
  }

  /** A line of the form `Name(args)`: it has a `(` and ends with `)`. */
  predicate IsComponentCall(line: string) {
    '(' in line && EndsWith(line, ")")
  }

  function ParseLineSpec(line: string): (r: Result<Node>)
    ensures r.Ok? ==> (r.value.Element? || r.value.Text? || r.value.Component?)
    ensures r.Ok? ==> ChildrenOf(r.value) == []
  {
    var open := Find(line, '(');
    if open.Some? && EndsWith(line, ")") then
      assert line[|line| - 1] == ')';
      Ok(Component(Trim(line[..open.value]), ParsePropsSpec(line[open.value + 1..|line| - 1]), []))
    else if '<' in line then HtmlElementSpec(line)
    else if IsBareText(line) then Ok(Text(line))
    else ShorthandSpec(line)
  }

  method ParseLine(line: string) returns (r: Result<Node>)
    ensures r == ParseLineSpec(line)
  {
    var componentEnd := Find(line, '(');
    if componentEnd.Some? {
      if EndsWith(line, ")") {
        assert line[|line| - 1] == ')';
        var componentName := Trim(line[..componentEnd.value]);
        var props := ParseProps(line[componentEnd.value + 1..|line| - 1]);
        r := Ok(Component(componentName, props, []));
        assert r == ParseLineSpec(line);
        return;
      }
    }
    assert !(componentEnd.Some? && EndsWith(line, ")"));
    if '<' in line {
      assert ParseLineSpec(line) == HtmlElementSpec(line);
      r := ParseHtmlElement(line);
      return;
    }
    if IsBareText(line) {
      return Ok(Text(line));
    }
    assert ParseLineSpec(line) == ShorthandSpec(line);
    r := ParseTagShorthand(line);
  }

  // ------------------------------------------------------------------- parse

  /**
   * `has_children`: whether a parsed node is opened as a parent of the lines below it. The
   * parser never produces the formatter-only variants; they take no children either.
   */
  predicate HasChildren(n: Node)
    ensures HasChildren(n) ==> n.Element? || n.Component?
  {
    if n.Element? then !IsSelfClosing(n.tag) else n.Component?
  }

  /** `get_children_mut(parent)` followed by a push: `child` becomes the last child. */
  function AppendChild(parent: Node, child: Node): (r: Node)
    ensures parent.Element? || parent.Component? ==> ChildrenOf(r) == ChildrenOf(parent) + [child]
    ensures !(parent.Element? || parent.Component?) ==> r == parent
  {
    match parent
    case Element(tag, props, children) => Element(tag, props, children + [child])
    case Component(name, props, children) => Component(name, props, children + [child])
    case _ => parent
  }

  /**
   * The number of UTF-8 bytes by which a line is longer than its trimmed text: its leading
   * AND trailing whitespace.
   */
  function Indent(line: string): (n: nat)
    ensures var a := LeadingWhitespace(line);
            n == ByteLen(line[..a]) + ByteLen(line[a + |Trim(line)|..])
  {
    var a, t := LeadingWhitespace(line), Trim(line);
    assert line == line[..a] + t + line[a + |t|..];
    ByteLenAppend(line[..a] + t, line[a + |t|..]);
    ByteLenAppend(line[..a], t);
    ByteLen(line) - ByteLen(t)
  }

  /** The stack with its top entries popped until at most `bound` remain. */
  function PopTo(stack: seq<Node>, bound: nat): (r: seq<Node>)
    ensures |r| == if |stack| > bound then bound else |stack|
    ensures r == stack[..|r|]
  {
    if |stack| > bound then stack[..bound] else stack
  }

  /** The popping loop of `parse`: drop the top of the stack while it is deeper than `bound`. */
  method CloseDeeper(stack: seq<Node>, bound: nat) returns (s: seq<Node>)
    ensures s == PopTo(stack, bound)
    ensures |s| <= bound
    ensures |stack| <= bound ==> s == stack
  {
    s := stack;
    while |s| > bound
      invariant PopTo(s, bound) == PopTo(stack, bound)
    {
      s := s[..|s| - 1];
    }
  }

  /**
   * The parser's state between lines: the top-level result and the stack of open nodes.
   * The stack holds copies: a child is added to the copy on the stack, never to the node
   * already placed in `nodes`.
   */
  datatype ParseState = ParseState(nodes: seq<Node>, stack: seq<Node>)

  /** Attaching a freshly parsed node, after popping. */
  function Attach(st: ParseState, node: Node): ParseState
  {
    var stack := st.stack;
    var attached :=
      if stack == [] then ParseState(st.nodes + [node], stack)
      else ParseState(st.nodes, stack[..|stack| - 1] + [AppendChild(stack[|stack| - 1], node)]);
    if HasChildren(node) then attached.(stack := attached.stack + [node]) else attached
  }

  /**
   * The end of one iteration of `parse`: `node` becomes the last child of the node on top of
   * the stack, or a top-level node when the stack is empty, and is itself pushed when it
   * takes children.
   */
  method AttachNode(nodes: seq<Node>, stack: seq<Node>, node: Node)
      returns (nodes': seq<Node>, stack': seq<Node>)
    ensures ParseState(nodes', stack') == Attach(ParseState(nodes, stack), node)
  {
    nodes', stack' := nodes, stack;
    if stack' != [] {
      stack' := stack'[..|stack'| - 1] + [AppendChild(stack'[|stack'| - 1], node)];
    } else {
      nodes' := nodes' + [node];
    }
    if HasChildren(node) {
      stack' := stack' + [node];
    }
  }

  /** A line that produces no node. */
  predicate IsSkipped(line: string) {
    var trimmed := Trim(line);
    trimmed == [] || StartsWith(trimmed, "//")
  }

  /**
   * What one input line contributes to `parse`: nothing for a blank or comment line, or else
   * its indent and the result of `parse_line` on its trimmed text.
   */
  datatype LineOutcome = Skip | Parsed(indent: nat, parsed: Result<Node>)

  function Outcome(line: string): (o: LineOutcome)
    ensures o.Skip? <==> IsSkipped(line)
  {
    if IsSkipped(line) then Skip else Parsed(Indent(line), ParseLineSpec(Trim(line)))
  }

  /** The outcome of every line, in order. */
  function Outcomes(lines: seq<string>): (r: seq<LineOutcome>)
    ensures |r| == |lines|
  {
    if lines == [] then [] else [Outcome(lines[0])] + Outcomes(lines[1..])
  }

  lemma {:induction false} OutcomesAt(lines: seq<string>, i: nat)
    requires i < |lines|
    ensures Outcomes(lines)[i] == Outcome(lines[i])
  {
    if i > 0 {
      OutcomesAt(lines[1..], i - 1);
    }
  }

  /** The effect of one line on the parser's state. */
  function ParseStep(st: ParseState, o: LineOutcome): Result<ParseState>
  {
    match o
    case Skip => Ok(st)
    case Parsed(indent, parsed) => Continue(ParseState(st.nodes, PopTo(st.stack, indent / 2 + 1)), parsed)
  }

  /** After popping: attach the parsed node, or pass on the failure of `parse_line`. */
  function Continue(st: ParseState, parsed: Result<Node>): Result<ParseState>
  {
    if parsed.Ok? then Ok(Attach(st, parsed.value))
    else if parsed.Err? then Err(parsed.message) else Panic(parsed.at)
  }

  /** The parser's result on the lines from `i` on, starting from `st`; the first failure stops it. */
  function ParseFrom(outcomes: seq<LineOutcome>, i: nat, st: ParseState): Result<seq<Node>>
    requires i <= |outcomes|
    decreases |outcomes| - i
  {
    if i == |outcomes| then Ok(st.nodes)
    else
      var r := ParseStep(st, outcomes[i]);
      if r.Ok? then ParseFrom(outcomes, i + 1, r.value)
      else if r.Err? then Err(r.message) else Panic(r.at)
  }

  function ParseSpec(input: string): Result<seq<Node>>
  {
    ParseFrom(Outcomes(Lines(input)), 0, ParseState([], []))
  }

  /**
   * The rest of one iteration of `parse`, once the stack is popped to `bound`: the `?` on
   * the result of `parse_line`, the second popping loop and the attachment.
   */
  method AttachParsed(nodes: seq<Node>, popped: seq<Node>, bound: nat, parsed: Result<Node>)
      returns (r: Result<ParseState>)
    requires |popped| <= bound
    ensures r == Continue(ParseState(nodes, popped), parsed)
  {
    if parsed.Err? {
      return Err(parsed.message);
    } else if parsed.Panic? {
      return Panic(parsed.at);
    }
    // The source pops again here; the stack is already short enough, so nothing changes.
    var stack := CloseDeeper(popped, bound);
    var nodes', stack' := AttachNode(nodes, stack, parsed.value);
    r := Ok(ParseState(nodes', stack'));
  }

  /**
   * The first half of one iteration of `parse`: the trimmed text, whether the line is
   * skipped, and the stack depth its indent allows.
   */
  method ReadLine(line: string) returns (skip: bool, trimmed: string, bound: nat)
    ensures skip == IsSkipped(line) && trimmed == Trim(line)
    ensures !skip ==> Outcome(line).indent / 2 + 1 == bound
  {
    trimmed := Trim(line);
    skip := trimmed == [] || StartsWith(trimmed, "//");
    var indent := Indent(line);
    bound := indent / 2 + 1;
  }

  /**
   * One iteration of the line loop of `parse`: a skipped line leaves the state alone;
   * otherwise the stack is popped to the line's depth and the parsed node attached, or the
   * failure of `parse_line` is returned.
   */
  method ParseLineInto(lines: seq<string>, i: nat, nodes: seq<Node>, stack: seq<Node>)
      returns (r: Result<ParseState>)
    requires i < |lines|
    ensures r == ParseStep(ParseState(nodes, stack), Outcomes(lines)[i])
  {
    var line := lines[i];
    OutcomesAt(lines, i);
    var skip, trimmed, bound := ReadLine(line);
    if skip {
      return Ok(ParseState(nodes, stack));
    }
    // Close nodes that are deeper than the current indent
    var popped := CloseDeeper(stack, bound);
    var parsed := ParseLine(trimmed);
    r := AttachParsed(nodes, popped, bound, parsed);
  }

  method Parse(input: string) returns (r: Result<seq<Node>>)
    ensures r == ParseSpec(input)
  {
    var lines := Lines(input);
    ghost var outcomes := Outcomes(lines);
    var nodes: seq<Node> := [];
    var stack: seq<Node> := [];
    for i := 0 to |lines|
      invariant ParseFrom(outcomes, i, ParseState(nodes, stack)) == ParseSpec(input)
    {
      var step := ParseLineInto(lines, i, nodes, stack);
      if step.Err? {
        return Err(step.message);
      } else if step.Panic? {
        return Panic(step.at);
      }
      nodes, stack := step.value.nodes, step.value.stack;
    }
    r := Ok(nodes);
  }
}
