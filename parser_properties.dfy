/**
 * What the parser does, proved about the specification functions of module Parser.
 *
 *  - Attribute lookups: every attribute of a component call, an HTML-like line or a
 *    shorthand line is the value written by the LAST segment or token for that key.
 *  - Line classification: which lines become components, text or elements, and which fail.
 *  - The shape of `parse`'s result: because the stack holds copies of the nodes, a child is
 *    only ever attached to a copy, so the result is the list of parsed lines up to and
 *    including the first one that takes children, each of them childless.
 */
module ParserProperties {
  import opened Wrappers
  import opened Strings
  import opened Props
  import opened Ast
  import opened Parser

  // ------------------------------------------------------------- latest-entry lookups

  /** `a`, or `b` when `a` holds nothing. */
  function OrElse(a: Option<string>, b: Option<string>): (r: Option<string>)
    ensures a.Some? ==> r == a
    ensures a.None? ==> r == b
  {
    if a.Some? then a else b
  }

  /** The value `entry` records for `k`, if it records a value for `k`. */
  function EntryValue(entry: Option<(string, string)>, k: string): Option<string>
  {
    if entry.Some? && entry.value.0 == k then Some(entry.value.1) else None
  }

  /**
   * The value recorded for `k` by the last of `entries[i..]` that records one: a later entry
   * overrides an earlier one, as successive `HashMap::insert` calls do.
   */
  function LatestFrom(entries: seq<Option<(string, string)>>, i: nat, k: string): Option<string>
    requires i <= |entries|
    decreases |entries| - i
  {
    if i == |entries| then None
    else OrElse(LatestFrom(entries, i + 1, k), EntryValue(entries[i], k))
  }

  /** Looking a key up after inserting the key/value pair an entry records, if any. */
  lemma GetAfterEntry(p: Props, entry: Option<(string, string)>, k: string)
    ensures Get(if entry.Some? then Insert(p, entry.value.0, entry.value.1) else p, k)
            == OrElse(EntryValue(entry, k), Get(p, k))
  {
    if entry.Some? {
      if entry.value.0 == k {
        GetInsertSame(p, k, entry.value.1);
      } else {
        GetInsertOther(p, entry.value.0, entry.value.1, k);
      }
    }
  }

  // ---------------------------------------------------------------------- parse_props

  /** The key/value pair each comma-separated segment stores. */
  function SegmentEntries(segments: seq<string>): (r: seq<Option<(string, string)>>)
    ensures |r| == |segments|
    ensures forall i :: 0 <= i < |segments| ==> r[i] == PropSegment(segments[i])
  {
    seq(|segments|, i requires 0 <= i < |segments| => PropSegment(segments[i]))
  }

  lemma {:induction false} PropsFromGet(segments: seq<string>, i: nat, p: Props, k: string)
    requires i <= |segments|
    ensures Get(PropsFrom(segments, i, p), k)
            == OrElse(LatestFrom(SegmentEntries(segments), i, k), Get(p, k))
    decreases |segments| - i
  {
    if i < |segments| {
      var entries := SegmentEntries(segments);
      var q := InsertSegment(p, segments[i]);
      PropsFromGet(segments, i + 1, q, k);
      GetAfterEntry(p, entries[i], k);
    }
  }

  /**
   * `parse_props`: the value of a key is the value of the last `key: value` segment with
   * that key, both sides trimmed; segments without a colon are ignored.
   */
  lemma ParsePropsLookup(propsStr: string, k: string)
    ensures Get(ParsePropsSpec(propsStr), k) == LatestFrom(SegmentEntries(Split(propsStr, ',')), 0, k)
  {
    PropsFromGet(Split(propsStr, ','), 0, [], k);
  }

  lemma {:induction false} PropsFromDistinct(segments: seq<string>, i: nat, p: Props)
    requires i <= |segments| && DistinctKeys(p)
    ensures DistinctKeys(PropsFrom(segments, i, p))
    decreases |segments| - i
  {
    if i < |segments| {
      var seg := PropSegment(segments[i]);
      if seg.Some? {
        InsertDistinct(p, seg.value.0, seg.value.1);
      }
      PropsFromDistinct(segments, i + 1, InsertSegment(p, segments[i]));
    }
  }

  /** The result of `parse_props` is a map: no key occurs twice. */
  lemma ParsePropsDistinct(propsStr: string)
    ensures DistinctKeys(ParsePropsSpec(propsStr))
  {
    PropsFromDistinct(Split(propsStr, ','), 0, []);
  }

  // ----------------------------------------------------------- key="value" tokens

  /** The key and value a `key="value"` token stores, when its value has both quotes. */
  function TokenEntry(part: string): Option<(string, string)>
  {
    match Find(part, '=')
    case Some(eq) =>
      var value := part[eq + 1..];
      if |value| >= 2 && value[0] == '"' && value[|value| - 1] == '"' then
        Some((part[..eq], value[1..|value| - 1]))
      else None
    case None => None
  }

  /** A token whose value is a single `"`, on which slicing off the quotes panics. */
  predicate LoneQuote(part: string) {
    match Find(part, '=')
    case Some(eq) => part[eq + 1..] == "\""
    case None => false
  }

  /** The effect of one token, stated through `TokenEntry` and `LoneQuote`. */
  lemma QuotedAttributeEffect(p: Props, part: string)
    ensures LoneQuote(part) ==> QuotedAttribute(p, part) == Panic("\"")
    ensures !LoneQuote(part) ==>
              QuotedAttribute(p, part)
              == Ok(if TokenEntry(part).Some? then Insert(p, TokenEntry(part).value.0, TokenEntry(part).value.1) else p)
  {
    match Find(part, '=')
    case Some(eq) =>
      var value := part[eq + 1..];
      QuotedAtBothEnds(value);
      if |value| == 1 && value[0] == '"' {
        assert value == "\"";
      }
    case None =>
  }

  /** `starts_with("\"") && ends_with("\"")` in terms of the first and last characters. */
  lemma QuotedAtBothEnds(value: string)
    ensures StartsWith(value, "\"") && EndsWith(value, "\"")
            <==> |value| >= 1 && value[0] == '"' && value[|value| - 1] == '"'
  {
    if |value| >= 1 {
      assert value[..1] == [value[0]];
      assert value[|value| - 1..] == [value[|value| - 1]];
    }
  }

  /** The key/value pair each token stores. */
  function TokenEntries(parts: seq<string>): (r: seq<Option<(string, string)>>)
    ensures |r| == |parts|
    ensures forall i :: 0 <= i < |parts| ==> r[i] == TokenEntry(parts[i])
  {
    seq(|parts|, i requires 0 <= i < |parts| => TokenEntry(parts[i]))
  }

  /** Applying tokens panics exactly when one of them is a lone quote. */
  lemma {:induction false} AttributesFromPanic(parts: seq<string>, i: nat, p: Props)
    requires i <= |parts|
    ensures AttributesFrom(parts, i, p).Panic? <==> exists j :: i <= j < |parts| && LoneQuote(parts[j])
    decreases |parts| - i
  {
    if i < |parts| {
      QuotedAttributeEffect(p, parts[i]);
      var r := QuotedAttribute(p, parts[i]);
      if r.Ok? {
        AttributesFromPanic(parts, i + 1, r.value);
      }
    }
  }

  /** Without a panic, each key holds the value of the last token that stores one for it. */
  lemma {:induction false} AttributesFromGet(parts: seq<string>, i: nat, p: Props, k: string)
    requires i <= |parts| && AttributesFrom(parts, i, p).Ok?
    ensures Get(AttributesFrom(parts, i, p).value, k)
            == OrElse(LatestFrom(TokenEntries(parts), i, k), Get(p, k))
    decreases |parts| - i
  {
    if i < |parts| {
      QuotedAttributeEffect(p, parts[i]);
      var r := QuotedAttribute(p, parts[i]);
      AttributesFromGet(parts, i + 1, r.value, k);
      GetAfterEntry(p, TokenEntries(parts)[i], k);
    }
  }

  // -------------------------------------------------------------- parse_html_element

  /** Whitespace in front of a string does not change its words. */
  lemma SplitWhitespaceLeadingSpace(s: string)
    ensures SplitWhitespace(" " + s) == SplitWhitespace(s)
  {
    var a := LeadingWhitespace(s);
    var t := " " + s;
    assert t[1..] == s;
    assert LeadingWhitespace(t) == 1 + a;
    assert t[1 + a..] == s[a..];
    assert TrimStart(t) == TrimStart(s);
  }

  /** The text between the first `<` and the first `>`, when `<` comes first. */
  function TagContent(line: string): (c: string)
    requires '<' in line && '>' in line && Find(line, '<').value < Find(line, '>').value
    ensures '>' !in c
  {
    line[Find(line, '<').value + 1..Find(line, '>').value]
  }

  /** Where the tag name of a tag's content ends: at its first space, if any. */
  function TagLength(c: string): (n: nat)
    ensures n <= |c| && ' ' !in c[..n]
    ensures n < |c| ==> c[n] == ' '
  {
    match Find(c, ' ')
    case Some(i) => i
    case None => |c|
  }

  /** `split_once(' ')` of a tag's content, restated through `TagLength`. */
  lemma TagSplit(c: string)
    ensures SplitOnceOr(c, ' ').0 == c[..TagLength(c)]
    ensures SplitWhitespace(SplitOnceOr(c, ' ').1) == SplitWhitespace(c[TagLength(c)..])
  {
    var n := TagLength(c);
    var (tag, rest) := SplitOnceOr(c, ' ');
    if n < |c| {
      assert c == tag + [' '] + rest;
      assert c[..|tag|] == tag && c[|tag|] == ' ';
      assert |tag| == n;
      assert c[n..] == " " + rest;
      SplitWhitespaceLeadingSpace(rest);
    } else {
      assert c[n..] == [];
    }
  }

  /** `parse_html_element` fails exactly when the line lacks a `<` or a `>`. */
  lemma HtmlElementErr(line: string)
    ensures HtmlElementSpec(line).Err? <==> '<' !in line || '>' !in line
    ensures HtmlElementSpec(line).Err? ==> HtmlElementSpec(line).message == "Invalid HTML element syntax: " + line
  {
  }

  /** A `>` before the first `<` makes the tag slice run backwards, which panics. */
  lemma HtmlElementBackwards(line: string)
    requires '<' in line && '>' in line && Find(line, '>').value < Find(line, '<').value
    ensures HtmlElementSpec(line) == Panic(line)
  {
  }

  /**
   * For a well-ordered line: the tag is the content up to its first space; the element
   * panics exactly when a later word is a lone-quote token, and otherwise every attribute is
   * the value of the last `key="value"` word for its key.
   */
  lemma HtmlElementContent(line: string, k: string)
    requires '<' in line && '>' in line && Find(line, '<').value < Find(line, '>').value
    ensures var c := TagContent(line);
            var words := SplitWhitespace(c[TagLength(c)..]);
            && (HtmlElementSpec(line).Panic? <==> exists j :: 0 <= j < |words| && LoneQuote(words[j]))
            && (HtmlElementSpec(line).Ok? ==>
                  && HtmlElementSpec(line).value.tag == c[..TagLength(c)]
                  && Get(HtmlElementSpec(line).value.props, k) == LatestFrom(TokenEntries(words), 0, k))
  {
    var c := TagContent(line);
    var (tag, rest) := SplitOnceOr(c, ' ');
    TagSplit(c);
    var words := SplitWhitespace(rest);
    AttributesFromPanic(words, 0, []);
    if HtmlElementSpec(line).Ok? {
      AttributesFromGet(words, 0, [], k);
    }
  }

  // ------------------------------------------------------------- parse_tag_shorthand

  /** The attribute each token of a shorthand line stores: `.name` tokens store none. */
  function ShorthandEntries(parts: seq<string>): (r: seq<Option<(string, string)>>)
    ensures |r| == |parts|
    ensures forall i :: 0 <= i < |parts| ==>
              r[i] == if StartsWith(parts[i], ".") then None else TokenEntry(parts[i])
  {
    seq(|parts|, i requires 0 <= i < |parts| => if StartsWith(parts[i], ".") then None else TokenEntry(parts[i]))
  }

  /** The class names of the `.name` tokens of `parts[i..]`, in order. */
  function DotClasses(parts: seq<string>, i: nat): (r: seq<string>)
    requires i <= |parts|
    ensures |r| <= |parts| - i
    decreases |parts| - i
  {
    if i == |parts| then []
    else if StartsWith(parts[i], ".") then [parts[i][1..]] + DotClasses(parts, i + 1)
    else DotClasses(parts, i + 1)
  }

  /** A shorthand token panics when it is not a class and is a lone-quote token. */
  predicate ShorthandPanics(part: string) {
    !StartsWith(part, ".") && LoneQuote(part)
  }

  lemma {:induction false} ShorthandFromPanic(parts: seq<string>, i: nat, st: ShorthandState)
    requires i <= |parts|
    ensures ShorthandFrom(parts, i, st).Panic? <==> exists j :: i <= j < |parts| && ShorthandPanics(parts[j])
    decreases |parts| - i
  {
    if i < |parts| {
      QuotedAttributeEffect(st.props, parts[i]);
      var r := ShorthandToken(st, parts[i]);
      if r.Ok? {
        ShorthandFromPanic(parts, i + 1, r.value);
      }
    }
  }

  /** Without a panic the `.name` tokens are appended to the class list, in order. */
  lemma {:induction false} ShorthandFromClasses(parts: seq<string>, i: nat, st: ShorthandState)
    requires i <= |parts| && ShorthandFrom(parts, i, st).Ok?
    ensures ShorthandFrom(parts, i, st).value.classes == st.classes + DotClasses(parts, i)
    decreases |parts| - i
  {
    if i < |parts| {
      var r := ShorthandToken(st, parts[i]);
      if StartsWith(parts[i], ".") {
        assert r.value.classes == st.classes + [parts[i][1..]];
      } else {
        assert r.value.classes == st.classes;
      }
      ShorthandFromClasses(parts, i + 1, r.value);
    }
  }

  /**
   * Without a panic each key holds the value of the last non-class token storing one, or
   * its earlier value.
   */
  lemma {:induction false} ShorthandFromGet(parts: seq<string>, i: nat, st: ShorthandState, k: string)
    requires i <= |parts| && ShorthandFrom(parts, i, st).Ok?
    ensures Get(ShorthandFrom(parts, i, st).value.props, k)
            == OrElse(LatestFrom(ShorthandEntries(parts), i, k), Get(st.props, k))
    decreases |parts| - i
  {
    if i < |parts| {
      var entry := ShorthandEntries(parts)[i];
      var r := ShorthandToken(st, parts[i]);
      if !StartsWith(parts[i], ".") {
        QuotedAttributeEffect(st.props, parts[i]);
      }
      assert r.value.props == if entry.Some? then Insert(st.props, entry.value.0, entry.value.1) else st.props;
      ShorthandFromGet(parts, i + 1, r.value, k);
      GetAfterEntry(st.props, entry, k);
    }
  }

  /** A shorthand line fails exactly when it has no word at all. */
  lemma ShorthandErr(line: string)
    ensures ShorthandSpec(line).Err? <==> AllWhitespace(line)
    ensures ShorthandSpec(line).Err? ==> ShorthandSpec(line).message == "Empty line"
  {
    SplitWhitespaceEmpty(line);
  }

  /** A shorthand line panics exactly when a word after the first is a lone-quote token. */
  lemma ShorthandPanic(line: string)
    requires !AllWhitespace(line)
    ensures var parts := SplitWhitespace(line);
            ShorthandSpec(line).Panic? <==> exists j :: 1 <= j < |parts| && ShorthandPanics(parts[j])
  {
    SplitWhitespaceEmpty(line);
    var parts := SplitWhitespace(line);
    var head := ShorthandHead(parts[0]);
    ShorthandFromPanic(parts, 1, ShorthandStart(head.1, head.2));
  }

  /** The classes of a shorthand line: the one after `#id.`, then every `.name` word. */
  function ShorthandClasses(parts: seq<string>): seq<string>
    requires parts != []
  {
    var first := ShorthandHead(parts[0]).2;
    (if first != [] then [first] else []) + DotClasses(parts, 1)
  }

  /**
   * What a shorthand line produces: the tag is its first word up to a `#`; the class list,
   * when there is one, replaces any `class="..."` word; a `key="value"` word overrides the
   * `#id` and any earlier word for its key.
   */
  lemma ShorthandResult(line: string, k: string)
    requires ShorthandSpec(line).Ok?
    ensures var parts := SplitWhitespace(line);
            var e := ShorthandSpec(line).value;
            && parts != []
            && '#' !in e.tag && (e.tag == parts[0] || StartsWith(parts[0], e.tag + "#"))
            && (k == "class" && ShorthandClasses(parts) != [] ==>
                  Get(e.props, k) == Some(Join(ShorthandClasses(parts), " ")))
            && (k == "class" && ShorthandClasses(parts) == [] ==>
                  Get(e.props, k) == LatestFrom(ShorthandEntries(parts), 1, k))
            && (k == "id" ==>
                  Get(e.props, k) == OrElse(LatestFrom(ShorthandEntries(parts), 1, k),
                                            if ShorthandHead(parts[0]).1 != [] then Some(ShorthandHead(parts[0]).1) else None))
            && (k != "class" && k != "id" ==>
                  Get(e.props, k) == LatestFrom(ShorthandEntries(parts), 1, k))
  {
    var parts := SplitWhitespace(line);
    var head := ShorthandHead(parts[0]);
    var start := ShorthandStart(head.1, head.2);
    ShorthandFromClasses(parts, 1, start);
    ShorthandFromGet(parts, 1, start, k);
    var st := ShorthandFrom(parts, 1, start).value;
    if st.classes != [] {
      if k == "class" {
        GetInsertSame(st.props, "class", Join(st.classes, " "));
      } else {
        GetInsertOther(st.props, "class", Join(st.classes, " "), k);
      }
    }
    if head.1 != [] {
      if k == "id" {
        GetInsertSame([], "id", head.1);
      } else {
        GetInsertOther([], "id", head.1, k);
      }
    }
    var first := parts[0];
    var (tag, rest) := SplitOnceOr(first, '#');
    if '#' in first {
      assert first == tag + "#" + rest;
      assert first[..|tag + "#"|] == tag + "#";
    }
  }

  // ---------------------------------------------------------------------- parse_line

  /**
   * How `parse_line` classifies a line: a component exactly for `Name(...)` lines, the line
   * itself as text exactly when it has none of ` #.(<`, and an element otherwise unless it
   * fails.
   */
  lemma ParseLineKinds(line: string)
    ensures ParseLineSpec(line).Ok? && ParseLineSpec(line).value.Component? <==> IsComponentCall(line)
    ensures ParseLineSpec(line) == Ok(Text(line)) <==> '<' !in line && IsBareText(line)
    ensures ParseLineSpec(line).Ok? && ParseLineSpec(line).value.Text? ==> ParseLineSpec(line) == Ok(Text(line))
    ensures ParseLineSpec(line).Ok? && ParseLineSpec(line).value.Element? <==>
              !IsComponentCall(line) && !('<' !in line && IsBareText(line))
              && (if '<' in line then HtmlElementSpec(line).Ok? else ShorthandSpec(line).Ok?)
  {
  }

  /** The lines on which `parse_line` returns an error, and the error. */
  lemma ParseLineErr(line: string)
    ensures ParseLineSpec(line).Err? <==>
              !IsComponentCall(line)
              && (if '<' in line then '>' !in line else !IsBareText(line) && AllWhitespace(line))
    ensures ParseLineSpec(line).Err? ==>
              ParseLineSpec(line).message
              == if '<' in line then "Invalid HTML element syntax: " + line else "Empty line"
  {
    HtmlElementErr(line);
    ShorthandErr(line);
  }

  /** The text between the first `(` of a component line and its final `)`. */
  function CallArguments(line: string): (args: string)
    requires IsComponentCall(line)
    ensures |args| <= |line| - 2
  {
    var open := Find(line, '(').value;
    assert line[|line| - 1] == ')';
    line[open + 1..|line| - 1]
  }

  /**
   * A component line: its name is the trimmed text before the first `(`, and its props are
   * those of the text between that `(` and the final `)`.
   */
  lemma ParseLineComponent(line: string, k: string)
    requires IsComponentCall(line)
    ensures ParseLineSpec(line).Ok?
    ensures ParseLineSpec(line).value.name == Trim(line[..Find(line, '(').value])
    ensures Get(ParseLineSpec(line).value.props, k)
            == LatestFrom(SegmentEntries(Split(CallArguments(line), ',')), 0, k)
  {
    var open := Find(line, '(').value;
    var inner := CallArguments(line);
    assert ParseLineSpec(line) == Ok(Component(Trim(line[..open]), ParsePropsSpec(inner), []));
    ParsePropsLookup(inner, k);
  }

  /**
   * Which parsed lines open a node for the lines below them: every component call, every
   * element except the six void tags, and never a text.
   */
  lemma ParsedTakesChildren(line: string)
    requires ParseLineSpec(line).Ok?
    ensures HasChildren(ParseLineSpec(line).value)
            <==> IsComponentCall(line)
                 || (ParseLineSpec(line).value.Element? && !IsSelfClosing(ParseLineSpec(line).value.tag))
  {
    ParseLineKinds(line);
  }

  // --------------------------------------------------------------------------- parse

  /**
   * A line is skipped exactly when it is blank, or when its first non-whitespace characters
   * are `//`.
   */
  lemma SkippedLine(line: string)
    ensures IsSkipped(line) <==>
              AllWhitespace(line)
              || exists k :: 0 <= k && k + 2 <= |line| && AllWhitespace(line[..k]) && line[k] == '/' && line[k + 1] == '/'
  {
    TrimEmpty(line);
    if StartsWith(Trim(line), "//") {
      SlashesStart(Trim(line));
      CommentAfterWhitespace(line);
    }
    if exists k :: 0 <= k && k + 2 <= |line| && AllWhitespace(line[..k]) && line[k] == '/' && line[k + 1] == '/' {
      var k :| 0 <= k && k + 2 <= |line| && AllWhitespace(line[..k]) && line[k] == '/' && line[k + 1] == '/';
      CommentAt(line, k);
    }
  }

  /** Everything before the trimmed text, and everything after it, is whitespace. */
  lemma TrimSurroundings(line: string)
    ensures forall j :: 0 <= j < LeadingWhitespace(line) ==> IsWhitespace(line[j])
    ensures forall j :: LeadingWhitespace(line) + |Trim(line)| <= j < |line| ==> IsWhitespace(line[j])
  {
    var a, t := LeadingWhitespace(line), Trim(line);
    forall j | 0 <= j < a
      ensures IsWhitespace(line[j])
    {
      assert line[..a][j] == line[j];
    }
    forall j | a + |t| <= j < |line|
      ensures IsWhitespace(line[j])
    {
      assert line[a + |t|..][j - a - |t|] == line[j];
    }
  }

  /** A trimmed line starting with `//` has `//` right after its leading whitespace. */
  lemma CommentAfterWhitespace(line: string)
    requires |Trim(line)| >= 2 && Trim(line)[0] == '/' && Trim(line)[1] == '/'
    ensures var a := LeadingWhitespace(line);
            a + 2 <= |line| && AllWhitespace(line[..a]) && line[a] == '/' && line[a + 1] == '/'
  {
    var a, t := LeadingWhitespace(line), Trim(line);
    assert t[0] == line[a] && t[1] == line[a + 1];
  }

  lemma SlashesStart(t: string)
    requires StartsWith(t, "//")
    ensures |t| >= 2 && t[0] == '/' && t[1] == '/'
  {
    var p := "//";
    assert |p| == 2 && p[0] == '/' && p[1] == '/';
    assert t[..2] == p;
    assert t[0] == t[..2][0] && t[1] == t[..2][1];
  }

  /** `//` after nothing but whitespace starts the trimmed line. */
  lemma CommentAt(line: string, k: nat)
    requires k + 2 <= |line| && AllWhitespace(line[..k]) && line[k] == '/' && line[k + 1] == '/'
    ensures StartsWith(Trim(line), "//")
  {
    var a, t := LeadingWhitespace(line), Trim(line);
    TrimSurroundings(line);
    assert forall j :: 0 <= j < k ==> IsWhitespace(line[j]) by {
      forall j | 0 <= j < k
        ensures IsWhitespace(line[j])
      {
        assert line[..k][j] == line[j];
      }
    }
    assert k == a;
    assert t[0] == line[a] && t[1] == line[a + 1];
    assert t[..2] == "//";
  }

  /**
   * The node of every line that is not blank or a comment, in order, each parsed on its own;
   * the first line that fails makes the whole result that failure.
   */
  function ContentNodes(outcomes: seq<LineOutcome>, i: nat): Result<seq<Node>>
    requires i <= |outcomes|
    decreases |outcomes| - i
  {
    if i == |outcomes| then Ok([])
    else match outcomes[i]
      case Skip => ContentNodes(outcomes, i + 1)
      case Parsed(_, parsed) =>
        if parsed.Err? then Err(parsed.message)
        else if parsed.Panic? then Panic(parsed.at)
        else
          var rest := ContentNodes(outcomes, i + 1);
          if rest.Ok? then Ok([parsed.value] + rest.value) else rest
  }

  /** The nodes up to and including the first one that takes children. */
  function UpToFirstParent(ns: seq<Node>): (r: seq<Node>)
    ensures |r| <= |ns| && r == ns[..|r|]
    ensures forall j :: 0 <= j < |r| - 1 ==> !HasChildren(r[j])
    ensures |r| < |ns| ==> r != [] && HasChildren(r[|r| - 1])
  {
    if ns == [] then []
    else if HasChildren(ns[0]) then [ns[0]]
    else
      var rest := UpToFirstParent(ns[1..]);
      assert forall j :: 1 <= j < |rest| + 1 ==> ([ns[0]] + rest)[j] == rest[j - 1];
      [ns[0]] + rest
  }

  /**
   * The result built from `r`: `prefix` followed, when `keepRest` holds, by the nodes of `r`
   * up to its first parent; a failure passes through.
   */
  function MapOk(r: Result<seq<Node>>, prefix: seq<Node>, keepRest: bool): Result<seq<Node>>
  {
    if r.Ok? then Ok(if keepRest then prefix + UpToFirstParent(r.value) else prefix)
    else if r.Err? then Err(r.message) else Panic(r.at)
  }

  /** Once a node is open on the stack, no later line changes the result's nodes. */
  lemma {:induction false} ParseFromOpen(outcomes: seq<LineOutcome>, i: nat, st: ParseState)
    requires i <= |outcomes| && st.stack != []
    ensures ParseFrom(outcomes, i, st) == MapOk(ContentNodes(outcomes, i), st.nodes, false)
    decreases |outcomes| - i
  {
    if i < |outcomes| {
      var step := ParseStep(st, outcomes[i]);
      if step.Ok? {
        assert step.value.nodes == st.nodes && step.value.stack != [];
        ParseFromOpen(outcomes, i + 1, step.value);
      }
    }
  }

  /** With an empty stack, a parsed node becomes a top-level node and is opened if it takes children. */
  lemma StepFromEmpty(nodes: seq<Node>, o: LineOutcome)
    requires o.Parsed? && o.parsed.Ok?
    ensures ParseStep(ParseState(nodes, []), o)
            == Ok(ParseState(nodes + [o.parsed.value], if HasChildren(o.parsed.value) then [o.parsed.value] else []))
  {
    var n := o.parsed.value;
    var st := ParseState(nodes, PopTo([], o.indent / 2 + 1));
    assert st == ParseState(nodes, []);
    assert [] + [n] == [n];
    assert Attach(st, n).nodes == nodes + [n];
  }

  /** A content line whose node takes no children adds it and leaves the rest to the lines below. */
  lemma ContentLeaf(outcomes: seq<LineOutcome>, i: nat, nodes: seq<Node>)
    requires i < |outcomes| && outcomes[i].Parsed? && outcomes[i].parsed.Ok?
    requires !HasChildren(outcomes[i].parsed.value)
    ensures MapOk(ContentNodes(outcomes, i), nodes, true)
            == MapOk(ContentNodes(outcomes, i + 1), nodes + [outcomes[i].parsed.value], true)
  {
    var n := outcomes[i].parsed.value;
    var rest := ContentNodes(outcomes, i + 1);
    if rest.Ok? {
      assert ([n] + rest.value)[1..] == rest.value;
      assert UpToFirstParent([n] + rest.value) == [n] + UpToFirstParent(rest.value);
      assert nodes + [n] + UpToFirstParent(rest.value) == nodes + ([n] + UpToFirstParent(rest.value));
    }
  }

  /** A content line whose node takes children is the last one the result keeps. */
  lemma ContentParent(outcomes: seq<LineOutcome>, i: nat, nodes: seq<Node>)
    requires i < |outcomes| && outcomes[i].Parsed? && outcomes[i].parsed.Ok?
    requires HasChildren(outcomes[i].parsed.value)
    ensures MapOk(ContentNodes(outcomes, i), nodes, true)
            == MapOk(ContentNodes(outcomes, i + 1), nodes + [outcomes[i].parsed.value], false)
  {
    var n := outcomes[i].parsed.value;
    var rest := ContentNodes(outcomes, i + 1);
    if rest.Ok? {
      assert UpToFirstParent([n] + rest.value) == [n];
    }
  }

  /** With an empty stack, each parsed node is added until one of them takes children. */
  lemma {:induction false} ParseFromEmpty(outcomes: seq<LineOutcome>, i: nat, nodes: seq<Node>)
    requires i <= |outcomes|
    ensures ParseFrom(outcomes, i, ParseState(nodes, [])) == MapOk(ContentNodes(outcomes, i), nodes, true)
    decreases |outcomes| - i
  {
    if i == |outcomes| {
      assert nodes + UpToFirstParent([]) == nodes;
    } else if outcomes[i].Skip? {
      ParseFromEmpty(outcomes, i + 1, nodes);
    } else if outcomes[i].parsed.Ok? {
      var n := outcomes[i].parsed.value;
      StepFromEmpty(nodes, outcomes[i]);
      if HasChildren(n) {
        ParseFromOpen(outcomes, i + 1, ParseState(nodes + [n], [n]));
        ContentParent(outcomes, i, nodes);
      } else {
        ParseFromEmpty(outcomes, i + 1, nodes + [n]);
        ContentLeaf(outcomes, i, nodes);
      }
    }
  }

  /**
   * What `parse` returns: the first failure of any content line, or else the parsed content
   * lines up to and including the first one that takes children. Children are attached to
   * the copy held on the stack, never to the node already in the result.
   */
  lemma ParseResult(input: string)
    ensures ParseSpec(input) == MapOk(ContentNodes(Outcomes(Lines(input)), 0), [], true)
  {
    ParseFromEmpty(Outcomes(Lines(input)), 0, []);
  }

  /** Every node parsed from a line is an element, a text or a component without children. */
  predicate ChildlessOutcomes(outcomes: seq<LineOutcome>) {
    forall j :: 0 <= j < |outcomes| && outcomes[j].Parsed? && outcomes[j].parsed.Ok? ==>
      IsParserKind(outcomes[j].parsed.value) && ChildrenOf(outcomes[j].parsed.value) == []
  }

  lemma OutcomesChildless(lines: seq<string>)
    ensures ChildlessOutcomes(Outcomes(lines))
  {
    var outcomes := Outcomes(lines);
    forall j | 0 <= j < |outcomes| && outcomes[j].Parsed? && outcomes[j].parsed.Ok?
      ensures IsParserKind(outcomes[j].parsed.value) && ChildrenOf(outcomes[j].parsed.value) == []
    {
      OutcomesAt(lines, j);
      assert outcomes[j].parsed == ParseLineSpec(Trim(lines[j]));
    }
  }

  lemma {:induction false} ContentNodesChildless(outcomes: seq<LineOutcome>, i: nat)
    requires i <= |outcomes| && ChildlessOutcomes(outcomes) && ContentNodes(outcomes, i).Ok?
    ensures forall j :: 0 <= j < |ContentNodes(outcomes, i).value| ==>
              IsParserKind(ContentNodes(outcomes, i).value[j]) && ChildrenOf(ContentNodes(outcomes, i).value[j]) == []
    decreases |outcomes| - i
  {
    if i < |outcomes| {
      ContentNodesChildless(outcomes, i + 1);
      var r := ContentNodes(outcomes, i).value;
      var rest := ContentNodes(outcomes, i + 1).value;
      if outcomes[i].Parsed? {
        assert r == [outcomes[i].parsed.value] + rest;
        forall j | 0 <= j < |r|
          ensures IsParserKind(r[j]) && ChildrenOf(r[j]) == []
        {
          if j > 0 {
            assert r[j] == rest[j - 1];
          }
        }
      }
    }
  }

  /**
   * The shape of a successful `parse`: every node is an element, a text or a component
   * without children, and only the last one can be a parent.
   */
  lemma ParseShape(input: string)
    requires ParseSpec(input).Ok?
    ensures var ns := ParseSpec(input).value;
            && (forall j :: 0 <= j < |ns| ==> IsParserKind(ns[j]) && ChildrenOf(ns[j]) == [])
            && (forall j :: 0 <= j < |ns| - 1 ==> !HasChildren(ns[j]))
  {
    ParseResult(input);
    OutcomesChildless(Lines(input));
    ContentNodesChildless(Outcomes(Lines(input)), 0);
  }
}
