# Ferrum core, modelled in Dafny

Ferrum is a Rust web framework with its own view language: an indentation-based DSL in which
a line is a component call `Name(key: value, ...)`, an HTML-like element `<tag key="value">`,
a tag shorthand `tag#id.class key="value"`, or plain text. This project models the parts of
the framework that give that language its meaning, and proves what they promise:

- the DSL parser (`FerrumParser` in `crates/ferrum-core/src/parser.rs`): line classification,
  props and attribute parsing, the indentation stack of `parse`, and the Rust/Leptos code
  generator `generate_rust`;
- the auto-formatter (`crates/ferrum-core/src/formatter.rs`), which writes nodes back one
  line per node;
- the development server's HTML emitter (`node_to_html` and the two page generators in
  `crates/ferrum-dev-server/src/main.rs`);
- the router (`crates/ferrum-core/src/routing.rs`), the CSS style and utility-class builders
  (`crates/ferrum-core/src/css.rs`) and the component registry
  (`crates/ferrum-core/src/component.rs`).

Modules: `Wrappers` (Option and a Result with `Ok`, `Err` and `Panic`, the last standing for
a Rust panic such as an out-of-range slice), `Strings` (the `str` operations the code uses:
Unicode `trim`, `find`, `split`, `split_once`, `split_whitespace`, `lines`, UTF-8 byte
length), `Props` (a `HashMap<String, String>` as an association list), `Ast` (the node
datatype), `Parser` and `ParserProperties`, `ParserTree` (the tree `parse` evidently means to
build), `ViewCode` and `ViewCodeProperties`, `Formatter` and `FormatterProperties`, `Html`
and `HtmlProperties`, `Routing`, `Css` and `Component`; `FormatterIdempotence` (when formatting
twice gives the same text, and an input on which it does not); `ParserExamples` and
`SourceExamples` (concrete inputs worked through the model, among them the inputs of the
crate's own unit tests for `parse` and `format`).

Every loop of the source is a Dafny method with a loop, proved equal to a recursive
specification function; the properties are lemmas about those functions. The router, the
CSS builder and the component registry update fields in place and are classes.

Where the crate's own description and its code disagree, the model follows the code:
`parse` returns only top-level nodes without children (see Findings), a text line is quoted
by the formatter only when it contains a space, `Link` ignores its `children`, and
`use_params`/`use_query` always return an empty map.

## Model

| member | source | states |
|---|---|---|
| Parser.ParseProps | crates/ferrum-core/src/parser.rs:118-132 | the loop over comma-separated segments computes the props the specification function gives |
| ParserProperties.ParsePropsLookup | crates/ferrum-core/src/parser.rs:118-132 | a key's value is that of the last `key: value` segment with that key, both sides trimmed; segments without a colon are ignored |
| ParserProperties.ParsePropsDistinct | crates/ferrum-core/src/parser.rs:118-132 | the props hold no key twice, as a map |
| ParserProperties.PropsFromGet | crates/ferrum-core/src/parser.rs:122-129 | after inserting segments from position i, a lookup yields the latest segment's value, else the earlier value |
| ParserProperties.PropsFromDistinct | crates/ferrum-core/src/parser.rs:122-129 | inserting segments keeps the keys distinct |
| ParserProperties.SegmentEntries | crates/ferrum-core/src/parser.rs:122-128 | one entry per segment, each the pair that segment stores, if any |
| ParserProperties.GetAfterEntry | crates/ferrum-core/src/parser.rs:127 | a lookup after an insert sees the inserted value for its key and the old value otherwise |
| ParserProperties.OrElse | crates/ferrum-core/src/parser.rs:127 | the later value wins, else the earlier one |
| Parser.QuotedAttribute | crates/ferrum-core/src/parser.rs:146-152 | one attribute token never returns an error; it panics or yields props |
| Parser.AttributesFrom | crates/ferrum-core/src/parser.rs:145-153 | applying attribute tokens never returns an error |
| ParserProperties.QuotedAttributeEffect | crates/ferrum-core/src/parser.rs:146-152 | a lone-quote value panics; otherwise a `key="value"` token stores value under key and other tokens leave the props alone |
| ParserProperties.QuotedAtBothEnds | crates/ferrum-core/src/parser.rs:149 | starts and ends with a quote exactly when the first and last characters are quotes |
| ParserProperties.TokenEntries | crates/ferrum-core/src/parser.rs:145-153 | one entry per token, each the pair that token stores |
| ParserProperties.AttributesFromPanic | crates/ferrum-core/src/parser.rs:145-153 | the tokens panic exactly when one of them is a lone quote |
| ParserProperties.AttributesFromGet | crates/ferrum-core/src/parser.rs:145-153 | without a panic, each key holds the value of the last token storing it |
| Parser.HtmlElementSpec | crates/ferrum-core/src/parser.rs:134-165 | a successful HTML-like line is an element without children |
| Parser.ElementContentSpec | crates/ferrum-core/src/parser.rs:138-160 | the text between the brackets never errs and yields a childless element |
| Parser.ParseAttributes | crates/ferrum-core/src/parser.rs:144-154 | the attribute loop computes the attribute fold |
| Parser.ParseElementContent | crates/ferrum-core/src/parser.rs:138-160 | the method computes the element the specification gives |
| Parser.ParseHtmlElement | crates/ferrum-core/src/parser.rs:134-165 | the method computes `parse_html_element`'s result |
| ParserProperties.HtmlElementErr | crates/ferrum-core/src/parser.rs:136-137 | the line fails exactly when it lacks `<` or `>`, with the message naming the line |
| ParserProperties.HtmlElementBackwards | crates/ferrum-core/src/parser.rs:138 | a `>` before the first `<` makes the slice run backwards, a panic |
| ParserProperties.HtmlElementContent | crates/ferrum-core/src/parser.rs:136-161 | the tag is the content up to its first space; panic exactly on a lone-quote word; otherwise each attribute is the last word's value for its key |
| ParserProperties.TagContent | crates/ferrum-core/src/parser.rs:138 | the text between the brackets holds no `>` |
| ParserProperties.TagLength | crates/ferrum-core/src/parser.rs:139 | the tag name ends at the first space, if any |
| ParserProperties.TagSplit | crates/ferrum-core/src/parser.rs:139-145 | `split_once(' ')` gives the tag name and the same words as the rest of the content |
| ParserProperties.SplitWhitespaceLeadingSpace | crates/ferrum-core/src/parser.rs:145 | leading whitespace does not change the words |
| Parser.ShorthandToken | crates/ferrum-core/src/parser.rs:190-200 | a shorthand token never returns an error |
| Parser.ShorthandFrom | crates/ferrum-core/src/parser.rs:190-200 | the token fold never returns an error |
| Parser.ShorthandSpec | crates/ferrum-core/src/parser.rs:167-211 | a successful shorthand line is an element without children |
| Parser.ParseTagShorthand | crates/ferrum-core/src/parser.rs:167-211 | the method computes the shorthand's result |
| ParserProperties.ShorthandEntries | crates/ferrum-core/src/parser.rs:190-200 | `.name` tokens store no attribute; other tokens store their `key="value"` pair |
| ParserProperties.DotClasses | crates/ferrum-core/src/parser.rs:191-192 | at most one class per token |
| ParserProperties.ShorthandFromPanic | crates/ferrum-core/src/parser.rs:190-200 | the fold panics exactly when a non-class token is a lone quote |
| ParserProperties.ShorthandFromClasses | crates/ferrum-core/src/parser.rs:190-192 | the `.name` tokens are appended to the classes in order |
| ParserProperties.ShorthandFromGet | crates/ferrum-core/src/parser.rs:193-199 | each key holds the last non-class token's value, else its earlier value |
| ParserProperties.ShorthandErr | crates/ferrum-core/src/parser.rs:168-169 | a shorthand line fails exactly when it has no word, with "Empty line" |
| ParserProperties.ShorthandPanic | crates/ferrum-core/src/parser.rs:190-200 | a shorthand line panics exactly when a later word is a lone-quote token |
| ParserProperties.ShorthandResult | crates/ferrum-core/src/parser.rs:167-211 | the tag is the first word up to `#`; the class list replaces any `class` word; a later `id` word overrides `#id` |
| Parser.ParseLineSpec | crates/ferrum-core/src/parser.rs:88-116 | a parsed line is an element, a text or a component, without children |
| Parser.ParseLine | crates/ferrum-core/src/parser.rs:88-116 | the method computes `parse_line`'s result |
| ParserProperties.ParseLineKinds | crates/ferrum-core/src/parser.rs:88-116 | a component exactly for `Name(...)` lines; the line as text exactly when it has none of ` #.(<`; an element otherwise unless it fails |
| ParserProperties.ParseLineErr | crates/ferrum-core/src/parser.rs:88-116 | the lines on which `parse_line` errs, and the message of each |
| ParserProperties.CallArguments | crates/ferrum-core/src/parser.rs:93 | the argument text lies strictly inside the parentheses |
| ParserProperties.ParseLineComponent | crates/ferrum-core/src/parser.rs:90-101 | a component's name is the trimmed text before `(`, and its props are those of the text inside the parentheses |
| Parser.AppendChild | crates/ferrum-core/src/parser.rs:224-231 | the child becomes the last child of an element or component; other nodes are unchanged |
| Parser.Indent | crates/ferrum-core/src/parser.rs:55 | the indent is the UTF-8 byte length of leading AND trailing whitespace |
| Parser.PopTo | crates/ferrum-core/src/parser.rs:58-60 | popping leaves the bottom `min(len, bound)` entries of the stack |
| Parser.CloseDeeper | crates/ferrum-core/src/parser.rs:58-60 | the loop pops to the bound, and a stack already short enough is unchanged |
| Parser.AttachNode | crates/ferrum-core/src/parser.rs:71-82 | the node becomes the top's last child, or top-level on an empty stack, and is pushed when it takes children |
| Parser.Outcome | crates/ferrum-core/src/parser.rs:49-53 | a line is skipped exactly when it is blank or a `//` comment |
| Parser.HasChildren | crates/ferrum-core/src/parser.rs:213-222 | only elements and components are ever opened to receive children |
| ParserProperties.ParsedTakesChildren | crates/ferrum-core/src/parser.rs:213-222 | a parsed line opens a node exactly when it is a component call, or an element whose tag is none of `input`, `img`, `br`, `hr`, `meta`, `link`; a text line never does |
| ParserProperties.SkippedLine | crates/ferrum-core/src/parser.rs:50-53 | a line is skipped exactly when it is blank or its first non-whitespace characters are `//` |
| ParserProperties.CommentAt | crates/ferrum-core/src/parser.rs:50-51 | `//` after nothing but whitespace starts the trimmed line |
| ParserProperties.CommentAfterWhitespace | crates/ferrum-core/src/parser.rs:50-51 | a trimmed line starting with `//` has it right after the leading whitespace |
| Parser.Outcomes | crates/ferrum-core/src/parser.rs:45-48 | one outcome per line |
| Parser.OutcomesAt | crates/ferrum-core/src/parser.rs:48 | the i-th outcome is the outcome of the i-th line |
| Parser.AttachParsed | crates/ferrum-core/src/parser.rs:62-82 | the `?` passes a failure on; the second pop changes nothing; the node is attached |
| Parser.ReadLine | crates/ferrum-core/src/parser.rs:49-58 | the trimmed text, whether the line is skipped, and the depth bound `indent / 2 + 1` |
| Parser.ParseLineInto | crates/ferrum-core/src/parser.rs:48-83 | one iteration of the line loop is one step of the specification |
| Parser.Parse | crates/ferrum-core/src/parser.rs:44-86 | the method computes the specification of `parse` |
| ParserProperties.ParseResult | crates/ferrum-core/src/parser.rs:44-86 | `parse` fails with the first failing line, or returns the content lines up to and including the first that takes children |
| ParserProperties.ParseShape | crates/ferrum-core/src/parser.rs:44-86 | every node returned is childless, and only the last can take children |
| ParserProperties.UpToFirstParent | crates/ferrum-core/src/parser.rs:71-82 | a prefix with no parent before its end; shorter only when it ends at a parent |
| ParserProperties.ParseFromOpen | crates/ferrum-core/src/parser.rs:58-82 | once a node is open on the stack, no later line changes the result |
| ParserProperties.ParseFromEmpty | crates/ferrum-core/src/parser.rs:48-85 | from an empty stack, each node is added until one takes children |
| ParserProperties.StepFromEmpty | crates/ferrum-core/src/parser.rs:71-82 | on an empty stack a node becomes top-level and is opened if it takes children |
| ParserProperties.ContentLeaf | crates/ferrum-core/src/parser.rs:71-82 | a childless content line is kept and the rest follows |
| ParserProperties.ContentParent | crates/ferrum-core/src/parser.rs:71-82 | a content line that takes children is the last one kept |
| ParserProperties.OutcomesChildless | crates/ferrum-core/src/parser.rs:88-116 | every parsed line is a childless node of the parser's kinds |
| ParserProperties.ContentNodesChildless | crates/ferrum-core/src/parser.rs:88-116 | all content nodes are childless |
| ParserTree.PlaceTotal | crates/ferrum-core/src/parser.rs:71-78 | placing a node keeps the stack open and adds the node's subtree after all content so far |
| ParserTree.CloseToTotal | crates/ferrum-core/src/parser.rs:58-60 | closing nodes into their parents loses and reorders nothing |
| ParserTree.OpenTotal | crates/ferrum-core/src/parser.rs:80-82 | opening a parent adds it after all content so far |
| ParserTree.StepTotal | crates/ferrum-core/src/parser.rs:48-83 | one content line adds exactly its node, at the end of the document order |
| ParserTree.TreeFromLines | crates/ferrum-core/src/parser.rs:44-86 | the corrected build fails exactly as the content lines do; otherwise its flattening is the content lines in order |
| ParserTree.ParseTreeLines | crates/ferrum-core/src/parser.rs:44-86 | the corrected `parse` holds every content line exactly once, in input order |
| ParserTree.SameFailures | crates/ferrum-core/src/parser.rs:62 | the corrected and the as-written `parse` fail on the same inputs, in the same way |
| ParserTree.TopLevelLine | crates/ferrum-core/src/parser.rs:58-60 | corrected: a line indented by less than two closes every open node and becomes top-level |
| ParserTree.AsWrittenLosesLines | crates/ferrum-core/src/parser.rs:71-82 | as written, a parent followed by any other content line makes the result lose lines the corrected tree keeps |
| ParserTree.IndentedChildAsWritten | crates/ferrum-core/src/parser.rs:71-82 | as written, `<div>` then `  hello` returns the `div` without children |
| ParserTree.IndentedChildCorrected | crates/ferrum-core/src/parser.rs:71-82 | corrected, `hello` is the `div`'s child |
| ParserTree.UnindentedSiblingAsWritten | crates/ferrum-core/src/parser.rs:58-69 | as written, `<div>` then unindented `hello` loses `hello` |
| ParserTree.UnindentedSiblingCorrected | crates/ferrum-core/src/parser.rs:58-69 | corrected, the two are top-level siblings |
| ParserTree.FlattenAppendChild | crates/ferrum-core/src/parser.rs:224-231 | a child appended last comes, with its subtree, after the parent's existing subtree |
| ParserTree.ParseTreeSpec | crates/ferrum-core/src/parser.rs:44-86 | the corrected `parse` fails exactly when a content line fails, and then with that line's failure |
| ParserTree.TreeStepPlacement | crates/ferrum-core/src/parser.rs:58-82 | corrected: a line at indent `d` with `1 <= d / 2 <=` the open nodes goes under the open node at position `d / 2 - 1`, after the deeper ones are closed into it; a childless node becomes its last child, a node that takes children is opened right above it; the finished nodes and the open nodes below are unchanged |
| ParserTree.CloseToKeeps | crates/ferrum-core/src/parser.rs:58-60 | closing down to `bound` open nodes keeps the finished nodes and the open nodes below the new innermost one, which only gains children |
| ParserTree.CloseOneBelow | crates/ferrum-core/src/parser.rs:58-60 | closing one node into its parent is the first step of closing down to a lower bound, and keeps everything below |
| ParserTree.PlaceBelow | crates/ferrum-core/src/parser.rs:71-78 | placing a node changes only the innermost open node, and only by adding children |
| ParserTree.UpToFirstParentEnds | crates/ferrum-core/src/parser.rs:71-82 | as written, the kept nodes end at or before any node that takes children |
| ParserTree.AppendChildVoid | crates/ferrum-core/src/parser.rs:213-231 | children are only appended to nodes that take them, so no self-closing element gains one |
| ParserTree.PlaceVoid | crates/ferrum-core/src/parser.rs:71-78 | placing a node keeps every self-closing element childless |
| ParserTree.CloseToVoid | crates/ferrum-core/src/parser.rs:58-60 | closing nodes keeps every self-closing element childless |
| ParserTree.TreeStepVoid | crates/ferrum-core/src/parser.rs:58-82 | one line keeps every self-closing element childless |
| ParserTree.TreeFromVoid | crates/ferrum-core/src/parser.rs:48-83 | the whole corrected build keeps every self-closing element childless |
| ParserTree.ParseTreeVoidChildless | crates/ferrum-core/src/parser.rs:213-222 | in the corrected tree no `input`, `img`, `br`, `hr`, `meta` or `link` element has children: no line is ever placed under one |
| ParserExamples.WordPlain | crates/ferrum-core/src/parser.rs:109-112 | a word of ASCII letters is a plain text line |
| ParserExamples.BareElement | crates/ferrum-core/src/parser.rs:134-165 | `<tag>` is the element `tag` without props |
| ParserExamples.BareElementLine | crates/ferrum-core/src/parser.rs:48-56 | the line `<tag>` is that element at indent 0 |
| ParserExamples.FindClose | crates/ferrum-core/src/parser.rs:137 | the `>` of `<tag>` is right after the tag |
| ParserExamples.UnindentedLine | crates/ferrum-core/src/parser.rs:55 | a line without whitespace at either end has indent 0 |
| ParserExamples.TextLineAtZero | crates/ferrum-core/src/parser.rs:48-56 | a plain text line is a text at indent 0 |
| ParserExamples.TextLineAtTwo | crates/ferrum-core/src/parser.rs:48-56 | a plain text line indented by two spaces is a text at indent 2 |
| ParserExamples.TwoLines | crates/ferrum-core/src/parser.rs:45-48 | two lines separated by a line feed give the outcomes of each, in order |
| ParserExamples.IndentedChildLines | crates/ferrum-core/src/parser.rs:45-56 | `<tag>` then a word indented by two spaces: the element at indent 0, the text at indent 2 |
| ParserExamples.UnindentedSiblingLines | crates/ferrum-core/src/parser.rs:45-56 | `<tag>` then a word at the same indent: both at indent 0 |
| ParserExamples.IndentedChildInput | crates/ferrum-core/src/parser.rs:71-82 | as written, the text `<div>`, a line feed and `  hello` parses to the `div` without children |
| ParserExamples.IndentedChildInputCorrected | crates/ferrum-core/src/parser.rs:71-82 | corrected, the same text is the `div` with `hello` as its only child |
| ParserExamples.UnindentedSiblingInput | crates/ferrum-core/src/parser.rs:58-69 | as written, the text `<div>`, a line feed and `hello` loses `hello` |
| ParserExamples.UnindentedSiblingInputCorrected | crates/ferrum-core/src/parser.rs:58-69 | corrected, the same text is two top-level nodes, the `div` and `hello` |
| ViewCode.AttributeText | crates/ferrum-core/src/parser.rs:253-259 | an element prop is written `key="value"` followed by a space |
| ViewCode.ChildRustIsNodeRust | crates/ferrum-core/src/parser.rs:300-305 | a child is generated exactly as the same node at the top level |
| ViewCode.ElementAttributesText | crates/ferrum-core/src/parser.rs:252-260 | the loop computes the attributes of an element, in prop order |
| ViewCode.ComponentAttributesText | crates/ferrum-core/src/parser.rs:278-280 | the loop computes a component's unquoted attributes |
| ViewCode.BodyText | crates/ferrum-core/src/parser.rs:262-270 | the end of a node: self-closing, or each child on its own line and a closing tag |
| ViewCode.ChildLinesText | crates/ferrum-core/src/parser.rs:266-268 | the loop writes one indented line per child |
| ViewCode.NodeToRust | crates/ferrum-core/src/parser.rs:246-298 | the method computes `node_to_rust` with the corrected closing |
| ViewCode.ChildToRust | crates/ferrum-core/src/parser.rs:300-305 | the method computes `child_to_rust` |
| ViewCode.GenerateRust | crates/ferrum-core/src/parser.rs:234-244 | the file is the prelude followed by every node and a line feed |
| ViewCodeProperties.NodeRustBalanced | crates/ferrum-core/src/parser.rs:246-298 | a node without braces of its own is generated with as many `{` as `}` |
| ViewCodeProperties.BodyBalanced | crates/ferrum-core/src/parser.rs:262-270 | a node's end closes exactly the brace its `view! {` opened |
| ViewCodeProperties.ChildLinesBalanced | crates/ferrum-core/src/parser.rs:266-268 | the child lines are balanced |
| ViewCodeProperties.GenerateRustBalanced | crates/ferrum-core/src/parser.rs:234-244 | the whole generated file is balanced |
| ViewCodeProperties.NodesRustBalanced | crates/ferrum-core/src/parser.rs:238-241 | the nodes' code is balanced |
| ViewCodeProperties.PreludeBalance | crates/ferrum-core/src/parser.rs:236 | the prelude holds no unmatched brace |
| ViewCodeProperties.OpenedBalance | crates/ferrum-core/src/parser.rs:249 | the `view! {` line opens exactly one brace |
| ViewCodeProperties.OpenBalance | crates/ferrum-core/src/parser.rs:249 | the opening text holds one `{` |
| ViewCodeProperties.SelfCloseBalance | crates/ferrum-core/src/parser.rs:263 | the corrected self-closing text closes one brace |
| ViewCodeProperties.AsWrittenSelfCloseBalance | crates/ferrum-core/src/parser.rs:263 | the self-closing text as written closes two braces |
| ViewCodeProperties.CloseLineBalance | crates/ferrum-core/src/parser.rs:269 | the closing-tag line closes one brace |
| ViewCodeProperties.BindingBalance | crates/ferrum-core/src/parser.rs:294-296 | a state binding's `{move || ...}` is balanced |
| ViewCodeProperties.ElementAttributesBalance | crates/ferrum-core/src/parser.rs:252-260 | element attributes hold no brace |
| ViewCodeProperties.ComponentAttributesBalance | crates/ferrum-core/src/parser.rs:278-280 | component attributes hold no brace |
| ViewCodeProperties.AttributeTextFree | crates/ferrum-core/src/parser.rs:253-259 | a brace-free key and value give a brace-free attribute |
| ViewCodeProperties.ComponentAttributeTextFree | crates/ferrum-core/src/parser.rs:279 | the same for a component attribute |
| ViewCodeProperties.AsWrittenChildless | crates/ferrum-core/src/parser.rs:263 | as written, every childless element or component closes one brace more than it opens |
| ViewCodeProperties.AsWrittenUnbalanced | crates/ferrum-core/src/parser.rs:263 | `<br>` is unbalanced as written and balanced when corrected |
| Formatter.OperatorText | crates/ferrum-core/src/formatter.rs:165-176 | every operator is written padded by a space on both sides |
| FormatterProperties.OperatorTextInjective | crates/ferrum-core/src/formatter.rs:165-176 | no two operators are written alike |
| Formatter.ArgumentStrings | crates/ferrum-core/src/formatter.rs:229-233 | one string per call argument |
| Formatter.FormatExpression | crates/ferrum-core/src/formatter.rs:141-197 | the method appends the expression's line to the output |
| FormatterProperties.ExpressionLineIsString | crates/ferrum-core/src/formatter.rs:141-237 | `format_expression` writes the indent, `expression_to_string`'s text and a line feed |
| FormatterProperties.ExpressionTextNewlineFree | crates/ferrum-core/src/formatter.rs:199-237 | `expression_to_string` adds no line feed: an expression whose literals and names hold none is written as one line of text |
| FormatterProperties.ArgumentStringsNewlineFree | crates/ferrum-core/src/formatter.rs:229-233 | the same for every argument of a call |
| FormatterProperties.ExpressionLineCount | crates/ferrum-core/src/formatter.rs:141-197 | `format_expression` writes exactly one line |
| Formatter.ElementHead | crates/ferrum-core/src/formatter.rs:56-75 | appends the element line: tag, `#id`, `.class` names, the other props |
| Formatter.ClassTokens | crates/ferrum-core/src/formatter.rs:64-68 | appends `.name` for each class word |
| Formatter.OtherProps | crates/ferrum-core/src/formatter.rs:71-75 | appends ` key="value"` for every prop except `id` and `class` |
| Formatter.OtherPropsStep | crates/ferrum-core/src/formatter.rs:71-75 | one more prop appends its own text |
| FormatterProperties.OtherPropsTextCons | crates/ferrum-core/src/formatter.rs:71-75 | the first prop's text comes first |
| FormatterProperties.OtherPropsIgnoreIdClass | crates/ferrum-core/src/formatter.rs:72 | setting `id` or `class` never changes the ` key="value"` part |
| Formatter.PropPairs | crates/ferrum-core/src/formatter.rs:106-107 | one `key: value` pair per prop |
| Formatter.ComponentHead | crates/ferrum-core/src/formatter.rs:103-108 | appends the component line: name and props in parentheses |
| Formatter.ChildrenTextStep | crates/ferrum-core/src/formatter.rs:82-84 | one more child appends its own text |
| Formatter.FormatChildren | crates/ferrum-core/src/formatter.rs:82-84 | appends every child in order, one level deeper |
| Formatter.FormatNode | crates/ferrum-core/src/formatter.rs:41-139 | appends the node's line and then its children's text |
| Formatter.Format | crates/ferrum-core/src/formatter.rs:29-39 | the formatted nodes of the parse, or the parser's failure |
| Formatter.IndentString | crates/ferrum-core/src/formatter.rs:239-243 | exactly `depth * indent_size` characters, each the indent character |
| FormatterProperties.IndentStringNext | crates/ferrum-core/src/formatter.rs:239-243 | one level deeper is one more indent unit |
| FormatterProperties.DefaultIndent | crates/ferrum-core/src/formatter.rs:11-18 | the default indents four spaces per level |
| FormatterProperties.NodeLineCount | crates/ferrum-core/src/formatter.rs:41-139 | a node's own line holds exactly one line feed |
| FormatterProperties.NodeTextLines | crates/ferrum-core/src/formatter.rs:41-139 | `format_node` writes exactly one line per node of the tree |
| FormatterProperties.ChildrenTextLines | crates/ferrum-core/src/formatter.rs:82-84 | the children write one line per node of their subtrees |
| FormatterProperties.ChildLines | crates/ferrum-core/src/formatter.rs:82-84 | one more child adds the lines of its subtree |
| FormatterProperties.ChildrenCountStep | crates/ferrum-core/src/formatter.rs:114-116 | the same step for a component's children |
| FormatterProperties.OneLine | crates/ferrum-core/src/formatter.rs:78-79 | a line body without line feeds, ended by one, is one line |
| FormatterProperties.JoinNewlineFree | crates/ferrum-core/src/formatter.rs:108 | joining pieces without line feeds gives none |
| FormatterProperties.ClassTokensNewlineFree | crates/ferrum-core/src/formatter.rs:64-68 | class names hold no line feed |
| FormatterProperties.ClassTextNewlineFree | crates/ferrum-core/src/formatter.rs:64-68 | the class text holds no line feed |
| FormatterProperties.GetNewlineFree | crates/ferrum-core/src/formatter.rs:59-64 | a looked-up value of line-feed-free props has none |
| FormatterProperties.OtherPropsNewlineFree | crates/ferrum-core/src/formatter.rs:71-75 | the other props' text holds no line feed |
| FormatterProperties.PropPairsNewlineFree | crates/ferrum-core/src/formatter.rs:106-107 | no pair holds a line feed |
| FormatterProperties.FormatParseText | crates/ferrum-core/src/formatter.rs:88-95 | formatting a plain text node and parsing the result gives the node back |
| FormatterProperties.FormattedText | crates/ferrum-core/src/formatter.rs:88-95 | a plain text node is written as itself on its own line |
| FormatterProperties.ParseTextLine | crates/ferrum-core/src/parser.rs:44-86 | a plain text line parses as one text node |
| FormatterProperties.LinesOfLine | crates/ferrum-core/src/parser.rs:45 | a line ended by a line feed is one line |
| FormatterProperties.FindAfter | crates/ferrum-core/src/parser.rs:45 | the line feed is found right after the line |
| FormatterProperties.ParseLineText | crates/ferrum-core/src/parser.rs:109-112 | a plain text line's outcome is a text node at its indent |
| FormatterIdempotence.FormatIdempotent | crates/ferrum-core/src/formatter.rs:29-39 | when every node `parse` returns reads back from its own formatted line, parsing the formatted text gives the same nodes and formatting it again gives the same text |
| FormatterIdempotence.PlainDocumentIdempotent | crates/ferrum-core/src/formatter.rs:29-39 | a document whose nodes are all plain text formats to a fixed point |
| FormatterIdempotence.TextReadsBack | crates/ferrum-core/src/formatter.rs:88-95 | a plain text node reads back from the line the formatter writes for it |
| FormatterIdempotence.NodeReadsBack | crates/ferrum-core/src/formatter.rs:41-139 | a childless node that reads back is written as its one line, which parses as the node |
| FormatterIdempotence.ReadBackAll | crates/ferrum-core/src/formatter.rs:29-39 | childless nodes that each read back are recovered, in order, from their formatted text |
| FormatterIdempotence.ReadBackJoin | crates/ferrum-core/src/parser.rs:45-56 | a line that parses as a node, before text with known content, puts that node first |
| FormatterIdempotence.NodesTextCons | crates/ferrum-core/src/formatter.rs:34-36 | the formatted text of top-level nodes is the first node's text and then the others' |
| FormatterIdempotence.OutcomesCons | crates/ferrum-core/src/parser.rs:48 | lines are read one at a time from the front |
| FormatterIdempotence.ContentNodesShift | crates/ferrum-core/src/parser.rs:48-53 | the content after a first line is that of the remaining lines |
| FormatterIdempotence.ContentNodesCons | crates/ferrum-core/src/parser.rs:48-53 | a first line that parses puts its node first among the content |
| FormatterIdempotence.UpToFirstParentWhole | crates/ferrum-core/src/parser.rs:71-82 | as written, a list in which only the last node can take children is returned whole |
| FormatterIdempotence.EmptyTagNotIdempotent | crates/ferrum-core/src/formatter.rs:29-39 | `<>` formats to a blank line, and a blank line formats to nothing: formatting twice differs from formatting once |
| FormatterIdempotence.EmptyTagParses | crates/ferrum-core/src/parser.rs:134-165 | `<>` parses to one element with an empty tag and no props |
| FormatterIdempotence.EmptyTagLine | crates/ferrum-core/src/parser.rs:134-165 | the line `<>` is read as that element |
| FormatterIdempotence.BlankLineParses | crates/ferrum-core/src/parser.rs:50-53 | a text of one blank line parses to no node |
| SourceExamples.SplitWhitespaceAvoids | crates/ferrum-core/src/parser.rs:168 | no word holds a character the text lacks |
| SourceExamples.SplitOnceAt | crates/ferrum-core/src/parser.rs:172-174 | splitting at the only `c` gives the text before and after it |
| SourceExamples.OnePropArguments | crates/ferrum-core/src/parser.rs:118-132 | `key: value` gives exactly the one prop `key` with `value` |
| SourceExamples.CallParts | crates/ferrum-core/src/parser.rs:90-93 | in `name(args)` the name is before the first `(` and the arguments are inside the parentheses |
| SourceExamples.ComponentOneProp | crates/ferrum-core/src/parser.rs:90-101 | `name(key: value)` parses to the component `name` with the one prop |
| SourceExamples.ComponentOnePropLine | crates/ferrum-core/src/parser.rs:48-56 | that line is the component at indent 0 |
| SourceExamples.HeadIdClass | crates/ferrum-core/src/parser.rs:172-177 | the first word `tag#id.cls` splits into its tag, id and class |
| SourceExamples.OneTokenShorthand | crates/ferrum-core/src/parser.rs:167-211 | a one-word shorthand with an id and a class is the element with the props `id` and `class` |
| SourceExamples.ShorthandIdClass | crates/ferrum-core/src/parser.rs:167-211 | `tag#id.cls` is the element `tag` with that id and class |
| SourceExamples.ShorthandIdClassLine | crates/ferrum-core/src/parser.rs:88-116 | `parse_line` reads `tag#id.cls` as that shorthand element |
| SourceExamples.ShorthandIdClassOutcome | crates/ferrum-core/src/parser.rs:48-56 | that line is the element at indent 0 |
| SourceExamples.IdClassProps | crates/ferrum-core/src/formatter.rs:59-75 | the props `id` and `class` are written `#id` and `.cls`, with no other attribute |
| SourceExamples.ShorthandIdClassText | crates/ferrum-core/src/formatter.rs:56-84 | the formatter writes that element back as the line `tag#id.cls` |
| SourceExamples.ShorthandWithoutAttributes | crates/ferrum-core/src/parser.rs:167-211 | a shorthand without `=` never panics |
| SourceExamples.ShorthandOrTextLine | crates/ferrum-core/src/parser.rs:88-116 | a non-blank line with none of `(`, `<`, `=`, `/` parses to a node |
| SourceExamples.IndentedPlainLine | crates/ferrum-core/src/parser.rs:48-56 | such a text indented by four spaces is one line that parses |
| SourceExamples.LinesOfText | crates/ferrum-core/src/parser.rs:45 | text written line by line splits back into those lines |
| SourceExamples.ContentOfParsed | crates/ferrum-core/src/parser.rs:48-83 | lines that all parse give content |
| SourceExamples.DocumentOutcomes | crates/ferrum-core/src/parser.rs:45-53 | a blank line, a first line and more lines: a skip, then the outcome of each |
| SourceExamples.ParentFirstDocument | crates/ferrum-core/src/parser.rs:44-86 | as written, a blank line, a line that opens a node at indent 0 and any lines that parse give that node alone, without children |
| SourceExamples.ButtonInputParse | crates/ferrum-core/src/parser.rs:325-341 | the component test's input parses to exactly one node, the component `Button` whose `onclick` prop is `set_count(-1)`, as that test expects |
| SourceExamples.AppInputParse | crates/ferrum-core/src/formatter.rs:248-263 | as written, the formatter test's input parses to the `div` with id `app` and class `container` alone |
| SourceExamples.AppInputFormat | crates/ferrum-core/src/formatter.rs:248-263 | the formatter test's output is exactly `div#app.container` and a line feed, so it holds neither `h1.title` nor `p.text-gray-600`, which that test expects |
| Html.PropAttributesText | crates/ferrum-dev-server/src/main.rs:488-490 | the loop writes ` key='value'` per prop, in order |
| Html.DataAttributesText | crates/ferrum-dev-server/src/main.rs:512-514 | the loop writes ` data-key='value'` per prop, in order |
| Html.ChildrenToHtml | crates/ferrum-dev-server/src/main.rs:495-497 | the loop writes every child's HTML, in order |
| Html.NodeToHtml | crates/ferrum-dev-server/src/main.rs:478-527 | every node succeeds with its HTML |
| Html.NodesToHtml | crates/ferrum-dev-server/src/main.rs:438-440 | the loop writes every node's HTML, in order |
| Html.GenerateBodyHtml | crates/ferrum-dev-server/src/main.rs:436-442 | the body is the nodes' HTML with no shell |
| Html.GenerateHtml | crates/ferrum-dev-server/src/main.rs:445-475 | the page is the fixed head with the stylesheet, the body, and the fixed tail |
| HtmlProperties.NodeHtmlTags | crates/ferrum-dev-server/src/main.rs:478-527 | each element and component writes one `<` and one `>` for its opening tag and one each for its closing tag; nothing else writes any |
| HtmlProperties.ChildrenHtmlTags | crates/ferrum-dev-server/src/main.rs:495-497 | the children write two brackets of each kind per tag node |
| HtmlProperties.ChildHtmlTags | crates/ferrum-dev-server/src/main.rs:518-520 | one more child adds its own brackets |
| HtmlProperties.ChildrenTagsStep | crates/ferrum-dev-server/src/main.rs:495-497 | the counting step for one child |
| HtmlProperties.OpenElementCount | crates/ferrum-dev-server/src/main.rs:485-492 | an opening element tag holds one of each bracket |
| HtmlProperties.OpenComponentCount | crates/ferrum-dev-server/src/main.rs:509-516 | an opening component `div` holds one of each bracket |
| HtmlProperties.ComponentOpenSplit | crates/ferrum-dev-server/src/main.rs:509-516 | the component's opening tag is bracketed text |
| HtmlProperties.CloseTagCount | crates/ferrum-dev-server/src/main.rs:499 | a closing tag holds one of each bracket |
| HtmlProperties.Bracketed | crates/ferrum-dev-server/src/main.rs:485-492 | bracketed text without brackets holds one of each |
| HtmlProperties.PropAttributesFree | crates/ferrum-dev-server/src/main.rs:488-490 | bracket-free props write no bracket |
| HtmlProperties.DataAttributesFree | crates/ferrum-dev-server/src/main.rs:512-514 | the same for `data-` attributes |
| HtmlProperties.VoidElementClosed | crates/ferrum-dev-server/src/main.rs:499 | even `br` gets a closing tag |
| HtmlProperties.BodyHtmlAppend | crates/ferrum-dev-server/src/main.rs:436-442 | the body of two node lists is the first body followed by the second |
| HtmlProperties.SilentNode | crates/ferrum-dev-server/src/main.rs:524-525 | nodes other than elements, texts and components write nothing |
| HtmlProperties.DocumentFrame | crates/ferrum-dev-server/src/main.rs:445-475 | the page starts with the doctype and ends by closing the app `div`, the body and the page |
| HtmlProperties.HeadStart | crates/ferrum-dev-server/src/main.rs:449-457 | the fixed head starts with the doctype |
| Routing.FirstMatch | crates/ferrum-core/src/routing.rs:66-73 | the index of the first route with the path, none exactly when no route has it |
| Routing.FindRouteIn | crates/ferrum-core/src/routing.rs:66-73 | a found route has the path; nothing is found exactly when no route has it |
| Routing.FirstMatchAt | crates/ferrum-core/src/routing.rs:66-73 | a match with no earlier match is the first |
| Routing.FindAfterAdd | crates/ferrum-core/src/routing.rs:33-43 | adding a route never changes what an existing path finds; only its own path starts finding it |
| Routing.Router.constructor | crates/ferrum-core/src/routing.rs:21-31 | no routes; the home route is current |
| Routing.Router.AddRoute | crates/ferrum-core/src/routing.rs:33-43 | appends a route without params or query; the current route is unchanged |
| Routing.Router.FindRoute | crates/ferrum-core/src/routing.rs:66-73 | the loop finds the first route with the path |
| Routing.Router.Navigate | crates/ferrum-core/src/routing.rs:45-64 | a found route becomes current; otherwise nothing changes; the current route is always home or a route |
| Routing.Router.CurrentRoute | crates/ferrum-core/src/routing.rs:75-77 | returns the current route |
| Routing.UseParams | crates/ferrum-core/src/routing.rs:98-101 | always the empty map |
| Routing.UseQuery | crates/ferrum-core/src/routing.rs:104-107 | always the empty map |
| Routing.Link | crates/ferrum-core/src/routing.rs:117-137 | an `a` with `href`, the navigate call as `onclick`, `class` exactly when given, and one empty `span` |
| Routing.LinkIgnoresChildren | crates/ferrum-core/src/routing.rs:117-137 | links differing only in `children` are equal |
| Component.ComponentRegistry.constructor | crates/ferrum-core/src/component.rs:39-43 | an empty registry that finds no name |
| Component.ComponentRegistry.Register | crates/ferrum-core/src/component.rs:45-48 | the name maps to the marker; every other lookup is unchanged |
| Component.ComponentRegistry.GetComponent | crates/ferrum-core/src/component.rs:50-52 | something exactly for registered names, and then the marker |
| Component.RegisterIdempotent | crates/ferrum-core/src/component.rs:45-48 | registering twice equals registering once |
| Component.RegisterCommutes | crates/ferrum-core/src/component.rs:45-48 | the order of two registrations does not matter |
| Css.NewStyle | crates/ferrum-core/src/css.rs:13-19 | no properties, pseudo-classes or media queries |
| Css.Property | crates/ferrum-core/src/css.rs:21-24 | sets one property and leaves everything else alone |
| Css.PseudoClass | crates/ferrum-core/src/css.rs:26-34 | sets one pseudo-class style and leaves everything else alone |
| Css.Hover | crates/ferrum-core/src/css.rs:26-34 | sets the `:hover` style and leaves every other selector, the properties and the media queries alone |
| Css.Focus | crates/ferrum-core/src/css.rs:26-34 | sets the `:focus` style and leaves every other selector, the properties and the media queries alone |
| Css.Media | crates/ferrum-core/src/css.rs:36-39 | appends one media query and leaves everything else alone |
| Css.PropertyLastWins | crates/ferrum-core/src/css.rs:21-24 | setting a property twice keeps the later value |
| Css.PropertiesCommute | crates/ferrum-core/src/css.rs:21-24 | distinct properties can be set in either order |
| Css.HoverFocusCommute | crates/ferrum-core/src/css.rs:26-34 | `hover` and `focus` can be set in either order |
| Css.Digit | crates/ferrum-core/src/css.rs:142-143 | a digit character |
| Css.NatText | crates/ferrum-core/src/css.rs:142-143 | decimal text: non-empty, only digits, no leading zero |
| Css.NatTextValue | crates/ferrum-core/src/css.rs:142-143 | the text reads back as the number |
| Css.QuarterText | crates/ferrum-core/src/css.rs:142-143 | `n * 0.25` as `f64` displays it: whole part and `.25`/`.5`/`.75` or nothing |
| Css.Declaration | crates/ferrum-core/src/css.rs:124-178 | a declaration ends with `;` and starts with the property |
| Css.PropertyName | crates/ferrum-core/src/css.rs:124-178 | every class names a lower-case property |
| Css.PropertyValue | crates/ferrum-core/src/css.rs:124-178 | every class has a non-empty value |
| Css.ToCss | crates/ferrum-core/src/css.rs:124-178 | every class is one declaration: a lower-case property start and a final `;` |
| Css.Declarations | crates/ferrum-core/src/css.rs:210-213 | one declaration per class, in order |
| Css.BuildEmpty | crates/ferrum-core/src/css.rs:206-222 | an empty builder builds the empty string |
| Css.BuildClassesOnly | crates/ferrum-core/src/css.rs:206-222 | with no custom styles, the build plus a space is the declarations each followed by a space |
| Css.BuildClassesFirst | crates/ferrum-core/src/css.rs:206-222 | custom styles come after the classes: the classes' build is a prefix |
| Css.BuildStartsWithFirst | crates/ferrum-core/src/css.rs:206-222 | the build starts with the first class's declaration |
| Css.BuildTextDeclarationsOnly | crates/ferrum-core/src/css.rs:206-222 | the same for any declarations |
| Css.BuildTextDeclarationsFirst | crates/ferrum-core/src/css.rs:206-222 | the same prefix fact for any declarations |
| Css.BuildTextFirst | crates/ferrum-core/src/css.rs:206-222 | the same start fact for any declarations |
| Css.SpacedEnds | crates/ferrum-core/src/css.rs:210-219 | spaced parts start with the first part and end with the last part and a space |
| Css.SpacedDeclarations | crates/ferrum-core/src/css.rs:210-213 | spaced declarations start and end, before the final space, with non-whitespace |
| Css.TrimKeepsPrefix | crates/ferrum-core/src/css.rs:221 | trimming keeps a prefix between non-whitespace characters |
| Css.TrimFinalSpace | crates/ferrum-core/src/css.rs:221 | trimming drops only the final space of spaced declarations |
| Css.TrimSpacedText | crates/ferrum-core/src/css.rs:221 | the trimmed declarations plus a space are the spaced declarations |
| Css.TrimSpacedTextFirst | crates/ferrum-core/src/css.rs:221 | trimming with custom styles keeps the trimmed declarations as a prefix |
| Css.TrimKeepsFront | crates/ferrum-core/src/css.rs:221 | trimming keeps the front of the declarations |
| Css.CssBuilder.constructor | crates/ferrum-core/src/css.rs:189-194 | no classes and no custom styles |
| Css.CssBuilder.Add | crates/ferrum-core/src/css.rs:196-199 | appends one class; custom styles unchanged |
| Css.CssBuilder.Custom | crates/ferrum-core/src/css.rs:201-204 | appends one custom style; classes unchanged |
| Css.CssBuilder.Build | crates/ferrum-core/src/css.rs:206-222 | the trimmed concatenation of every declaration and then every custom style, each followed by a space |
| Css.CssBuilder.ClassesText | crates/ferrum-core/src/css.rs:210-213 | the loop writes every declaration followed by a space |
| Css.SpacedText | crates/ferrum-core/src/css.rs:216-219 | the loop writes every part followed by a space |

## Left out

- The development server's runtime: HTTP serving, file watching, reading `.frr` files, the
  error page (`generate_error_page`), logging. These are I/O; the stylesheet the page inlines
  with `include_str!` is a parameter of `GenerateHtml`.
- `compile_frr_to_rust` and the CLI: file I/O around `parse` and `generate_rust`.
- The parser object's fields `components` and `current_indent`: never read, so the
  operations are module-level.
- The router's current route is a reactive `Signal` in the source and a plain field here
  (`state.rs` is not part of this model); client-side navigation under
  `cfg(feature = "client")` (`window.history`, routing.rs:51-62, 81-88) and `use_navigate`
  are browser calls and are left out, as is `log::debug`.
- Routing.Router.CurrentRoute: returns the current route's value, where the source returns a
  clone of the shared signal handle that later navigation updates.
- `CssUnit` and its `Display` (css.rs:54-66), `Theme::default`, `use_style` and the `css!`
  and `component!` macros: constants and macro expansion, not logic.
- `HashMap` iteration order is not fixed in Rust; the model iterates props in insertion order.
  Every property proved is a lookup property or holds for any order, except the exact text
  of generated attributes.
- Integer overflow of `usize` is not modelled; integers are unbounded.
- `PropValue::Number` and `Expression::Number` carry an `f64`; the model keeps the text it
  displays as. Floating point is left out, except the exact quarter values of `P(n)`/`M(n)`.
- The `Style` builders and `CssBuilder::add`/`custom` take `self` by value and return it;
  since ownership moves, updating in place (a class for `CssBuilder`, values for `Style`)
  gives the same results.
- Formatter.FormatChildren and Css.CssBuilder.Build: they collect text in a local string
  before appending it, instead of writing into the output directly; the text is the same.
- `generate_rust`, `node_to_rust` and the formatter return a `Result` whose error path never
  occurs (`write!` to a `String` cannot fail); the model's generators return plain strings.
- The parser never produces `Import` or `Expression` nodes; the formatter's handling of them
  is modelled on the shared node datatype, which holds all six variants.
- The formatter matches on enum variants the parser's enum in the same crate does not
  declare; the model follows the formatter's code.
- Formatter.Format: formatting twice is proved to give the same text only for documents whose
  every parsed node reads back from its own formatted line (FormatterIdempotence.FormatIdempotent);
  it does not hold in general, since `<>` formats to a blank line, which formats to nothing
  (FormatterIdempotence.EmptyTagNotIdempotent).
- Parser.Indent: the source subtracts the trimmed length from the line length in bytes, so
  trailing whitespace counts as indent; the model keeps that.

## Findings

| source | as written | input that shows it | evidently intended | confidence | as-written member | corrected member |
|---|---|---|---|---|---|---|
| crates/ferrum-core/src/parser.rs:263, :283 | a childless element or component is closed with `push_str("/>\n}}")`, a plain literal, so it writes two `}` after the single `{` of `view! {` | the element line `<br>`: one `{`, two `}` | one closing brace, as in the branch with children | high; not executed | ViewCodeProperties.AsWrittenUnbalanced | ViewCodeProperties.GenerateRustBalanced |
| crates/ferrum-core/src/parser.rs:71-82 | the parent on the stack and the node in the result are separate values, so children are added only to the stack's copy and never reach the result | the text `<div>`, a line feed and `  hello` returns the `div` without children; the formatter test's input (formatter.rs:248-263) formats to `div#app.container` alone, without the `h1.title` that test looks for | the child is attached to the returned parent | high; not executed | ParserExamples.IndentedChildInput, SourceExamples.AppInputFormat | ParserExamples.IndentedChildInputCorrected, ParserTree.ParseTreeLines |
| crates/ferrum-core/src/parser.rs:58-60, :67-69 | the stack is popped to `indent / 2 + 1` entries, so a line at indent 0 stays inside the node opened before it | the text `<div>`, a line feed and `hello`, both unindented: `hello` is lost from the result | `indent / 2` open ancestors, so the two are siblings | high; not executed | ParserExamples.UnindentedSiblingInput | ParserExamples.UnindentedSiblingInputCorrected, ParserTree.TopLevelLine |
