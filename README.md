# odf-report core, modelled in Dafny

odf-report fills OpenDocument templates (`.odt` files) with report data. This
project models four pieces of it:

- **The HTML-to-ODF converter** (`ODFReport::Parser::Default`). It parses an
  HTML fragment and picks its block elements with one `css` query of twelve
  selectors (headings, paragraphs, `pre`, `blockquote`, lists and tables).
  Nokogiri answers such a query per top-level node, grouped by selector in
  the order of the `css` arguments: for each top-level node in turn, the
  matches of `h1` in document order, then those of `h2`, and so on up to
  `table`. So a `p` inside a table comes before the table, and the
  paragraphs inside a blockquote come before the blockquote. A list is skipped
  when `ancestors("ul")` or `ancestors("ol")` reports an enclosing list, and a
  table when `ancestors("table")` reports an enclosing table. `ancestors`
  never reports the fragment's top-level node, which has no parent. So a list
  whose only enclosing list is a top-level node is converted on its own, after
  being converted once already as part of the outer list; the same holds for
  a table inside a top-level table. Each chosen element goes
  through `parse_formatting`. That step re-parses the element, drops elements
  whose class is on the removal list, and then runs a fixed series of
  rewrite passes. The passes turn HTML elements into ODF `text:` and `table:`
  elements: line breaks, paragraphs, inline spans, links, list items, lists,
  table cells, rows, `tbody` unpacking and tables (with a column declaration).
  `check_style` picks an element's style name from its tag, its `class`
  (after removing configured prefixes and suffixes) and its `text-align`
  style.
- **Style creation** (`ODFReport::Style`). From a style token it builds a
  `style:style` element and appends it to the document's automatic styles.
  The `pre` and `code` tokens also need the Courier New font face, which is
  added to the font-face declarations.
- **Bookmark replacement** (`ODFReport::Bookmark#replace!`). A point bookmark
  gets the value inserted right after it. For a start/end range, the text
  between the two markers is removed first, and then the value is inserted.
- **Bookmark reading** (`ODFReport::BookmarkReader`). For each requested name,
  or for every bookmark in the document, it collects the text after a point
  bookmark and the text inside a range, as `[name, text]` pairs.

Markup trees are values (`Html.Node`). Ruby code that raises becomes
`Result.Raised`, and Ruby `nil` becomes `Option.None`. Code that mutates
objects keeps its shape: `Styles.Style`, `Styles.Content`,
`Bookmarks.Document`, `Bookmarks.Bookmark` and
`BookmarkReading.BookmarkReader` are classes, and the loops of `parse`,
`find_bookmark_nodes`, the range removal and `get_bookmark_content` are
methods with loop invariants. Each of these is proved against a
specification function. The lemmas then prove what the source promises
about that function.

Modules, in dependency order:

- `Html` (html.dfy): nodes, `Result`/`Option`, Ruby's `\s` and `blank?` character classes, `downcase`, `Integer#to_s`.
- `Trees` (trees.dfy): sizes, element names and text of trees.
- `ClassNames` (class_names.dfy): `split(/\s+/)`, `join(" ")`, `remove_prefixes`, `remove_suffixes`.
- `StyleNames` (check_style.dfy): `check_style`.
- `Formatting` (formatting.dfy) and `FormattingProps` (formatting_props.dfy): `parse_formatting`, `text_node`, `blank_node`, `table_node`, `INLINE`/`TEXTINLINE`.
- `TagRules` (tag_rules.dfy): what each renaming rule makes of its tag, and what `parse_formatting` makes of roots, list-item and cell children, wrappers and blockquotes whose content the rules leave alone.
- `Parser` (parser.dfy) and `ParserProps` (parser_props.dfy): `parse`, with the `css` query modelled per top-level node, grouped by selector.
- `Styles` (style.dfy) and `StyleProps` (style_props.dfy): `Style`.
- `Bookmarks` (bookmark.dfy), `BookmarkReading` (bookmark_reader.dfy), `BookmarkProps` (bookmark_props.dfy) and `BookmarkRoundTrip` (bookmark_round_trip.dfy): bookmarks.

## Model

| member | source | states |
|---|---|---|
| Parser.Parse | lib/odf-report/parser/default.rb:42-89 | The candidate loop gives exactly `ParseSpec`: each selected element's entries, appended in the order of the query (per top-level node, grouped by selector in the order of the `css` arguments, document order within a selector). A list or table is skipped exactly when an ancestor other than the top-level node is a list (or a table), so lists and tables right below a top-level list or table are converted again. The first conversion that raises makes the whole parse raise. |
| ParserProps.CandidatesSound | lib/odf-report/parser/default.rb:46 | Every candidate is an element with one of the twelve queried tag names, and it really occurs in one of the fragment's top-level nodes at the recorded ancestor path. |
| ParserProps.CandidatesComplete | lib/odf-report/parser/default.rb:46 | Every element with a queried tag, at any depth below any top-level node, is a candidate, together with its ancestor names. |
| ParserProps.CandidatesGrouped | lib/odf-report/parser/default.rb:46 | Within the candidates of one top-level node, everything before a match of the k-th selector matches one of the first k selectors: a later selector's match never precedes an earlier selector's. |
| ParserProps.GroupedOrder | lib/odf-report/parser/default.rb:46 | The same for any list of distinct selectors. |
| ParserProps.CandidatesAppend | lib/odf-report/parser/default.rb:46 | The candidates of two runs of top-level nodes are those of the first run followed by those of the second. |
| ParserProps.QuoteCandidates | lib/odf-report/parser/default.rb:46 | For a blockquote of plain paragraphs, the query gives every paragraph first, in order and with the blockquote as ancestor, then the blockquote itself. |
| ParserProps.ListCandidates | lib/odf-report/parser/default.rb:46 | For a list whose only queried descendants are lists, the query gives the `ul` matches, then the `ol` matches. |
| ParserProps.EmitAllAfter | lib/odf-report/parser/default.rb:46-86 | Appending candidates after ones that convert without raising prefixes their entries to what the rest gives, raising included. |
| ParserProps.EmitAllJoined | lib/odf-report/parser/default.rb:46-86 | The paragraph list of candidates is their outcomes joined in order: the first one that raises makes the whole raise. |
| ParserProps.JoinedAppend | lib/odf-report/parser/default.rb:46-86 | Joining outcomes that do not raise and then more outcomes puts the first entries before whatever the rest gives. |
| ParserProps.EmitBlock | lib/odf-report/parser/default.rb:54-56 | A heading, `p` or `pre` that is not removed contributes exactly its converted root (nil included). |
| ParserProps.EmitBlockquote | lib/odf-report/parser/default.rb:78-82 | A blockquote that is not removed and whose conversion gives a root contributes exactly that root's children, one entry each, in order. |
| ParserProps.EmitBlockquoteGone | lib/odf-report/parser/default.rb:79-80 | When the blockquote's converted root is gone (`nil.children`) or its conversion raises, the candidate raises. |
| ParserProps.EmitNestedList | lib/odf-report/parser/default.rb:60-64 | A list for which `ancestors` reports an enclosing `ul` or `ol` contributes nothing. The top-level node is never reported. |
| ParserProps.EmitList | lib/odf-report/parser/default.rb:60-64 | A list that is not removed and for which `ancestors` reports no enclosing list contributes exactly its converted root, and raises exactly when the conversion raises. |
| ParserProps.EmitNestedTable | lib/odf-report/parser/default.rb:69-73 | A table for which `ancestors` reports an enclosing table contributes nothing. |
| ParserProps.EmitTable | lib/odf-report/parser/default.rb:69-73 | A table that is not removed and for which `ancestors` reports no enclosing table contributes exactly its converted root, and raises exactly when the conversion raises. |
| ParserProps.BlockquoteParagraphTwice | lib/odf-report/parser/default.rb:46-82 | For a blockquote holding any list of paragraphs, the paragraph list is first every paragraph on its own, in order, as a `text:p` styled by `check_style` with the document as parent (`paragraph` unless class or alignment decide), because the `p` selector comes before `blockquote`; then every paragraph again, in the same order, styled under the blockquote (`quote` unless class or alignment decide). |
| ParserProps.RemovedDoomed | lib/odf-report/parser/default.rb:48 | A candidate the loop skips for its class would also be removed by `parse_formatting`, whose test is a substring test on the joined list (lines 101-105). |
| ParserProps.NoNamedAll | lib/odf-report/parser/default.rb:46 | A selector whose name does not occur in the nodes matches nothing. |
| ParserProps.ParagraphCandidates | lib/odf-report/parser/default.rb:46 | Among paragraphs without queried names inside, the `p` selector matches each paragraph once, in order, with the given ancestors. |
| ParserProps.EmitParagraphs | lib/odf-report/parser/default.rb:54-56 | Such paragraphs converted on their own give one `text:p` each, in order, styled by `check_style` with the document as parent. |
| ParserProps.NestedListEntries | lib/odf-report/parser/default.rb:46-64 | For any `ul` or `ol` whose only queried descendants are lists, at any depth, the paragraph list is exactly that of the candidates with no reported enclosing list, and the outer list is one of them. |
| ParserProps.UnnestedMember | lib/odf-report/parser/default.rb:61 | A candidate is kept as unnested exactly when it is a candidate and `ancestors` reports neither `ul` nor `ol` for it. |
| ParserProps.EmitAllUnnested | lib/odf-report/parser/default.rb:46-64 | Among lists, dropping the candidates with a reported enclosing list leaves the paragraph list unchanged. |
| ParserProps.UnnestedComplete | lib/odf-report/parser/default.rb:46-64 | Every list below a top-level node whose ancestors below the top-level node hold no list is an unnested candidate, with its ancestor path. |
| ParserProps.ListsOnly | lib/odf-report/parser/default.rb:46 | The candidates of a list whose only queried descendants are lists are all lists. |
| ParserProps.NestedListTwice | lib/odf-report/parser/default.rb:44-64 | For a `ul` whose one item holds text and an inner `ul` (with no queried names inside), the paragraph list is the converted outer list followed by the converted inner list: the inner list is converted a second time, because its only enclosing list is the top-level node. |
| ParserProps.ListInListCandidates | lib/odf-report/parser/default.rb:46 | For that list, the query gives the outer list, then the inner list with ancestors `ul`, `li`. |
| ParserProps.NestedTableTwice | lib/odf-report/parser/default.rb:44-73 | For a `table` whose one cell holds an inner `table` (with no queried names inside), the paragraph list is the converted outer table followed by the converted inner table. |
| ParserProps.TableInTableCandidates | lib/odf-report/parser/default.rb:46 | For that table, the query gives the outer table, then the inner table with ancestors `table`, `tr`, `td`. |
| ParserProps.TableCandidates | lib/odf-report/parser/default.rb:46 | For a table whose only queried descendants are tables, the query gives exactly the `table` matches. |
| ParserProps.SpecOfOne | lib/odf-report/parser/default.rb:46-86 | The paragraph list of one top-level node is the outcome of that node's candidates. |
| ParserProps.TwoEntries | lib/odf-report/parser/default.rb:46-86 | Two candidates that each contribute one entry give those two entries in order. |
| Formatting.ParseFormatting | lib/odf-report/parser/default.rb:94-329 | A converted root is an element with no structure left to convert. It contains none of `li`, `ul`, `ol`, `td`, `tr`, `table`, `tbody` and `br`. A root that is not an HTML tag keeps its name and attributes. What each other tag becomes is stated in `TagRules`. |
| Formatting.Passes | lib/odf-report/parser/default.rb:138-326 | After all the passes, the only closed HTML tag a tree can keep is a `br` that was already present, and structure never grows. |
| Formatting.Reparse | lib/odf-report/parser/default.rb:96 | Re-parsing the serialised element keeps the element names, the attributes and the structure. |
| FormattingProps.ReparseIdempotent | lib/odf-report/parser/default.rb:96 | Re-parsing twice equals re-parsing once. |
| Formatting.Prune | lib/odf-report/parser/default.rb:101-105 | Removing classed elements only removes names and structure, and the root is kept. |
| FormattingProps.PruneComplete | lib/odf-report/parser/default.rb:101-105 | After pruning, no element below the root has a class that occurs in the joined removal list. |
| Formatting.Rewrite | lib/odf-report/parser/default.rb:138-222 | One `replace` pass never adds `li`, `ul`, `ol`, `td`, `tr`, `table`, `tbody` or `br`, removes every `br` in the line-break pass, and never adds structure. An unselected root keeps its name and attributes. |
| FormattingProps.RewriteKeepsText | lib/odf-report/parser/default.rb:147-197 | Every pass except the line-break pass keeps the text of the tree. |
| Formatting.LinkAttrs | lib/odf-report/parser/default.rb:202-222 | A link with an `href` gets exactly `xlink:href` (the href), `office:target-frame-name` `_top` and `xlink:show` `replace`. Without an `href` it gets no attributes. |
| Formatting.CellAttrs | lib/odf-report/parser/default.rb:272-291 | A table cell gets style `td`. A column or row span is copied exactly when `colspan` or `rowspan` is present. No other attribute is set. |
| FormattingProps.DirectText | lib/odf-report/parser/default.rb:231-247 | Non-blank direct text of a list item or table cell is wrapped in a `text:p` carrying the item's style. Blank direct text is removed. |
| FormattingProps.TextItems | lib/odf-report/parser/default.rb:231-291 | A list item or cell holding text becomes `text:list-item` or `table:table-cell` around one `text:p` styled `li` or `p`. |
| FormattingProps.BlankItems | lib/odf-report/parser/default.rb:231-291 | A list item or cell holding only blank text becomes an empty item or cell. |
| Formatting.Build | lib/odf-report/parser/default.rb:231-326 | A structural tag becomes its ODF replacement with nothing left to convert inside. A `li` becomes a `text:list-item` without attributes and a `td` a `table:table-cell` with the cell attributes; each holds exactly the converted children (styles `li` and `p`) and raises exactly when converting them raises. `ul`/`ol` get `text:style-name` set to the tag, `tr` gets style `tr`, and `table` gets style `table` and template `Academic`. A table begins with the column declaration. |
| TagRules.RuleIndex | lib/odf-report/parser/default.rb:138-222 | Each renaming tag has a rule that selects it. |
| TagRules.OtherRulesSkip | lib/odf-report/parser/default.rb:138-222 | No other renaming rule selects that tag. |
| TagRules.BreakRule | lib/odf-report/parser/default.rb:138 | A `br` becomes a bare `text:line-break`. |
| TagRules.BlockRule | lib/odf-report/parser/default.rb:147-162 | A heading, `p` or `pre` becomes a `text:p` styled by `check_style` with its parent, holding the same children. |
| TagRules.SpanRule | lib/odf-report/parser/default.rb:171-197 | A span tag becomes a `text:span` with its style (bold, italic, underline, strikethrough, sup, sub, code), holding the same children; a `strong` inside a `strong` therefore survives the bold rule. |
| TagRules.AnchorRule | lib/odf-report/parser/default.rb:202-222 | An `a` with children becomes a `text:a` with the link attributes around one span styled `a` holding the children. An `a` without children stays as it is: the bookmark element built for it is never inserted. |
| TagRules.RootConverted | lib/odf-report/parser/default.rb:94-222 | `parse_formatting` on an element of a renaming tag whose children need no conversion gives that tag's conversion as its root: line break, styled `text:p` with the document as parent, styled span, link, or the unchanged childless `a`. |
| TagRules.InlineChild | lib/odf-report/parser/default.rb:240-243 | An inline child of a list item or cell is wrapped in a `text:p` of the item's style, and the span or link rule converts it inside that paragraph. |
| TagRules.SettledChild | lib/odf-report/parser/default.rb:240-243 | A child element needing no conversion is wrapped in a `text:p` of the item's style when it is inline or converted-inline, and kept as it is otherwise. |
| TagRules.ItemChildren | lib/odf-report/parser/default.rb:235-244 | The children of a list item or cell come out one by one, in order: present text and inline elements wrapped in paragraphs of the item's style, blank text dropped, other elements kept. |
| TagRules.ItemBuilt | lib/odf-report/parser/default.rb:231-291 | A `li` becomes a `text:list-item` and a `td` a `table:table-cell` with the cell attributes, each holding that content (styles `li` and `p`). |
| TagRules.WrapperAround | lib/odf-report/parser/default.rb:252-326 | A `ul`, `ol`, `tr` or `table` whose items, cells or rows are converted already becomes its wrapper with the literal ODF attributes around those children. A table gets the column element first, and raises without children. |
| TagRules.ParagraphInBlockquote | lib/odf-report/parser/default.rb:157 | `parse_formatting` on a blockquote holding any list of paragraphs keeps the blockquote and turns each paragraph, in order, into a `text:p` styled by `check_style` with the blockquote as parent. |
| TagRules.ParagraphsRewritten | lib/odf-report/parser/default.rb:157 | The paragraph rule converts each paragraph of a list in place, in order. |
| Formatting.AddColumn | lib/odf-report/parser/default.rb:312-326 | Adding the column declaration raises exactly when the table has no children. Otherwise the declaration becomes the first child. |
| FormattingProps.EmptyTableRaises | lib/odf-report/parser/default.rb:312-326 | Converting a table with no children raises. |
| FormattingProps.ColumnCountMax | lib/odf-report/parser/default.rb:318-325 | The column count is empty exactly when there is no row. Otherwise it is the decimal digits of the largest number of direct cells in any row. |
| Formatting.TbodyPass | lib/odf-report/parser/default.rb:304-307 | Unpacking `tbody` removes every `tbody` and keeps the structure. A root that is not a `tbody` keeps its name and attributes. |
| FormattingProps.UnpackAround | lib/odf-report/parser/default.rb:304-307 | Around any `tbody` with any siblings, the children that are not `tbody` stay in order, and after them come what the siblings before spill, the `tbody`'s own children unpacked, and what the siblings after spill. |
| FormattingProps.TbodyMovesToEnd | lib/odf-report/parser/default.rb:304-307 | For any siblings `xs` and `ys` and children `ts` without a further `tbody`, unpacking `xs + [tbody(ts)] + ys` gives `xs + ys + ts`. |
| FormattingProps.KeepAppend | lib/odf-report/parser/default.rb:304-307 | The children kept in place by unpacking a concatenation are the kept children of each part. |
| FormattingProps.SpillAppend | lib/odf-report/parser/default.rb:304-307 | The children spilled from a concatenation are the spilled children of each part, in order. |
| StyleNames.HeadingAt | lib/odf-report/parser/default.rb:377 | Finds the first `h` or `H` that is followed by a digit anywhere in the name, or reports that there is none. |
| StyleNames.DefaultTier | lib/odf-report/parser/default.rb:377-396 | Without a class or an alignment, the style is `hN` for a heading (lower-cased), `quote` for a `p` in a blockquote, `pre` for `pre` and `paragraph` for another `p`. |
| StyleNames.ClassTier | lib/odf-report/parser/default.rb:403-408 | A present class overrides the tag's style, after prefix and then suffix removal. Without prefixes or suffixes the class is used as it is. |
| StyleNames.AlignmentTier | lib/odf-report/parser/default.rb:413-422 | The first matching `text-align` keyword, in the order center, left, right, justify, overrides everything else. |
| StyleNames.OptionsNeedClass | lib/odf-report/parser/default.rb:403-408 | Without a class, the prefix and suffix options do not affect the style. |
| StyleNames.StyleCandidates | lib/odf-report/parser/default.rb:370-425 | The style is an alignment keyword, the tag's default style or the processed class. |
| StyleNames.AlignsWritten | lib/odf-report/parser/default.rb:413-422 | `text-align:` followed by white space and a keyword is recognised wherever it occurs in the style. |
| ClassNames.SplitJoin | lib/odf-report/parser/default.rb:428-430 | Splitting the space-joined pieces of a well-formed split gives the pieces back. |
| ClassNames.RemovePrefixesPieces | lib/odf-report/parser/default.rb:427-431 | `remove_prefixes` handles each class of the split separately. |
| ClassNames.RemoveSuffixesPieces | lib/odf-report/parser/default.rb:433-437 | `remove_suffixes` handles each class of the split separately. |
| ClassNames.StripPrefixFirstWins | lib/odf-report/parser/default.rb:428-430 | The first listed prefix that matches is stripped. The class is kept whole when the rest would be blank. |
| ClassNames.StripSuffixFirstWins | lib/odf-report/parser/default.rb:434-436 | The first listed suffix that matches is stripped. The class is kept whole when the rest would be blank. |
| ClassNames.StripPrefixBeyondThird | lib/odf-report/parser/default.rb:430 | A prefix after the third one never takes effect, because the block reads only the first three captures. |
| ClassNames.RemovePrefixesPresent | lib/odf-report/parser/default.rb:403-408 | Prefix removal keeps a present class present. |
| Html.NatToStringValue | lib/odf-report/parser/default.rb:325 | The decimal rendering of a count has that count as its value. |
| Styles.Style.constructor | lib/odf-report/style.rb:4-7 | A new style holds its token and no font. |
| Styles.Style.CreateStyle | lib/odf-report/style.rb:34-263 | Builds exactly `StyleNode(token)`. It records the Courier New font for `pre` and `code` and leaves the font alone otherwise. |
| Styles.Style.CreateFont | lib/odf-report/style.rb:25-32 | Builds the font-face element of the recorded font. |
| Styles.Style.AddStyle | lib/odf-report/style.rb:10-21 | The new font and the new document are exactly `AddedStyle` of the old ones. |
| Styles.AddedStyle | lib/odf-report/style.rb:10-21 | The style is appended only when automatic styles exist. A font face is appended only when the declarations exist and a font is set, whether set now or earlier. Nothing else changes. |
| Styles.StyleNode | lib/odf-report/style.rb:34-263 | Every token yields a `style:style` element. |
| Styles.FontFace | lib/odf-report/style.rb:25-32 | The font face has exactly the four font attributes and no children. |
| Styles.AssignKeys | lib/odf-report/style.rb:43-258 | After a series of attribute writes, a key is set exactly when it was set before or some write names it. |
| Styles.AssignLastWins | lib/odf-report/style.rb:43-258 | The last write to a key decides its value. |
| StyleProps.TextStyle | lib/odf-report/style.rb:43-48 | An inline token gets its own name, family `text` and one `style:text-properties` holding the token's writes. |
| StyleProps.TextPositions | lib/odf-report/style.rb:142-144 | Bold sets both font weights. `sup` and `sub` set `super 58%` and `sub 58%` (lines 223-227). |
| StyleProps.HeadingStyle | lib/odf-report/style.rb:50-61 | A heading token gets the paragraph family, parent `body`, next style `subparagraph` and the captured digit as its outline level. Its paragraph and text properties come from lines 160-175. |
| StyleProps.HeadingLevel | lib/odf-report/style.rb:50-61 | `hN` and `HN` get outline level `N`. |
| StyleProps.HeadingMarginLeft | lib/odf-report/style.rb:160-175 | For headings, the second `fo:margin-left` write (`1.25cm`) wins over the first. |
| StyleProps.ParagraphTokenStyle | lib/odf-report/style.rb:63-74 | `:p` gets the paragraph family, parent `body`, next style `paragraph`, an empty outline level (`$1` is nil after the failed heading match) and empty property elements. |
| StyleProps.SubparagraphTokenStyle | lib/odf-report/style.rb:76-87 | `:subparagraph` gets the paragraph family, parent `paragraph`, next style `subparagraph`, an empty outline level and empty property elements. |
| StyleProps.AlignStyle | lib/odf-report/style.rb:89-95 | An alignment token gets parent `paragraph` and `fo:text-align` set to itself (lines 177-178). |
| StyleProps.TableStyle | lib/odf-report/style.rb:108-113 | `:table` gets exactly the name and family `table`, and exactly one child: `style:table-properties` with width 100%, margins 0.5cm above and below and 0cm either side, and left alignment (lines 236-242). |
| StyleProps.QuoteStyle | lib/odf-report/style.rb:97-106 | `:quote` gets exactly the name, the paragraph family and parent `body` (no next style), and exactly its paragraph properties (justified, 150% line height, 0.5cm above and below, 1cm either side) and text properties (hyphenated, italic) from lines 180-190. |
| StyleProps.PreStyle | lib/odf-report/style.rb:97-106 | `:pre` gets exactly the name, the paragraph family and parent `body`, and exactly its paragraph properties (left, 100%, the margins, transparent background, 0.05cm padding, a 0.06pt black border) and text properties (hyphenated, normal style, font `Courier New`) from lines 192-206. |
| StyleProps.RowStyle | lib/odf-report/style.rb:115-120 | `:tr` gets family `table-row` and empty row properties. |
| StyleProps.ColumnStyle | lib/odf-report/style.rb:122-127 | `:tc` gets family `table-column` and column width `auto` (lines 247-248). |
| StyleProps.CellStyle | lib/odf-report/style.rb:129-134 | `:td` gets family `table-cell` and the cell property writes of lines 250-258. |
| StyleProps.CellBorder | lib/odf-report/style.rb:250-258 | For cells, the second `fo:border` write (`0.06pt solid #000000`) wins. |
| StyleProps.UnknownArm | lib/odf-report/style.rb:41-135 | A token matches no branch exactly when it is not a known symbol and contains no `h` followed by a digit. |
| StyleProps.UnknownToken | lib/odf-report/style.rb:41-135 | A token that matches no branch yields a bare `style:style` element, and only such a token does. |
| StyleProps.FontTokens | lib/odf-report/style.rb:192-221 | A font is recorded exactly for `:pre` and `:code`. |
| StyleProps.FontPersists | lib/odf-report/style.rb:16-19 | A font recorded by an earlier call is still declared by a later call, even when that later document has no automatic styles. |
| StyleProps.NoFontElsewhere | lib/odf-report/style.rb:16-19 | Other tokens add no font face. |
| StyleProps.CourierFace | lib/odf-report/style.rb:207-212 | The font face is Courier New, `'Courier New'`, `system`, `fixed`. |
| Bookmarks.MarkersSpec | lib/odf-report/bookmark.rb:47 | The markers found are exactly the point and start markers of the name, in document order. |
| Bookmarks.RemovedKeepsMarkers | lib/odf-report/bookmark.rb:24-28 | Removing range text keeps the number of markers. |
| Bookmarks.Bookmark.FindBookmarkNodes | lib/odf-report/bookmark.rb:40-52 | The nested scan returns exactly `Markers`. |
| Bookmarks.Bookmark.RemoveRangeText | lib/odf-report/bookmark.rb:24-28 | Scanning one paragraph keeps exactly the survivors, meaning the children that are not range text. |
| Bookmarks.Bookmark.RemoveRange | lib/odf-report/bookmark.rb:24-28 | The loop over paragraphs computes `RangeRemoved`. |
| Bookmarks.Bookmark.Replace | lib/odf-report/bookmark.rb:5-36 | The document becomes exactly `ReplaceSpec` of the old document. |
| BookmarkProps.ReplaceKeepsMarkup | lib/odf-report/bookmark.rb:5-36 | Replacement changes text only. Every paragraph keeps its markers and other non-text children in order. |
| BookmarkProps.PointCase | lib/odf-report/bookmark.rb:17-18 | For a point bookmark, the value is inserted right after the last marker of the name, and nothing else changes. |
| BookmarkProps.RemovedSettled | lib/odf-report/bookmark.rb:24-28 | After the removal, no text lies between a start and an end of the name. |
| BookmarkProps.RangeCase | lib/odf-report/bookmark.rb:20-30 | For a range bookmark, the only text left inside a range of the name is the inserted value. The result is the document without range text, with the value inserted right after the original last marker at its new place, and nothing else changed. |
| BookmarkProps.RangeInsert | lib/odf-report/bookmark.rb:24-30 | The range replacement is the document without range text, with the value inserted right after the original last marker at its new index, and nothing else changed. |
| BookmarkProps.RangeKeepsChild | lib/odf-report/bookmark.rb:20-30 | Every child that is not range text, text outside every range included, is still in its paragraph after a range replacement. |
| BookmarkProps.RangeKeepsOrder | lib/odf-report/bookmark.rb:24-28 | Those kept children stay in their original order. |
| BookmarkProps.RemovedLastMarker | lib/odf-report/bookmark.rb:24-30 | After the range text is removed, the last marker of the name is the original last marker, moved to its index among the surviving children. |
| BookmarkProps.RemovedKeeps | lib/odf-report/bookmark.rb:24-28 | Every child that is not range text survives the removal, at the index given by the survivors before it. |
| BookmarkProps.SurvivorsGrow | lib/odf-report/bookmark.rb:24-28 | Surviving children keep their order: a kept child has fewer survivors before it than any later child. |
| BookmarkProps.RemovedFrom | lib/odf-report/bookmark.rb:24-28 | Every child after the removal is a child of the original paragraph that was not range text. |
| BookmarkProps.LastIsMax | lib/odf-report/bookmark.rb:32-34 | Every marker of the name is the last marker or comes before it in document order. |
| BookmarkReading.BookmarkReader.constructor | lib/odf-report/bookmark_reader.rb:7-9 | The reader holds the optional name. |
| BookmarkReading.BookmarkReader.GetBookmarkContent | lib/odf-report/bookmark_reader.rb:11-36 | The loop over names returns exactly `ReadSpec` of the queried names. It does not change the document. |
| BookmarkProps.TextsNonEmpty | lib/odf-report/bookmark_reader.rb:23-32 | A query yields some text exactly when some text child is selected. |
| BookmarkProps.PairsShape | lib/odf-report/bookmark_reader.rb:23-32 | Each name gives at most two pairs, all carrying that name. The point pair comes first and the range pair last, each present exactly when its query selects something. |
| BookmarkProps.ReadAppend | lib/odf-report/bookmark_reader.rb:19-34 | Reading `a + b` is reading `a` followed by reading `b`. |
| BookmarkProps.NamedRead | lib/odf-report/bookmark_reader.rb:15 | A reader with a name reports only pairs of that name. |
| BookmarkProps.AllNamesSpec | lib/odf-report/bookmark_reader.rb:16 | Without a name, a name is queried exactly when the document has a point or start marker of it. |
| BookmarkRoundTrip.PointRoundTrip | lib/odf-report/bookmark.rb:17-18 | Replacing a point bookmark that is followed only by markup, then reading the name, gives exactly `[(name, value)]` (bookmark_reader.rb:23-24). |
| BookmarkRoundTrip.RangeRoundTrip | lib/odf-report/bookmark.rb:20-30 | Replacing a single start/end pair around any text and other markup, then reading the name, gives exactly `[(name, value)]` (bookmark_reader.rb:29-32). |

## Left out

- The class prefix and suffix passes of `parse_formatting` (default.rb lines 110-129) are not modelled. They put the option (an array) into a regular expression and an XPath string literal as text, and that behaviour depends on Ruby's string conversion of arrays and on Nokogiri's XPath parsing.
- Prefixes, suffixes and class names are matched as literal strings. Characters with a regular-expression meaning inside a prefix are not interpreted.
- Namespaces, XML serialisation details, entity decoding and XPath quoting of names (a quote in a bookmark name) are not modelled. Element names are compared as plain strings.
- `downcase` is modelled for ASCII letters only.
- Formatting.Rewrite: a pass rewrites the topmost matches. A match nested inside another match of the same pass stays as it was, because in the source it belongs to the detached original. The model works on tree values, so it does not capture node identity, in-place mutation or Nokogiri merging adjacent text nodes after a replace.
- Formatting.AddColumn: the column count is computed on the tree as it is when the table pass starts. Rows do not change during that pass, so the model does not follow the node-by-node timing of the table loop.
- Attribute order on elements is not modelled. Attributes are maps.
- `sanitize(get_value(data_item))` in `replace!` is the `value` parameter. Value lookup and sanitising belong to the field machinery (the `Field` base class), which is not part of this model.
- Bookmark documents are flat paragraphs: a sequence of paragraphs, each a sequence of text, markers and other nodes. Markers nested inside spans, and text nested below a paragraph's children, are not modelled. The XPath sibling axes in the source only see siblings, so the model keeps that relation.
- Bookmarks.Bookmark.Replace: after removing range text, the model re-finds the last marker in the new document, where the source keeps the node reference. `RemovedLastMarker` shows that both are the same marker: the last marker after the removal is the original last marker at its new index.
- BookmarkRoundTrip.PointRoundTrip and BookmarkRoundTrip.RangeRoundTrip are stated for one paragraph with one bookmark of the name. Documents holding several bookmarks of the same name read back the joined texts, and that is covered by `ReadSpec` but not by a round-trip lemma.
- TagRules.RootConverted, TagRules.InlineChild, TagRules.ItemChildren and TagRules.WrapperAround are stated for elements whose children need no further conversion (no HTML tag below them). Deeper trees are covered by `Formatting.ParseFormatting`'s general contract, not by a tag-by-tag equation.
- ParserProps.BlockquoteParagraphTwice and TagRules.ParagraphInBlockquote are stated for blockquotes whose children are all paragraphs whose own children need no conversion. Other blockquote content is covered by `ParserProps.EmitBlockquote`.
- ParserProps.NestedListTwice and ParserProps.NestedTableTwice are stated for one list item holding text and the inner list, and for one row with one cell holding the inner table. Other nestings follow from `ParseSpec` and, for lists, from `ParserProps.NestedListEntries`.
- `Parser::Default#initialize` (HTML parsing by Nokogiri, option reading) is not modelled. `Parser.Parse` takes the parsed fragment and the options as parameters, and the paragraph list is its result.
- template.rb, report.rb, section_reader.rb, field handling and the ODF zip/file handling are not part of this model.
