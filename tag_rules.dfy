/** What the renaming rules of `parse_formatting`
    (lib/odf-report/parser/default.rb) make of each HTML tag: a line break, a
    paragraph styled by `check_style`, a styled span, or a link around a span;
    and what `parse_formatting` then makes of a root, a list-item child or a
    blockquote whose content the rules leave alone. */
module TagRules {
  import opened Html
  import opened Trees
  import opened StyleNames
  import opened Formatting
  import opened FormattingProps

  /** The tags of the heading, paragraph and `pre` rules. */
  const BlockRuleTags: set<string> := {"h1", "h2", "h3", "h4", "h5", "h6", "p", "pre"}

  /** The tags of the inline span rules. */
  const SpanTags: set<string> := {"strong", "b", "em", "i", "ins", "u", "del", "strike", "sup", "sub", "code"}

  /** The tags of the renaming rules. */
  const RenameTags: set<string> := {"br", "a"} + BlockRuleTags + SpanTags

  /** The span style of an inline tag: bold, italic, underline,
      strikethrough, and `sup`, `sub` and `code` for themselves. */
  function SpanStyle(t: string): string {
    if t in {"strong", "b"} then "bold"
    else if t in {"em", "i"} then "italic"
    else if t in {"ins", "u"} then "underline"
    else if t in {"del", "strike"} then "strikethrough"
    else if t == "sup" then "sup"
    else if t == "sub" then "sub"
    else "code"
  }

  /** Position in `Rules` of the rule that selects `t`. */
  function RuleIndex(t: string): (k: nat)
    requires t in RenameTags
    ensures k < |Rules| && t in Selected(Rules[k])
  {
    if t == "br" then 0
    else if t == "h1" then 1
    else if t == "h2" then 2
    else if t == "h3" then 3
    else if t == "h4" then 4
    else if t == "h5" then 5
    else if t == "h6" then 6
    else if t == "p" then 7
    else if t == "pre" then 8
    else if t in {"strong", "b"} then 9
    else if t in {"em", "i"} then 10
    else if t in {"ins", "u"} then 11
    else if t in {"del", "strike"} then 12
    else if t == "sup" then 13
    else if t == "sub" then 14
    else if t == "code" then 15
    else 16
  }

  /** No other rule selects the tag. */
  lemma OtherRulesSkip(t: string, j: nat)
    requires t in RenameTags && j < |Rules| && j != RuleIndex(t)
    ensures t !in Selected(Rules[j])
  {
    if j < 9 {
      OtherBlockRulesSkip(t, j);
    } else {
      OtherSpanRulesSkip(t, j);
    }
  }

  lemma OtherBlockRulesSkip(t: string, j: nat)
    requires t in RenameTags && j < 9 && j != RuleIndex(t)
    ensures t !in Selected(Rules[j])
  {
    if j > 0 {
      assert Rules[j] == Block(["h1", "h2", "h3", "h4", "h5", "h6", "p", "pre"][j - 1]);
    }
  }

  lemma OtherSpanRulesSkip(t: string, j: nat)
    requires t in RenameTags && 9 <= j < |Rules| && j != RuleIndex(t)
    ensures t !in Selected(Rules[j])
  {
    if j < 16 {
      assert Rules[j].Span?;
    }
  }

  /** Set reasoning kept apart from the literal sets it is used on. */
  lemma DisjointBut(names: set<string>, html: set<string>, selected: set<string>, t: string)
    requires selected <= html && names * html <= {t} && t !in selected
    ensures names !! selected
  {
    forall x | x in names
      ensures x !in selected
    {
      assert x in selected ==> x in names * html;
    }
  }

  /** A set of names whose only HTML tag is `t`: no rule but `t`'s selects
      any of them. */
  lemma OnlyRuleOf(names: set<string>, t: string, j: nat)
    requires t in RenameTags && names * HtmlTags <= {t} && j < |Rules| && j != RuleIndex(t)
    ensures names !! Selected(Rules[j])
  {
    RuleHtmlAt(j);
    OtherRulesSkip(t, j);
    DisjointBut(names, HtmlTags, Selected(Rules[j]), t);
  }

  /** Children the rules find nothing to do in: text and elements as the
      parser gives them back, none of them removable, no HTML tag among them. */
  predicate SettledAll(o: Options, cs: seq<Node>) {
    NormalAll(cs) && (forall i | 0 <= i < |cs| :: !Doomed(o, cs[i]) && Undoomed(o, cs[i]))
    && NamesAll(cs) !! HtmlTags
  }

  /** The rules as a whole when only rule `k` has something to do: before
      it nothing is selected in `n`, and after it nothing in its result. */
  lemma RulesOnce(o: Options, rs: seq<Rule>, k: nat, n: Node, m: Node)
    requires k < |rs|
    requires forall j | 0 <= j < k :: Names(n) !! Selected(rs[j])
    requires Rewrite(o, rs[k], n, DocumentName) == m
    requires forall j | k < j < |rs| :: Names(m) !! Selected(rs[j])
    ensures RewriteRules(o, rs, n) == m
  {
    var early, late := rs[0..k], rs[k + 1..|rs|];
    assert rs == early + ([rs[k]] + late);
    RewriteRulesSplit(o, early, [rs[k]] + late, n);
    RulesSkip(o, rs, 0, k, n);
    RewriteRulesSplit(o, [rs[k]], late, n);
    assert [rs[k]][1..] == [];
    RulesSkip(o, rs, k + 1, |rs|, m);
  }

  /** The rules `lo` to `hi` change nothing when none of them selects a name
      of the tree. */
  lemma RulesSkip(o: Options, rs: seq<Rule>, lo: nat, hi: nat, n: Node)
    requires lo <= hi <= |rs|
    requires forall j | lo <= j < hi :: Names(n) !! Selected(rs[j])
    ensures RewriteRules(o, rs[lo..hi], n) == n
  {
    forall r | r in rs[lo..hi]
      ensures Names(n) !! Selected(r)
    {
      var j :| 0 <= j < hi - lo && rs[lo..hi][j] == r;
      assert rs[lo + j] == r;
    }
    RewriteRulesUntouched(o, rs[lo..hi], n);
  }

  // ---------------------------------------------------------------------------
  // One rule on the element it selects

  /** What the rule of each tag makes of an element of that tag, wherever it is
      in the tree. The element's children are kept as they are: the same
      rule never rewrites them, so a `strong` inside a `strong` survives the
      bold rule. `br` becomes a bare line break. */
  lemma BreakRule(o: Options, a: map<string, string>, cs: seq<Node>, parent: string)
    ensures Rewrite(o, Rules[RuleIndex("br")], Element("br", a, cs), parent) == Element("text:line-break", map[], [])
  {
  }

  /** A heading, `p` or `pre` becomes a `text:p` styled by `check_style`. */
  lemma BlockRule(o: Options, t: string, a: map<string, string>, cs: seq<Node>, parent: string)
    requires t in BlockRuleTags
    ensures Rewrite(o, Rules[RuleIndex(t)], Element(t, a, cs), parent) == TextNode("text:p", CheckStyle(o, t, parent, a), cs)
  {
    BlockRuleOf(t);
  }

  /** A span tag becomes a `text:span` with the tag's style. */
  lemma SpanRule(o: Options, t: string, a: map<string, string>, cs: seq<Node>, parent: string)
    requires t in SpanTags
    ensures Rewrite(o, Rules[RuleIndex(t)], Element(t, a, cs), parent) == TextNode("text:span", SpanStyle(t), cs)
  {
    SpanRuleOf(t);
  }

  /** An `a` with children becomes a `text:a` with the link attributes around
      one span styled `a`; an `a` without children stays as it is. */
  lemma AnchorRule(o: Options, a: map<string, string>, cs: seq<Node>, parent: string)
    ensures cs != [] ==>
      Rewrite(o, Rules[RuleIndex("a")], Element("a", a, cs), parent)
        == Element("text:a", LinkAttrs(a), [TextNode("text:span", "a", cs)])
    ensures cs == [] ==> Rewrite(o, Rules[RuleIndex("a")], Element("a", a, cs), parent) == Element("a", a, [])
  {
  }

  lemma BlockRuleOf(t: string)
    requires t in BlockRuleTags
    ensures Rules[RuleIndex(t)] == Block(t)
  {
  }

  lemma SpanRuleOf(t: string)
    requires t in SpanTags
    ensures Rules[RuleIndex(t)].Span? && Rules[RuleIndex(t)].style == SpanStyle(t)
  {
  }

  /** The names the rule of `t` leaves when a `t` element holds settled
      children: no HTML tag, except an `a` that stays as it is. */
  lemma ConvertNames(o: Options, t: string, a: map<string, string>, cs: seq<Node>, parent: string)
    requires t in RenameTags && NamesAll(cs) !! HtmlTags
    ensures Names(Rewrite(o, Rules[RuleIndex(t)], Element(t, a, cs), parent)) * HtmlTags <= {t}
    ensures Names(Rewrite(o, Rules[RuleIndex(t)], Element(t, a, cs), parent)) !! ClosedTags
  {
    var m := Rewrite(o, Rules[RuleIndex(t)], Element(t, a, cs), parent);
    ConvertedOpen();
    if t == "br" {
      BreakRule(o, a, cs, parent);
      NamesCut({"text:line-break"}, {}, HtmlTags, ClosedTags, t);
    } else if t in BlockRuleTags {
      BlockRule(o, t, a, cs, parent);
      NamesCut({"text:p"}, NamesAll(cs), HtmlTags, ClosedTags, t);
    } else if t in SpanTags {
      SpanRule(o, t, a, cs, parent);
      NamesCut({"text:span"}, NamesAll(cs), HtmlTags, ClosedTags, t);
    } else {
      AnchorRule(o, a, cs, parent);
      if cs != [] {
        var span := TextNode("text:span", "a", cs);
        NamesAllCons(span, []);
        assert [span] + [] == [span];
        NamesCut({"text:a", "text:span"}, NamesAll(cs), HtmlTags, ClosedTags, t);
      }
    }
  }

  /** The names of the converted elements are not HTML tags, and `a` is not
      a closed one. */
  lemma ConvertedOpen()
    ensures {"text:p", "text:span", "text:a", "text:line-break"} !! HtmlTags
    ensures "a" !in ClosedTags && ClosedTags <= HtmlTags
  {
    TagLengths();
    assert |"text:p"| == 6 && "text:p"[0] == 't' && |"text:a"| == 6 && "text:a"[0] == 't';
    assert |"text:span"| == 9 && |"text:line-break"| == 15;
  }

  lemma NamesCut(made: set<string>, rest: set<string>, html: set<string>, closed: set<string>, t: string)
    requires made !! html && rest !! html && closed <= html
    ensures (made + rest) * html <= {t} && (made + rest) !! closed
  {
  }

  // ---------------------------------------------------------------------------
  // parse_formatting on a renamed root

  /** A root the rule of its tag converts, holding settled children, comes
      out as that rule's conversion. */
  lemma RootRenamed(o: Options, t: string, a: map<string, string>, cs: seq<Node>)
    requires t in RenameTags && SettledAll(o, cs) && !Doomed(o, Element(t, a, cs))
    ensures ParseFormatting(o, Element(t, a, cs)) == Ok(Some(Rewrite(o, Rules[RuleIndex(t)], Element(t, a, cs), DocumentName)))
  {
    var n := Element(t, a, cs);
    var k := RuleIndex(t);
    var m := Rewrite(o, Rules[k], n, DocumentName);
    forall j | 0 <= j < k
      ensures Names(n) !! Selected(Rules[j])
    {
      OnlyRuleOf(Names(n), t, j);
    }
    ConvertNames(o, t, a, cs, DocumentName);
    forall j | k < j < |Rules|
      ensures Names(m) !! Selected(Rules[j])
    {
      OnlyRuleOf(Names(m), t, j);
    }
    RulesOnce(o, Rules, k, n, m);
    PFRenamedOnly(o, n);
  }

  /** `parse_formatting` on a root element of a renaming tag whose children
      the rules leave alone: the tag mapping of the rules, with the document
      as the parent that `check_style` sees. */
  lemma RootConverted(o: Options, t: string, a: map<string, string>, cs: seq<Node>)
    requires t in RenameTags && SettledAll(o, cs) && !Doomed(o, Element(t, a, cs))
    ensures t == "br" ==>
      ParseFormatting(o, Element(t, a, cs)) == Ok(Some(Element("text:line-break", map[], [])))
    ensures t in BlockRuleTags ==>
      ParseFormatting(o, Element(t, a, cs)) == Ok(Some(TextNode("text:p", CheckStyle(o, t, DocumentName, a), cs)))
    ensures t in SpanTags ==>
      ParseFormatting(o, Element(t, a, cs)) == Ok(Some(TextNode("text:span", SpanStyle(t), cs)))
    ensures t == "a" && cs != [] ==>
      ParseFormatting(o, Element(t, a, cs))
        == Ok(Some(Element("text:a", LinkAttrs(a), [TextNode("text:span", "a", cs)])))
    ensures t == "a" && cs == [] ==>
      ParseFormatting(o, Element(t, a, cs)) == Ok(Some(Element("a", a, [])))
  {
    RootBreak(o, t, a, cs);
    RootBlock(o, t, a, cs);
    RootSpan(o, t, a, cs);
    RootAnchor(o, t, a, cs);
  }

  lemma RootBreak(o: Options, t: string, a: map<string, string>, cs: seq<Node>)
    requires t in RenameTags && SettledAll(o, cs) && !Doomed(o, Element(t, a, cs))
    ensures t == "br" ==>
      ParseFormatting(o, Element(t, a, cs)) == Ok(Some(Element("text:line-break", map[], [])))
  {
    if t == "br" {
      RootRenamed(o, t, a, cs);
      BreakRule(o, a, cs, DocumentName);
    }
  }

  lemma RootBlock(o: Options, t: string, a: map<string, string>, cs: seq<Node>)
    requires t in RenameTags && SettledAll(o, cs) && !Doomed(o, Element(t, a, cs))
    ensures t in BlockRuleTags ==>
      ParseFormatting(o, Element(t, a, cs)) == Ok(Some(TextNode("text:p", CheckStyle(o, t, DocumentName, a), cs)))
  {
    if t in BlockRuleTags {
      RootRenamed(o, t, a, cs);
      BlockRule(o, t, a, cs, DocumentName);
    }
  }

  lemma RootSpan(o: Options, t: string, a: map<string, string>, cs: seq<Node>)
    requires t in RenameTags && SettledAll(o, cs) && !Doomed(o, Element(t, a, cs))
    ensures t in SpanTags ==>
      ParseFormatting(o, Element(t, a, cs)) == Ok(Some(TextNode("text:span", SpanStyle(t), cs)))
  {
    if t in SpanTags {
      RootRenamed(o, t, a, cs);
      SpanRule(o, t, a, cs, DocumentName);
    }
  }

  lemma RootAnchor(o: Options, t: string, a: map<string, string>, cs: seq<Node>)
    requires t in RenameTags && SettledAll(o, cs) && !Doomed(o, Element(t, a, cs))
    ensures t == "a" && cs != [] ==>
      ParseFormatting(o, Element(t, a, cs))
        == Ok(Some(Element("text:a", LinkAttrs(a), [TextNode("text:span", "a", cs)])))
    ensures t == "a" && cs == [] ==>
      ParseFormatting(o, Element(t, a, cs)) == Ok(Some(Element("a", a, [])))
  {
    if t == "a" {
      RootRenamed(o, t, a, cs);
      AnchorRule(o, a, cs, DocumentName);
    }
  }

  // ---------------------------------------------------------------------------
  // The children of a list item or cell

  /** A list item's or cell's children are converted one after the other:
      the items of `a + b` are those of `a` followed by those of `b`, and the
      first child that raises makes the whole raise. */
  /** A paragraph of the item's style around a node keeps the node's
      normal form and is not removable itself. */
  lemma ParagraphAround(o: Options, style: string, c: Node)
    requires c.Element? && Normal(c) && !Doomed(o, c) && Undoomed(o, c)
    ensures var p := TextNode("text:p", style, [c]); Normal(p) && !Doomed(o, p) && Undoomed(o, p)
  {
    var p := TextNode("text:p", style, [c]);
    assert p.attrs.Keys == {"text:style-name"};
    assert |"class"| == 5 && |"text:style-name"| == 15;
    assert p.children[0] == c;
  }

  /** A paragraph of the item's style around a settled node is settled. */
  lemma WrappedSettled(o: Options, style: string, c: Node)
    requires Settled(o, c)
    ensures Settled(o, TextNode("text:p", style, [c]))
  {
    var p := TextNode("text:p", style, [c]);
    NamesAllCons(c, []);
    assert [c] + [] == [c];
    assert Normal(p);
    assert !Doomed(o, p);
    ConvertedOpen();
  }

  /** An element child the rules leave alone: an inline one (`span`, or an
      already converted `text:` inline element) is wrapped in a paragraph of
      the item's style, any other stays as it is. */
  lemma SettledChild(o: Options, style: string, c: Node)
    requires Settled(o, c)
    ensures c.name in Inline || c.name in TextInline ==>
      FormatChildren(o, style, [c]) == Ok([TextNode("text:p", style, [c])])
    ensures !(c.name in Inline || c.name in TextInline) ==> FormatChildren(o, style, [c]) == Ok([c])
  {
    if c.name in Inline || c.name in TextInline {
      var p := TextNode("text:p", style, [c]);
      WrappedSettled(o, style, c);
      PFSettled(o, p);
      OneChild(o, style, c, p, p);
    } else {
      PFSettled(o, c);
      OneChild(o, style, c, c, c);
    }
  }

  /** An inline element child is wrapped in a paragraph of the item's style,
      and the rule of its tag converts it inside that paragraph. */
  lemma InlineWrapped(o: Options, style: string, t: string, a: map<string, string>, cs: seq<Node>)
    requires t in SpanTags + {"a"} && SettledAll(o, cs) && !Doomed(o, Element(t, a, cs))
    ensures FormatChildren(o, style, [Element(t, a, cs)])
      == Ok([TextNode("text:p", style, [Rewrite(o, Rules[RuleIndex(t)], Element(t, a, cs), "text:p")])])
  {
    var x := Element(t, a, cs);
    InlineRenamed(o, style, t, a, cs);
    InlineConverted(o, style, x, Rewrite(o, Rules[RuleIndex(t)], x, "text:p"));
  }

  lemma InlineConverted(o: Options, style: string, x: Node, m: Node)
    requires x.Element? && x.name in SpanTags + {"a"} && Normal(x) && !Doomed(o, x) && Undoomed(o, x)
    requires RewriteRules(o, Rules, TextNode("text:p", style, [x])) == TextNode("text:p", style, [m])
    requires Names(TextNode("text:p", style, [m])) !! ClosedTags
    ensures FormatChildren(o, style, [x]) == Ok([TextNode("text:p", style, [m])])
  {
    var n := TextNode("text:p", style, [x]);
    ParagraphAround(o, style, x);
    PFRenamedOnly(o, n);
    PrepareInline(style, x);
    OneChild(o, style, x, n, TextNode("text:p", style, [m]));
  }

  /** An inline element is wrapped in a paragraph of the item's style. */
  lemma PrepareInline(style: string, x: Node)
    requires x.Element? && x.name in SpanTags + {"a"}
    ensures Prepare(style, x) == Some(TextNode("text:p", style, [x]))
  {
    assert x.name in Inline;
  }

  /** A single child whose prepared form converts to `m` gives `[m]`. */
  lemma OneChild(o: Options, style: string, c: Node, p: Node, m: Node)
    requires Prepare(style, c) == Some(p) && ParseFormatting(o, p) == Ok(Some(m))
    ensures FormatChildren(o, style, [c]) == Ok([m])
  {
    assert [c][0] == c && [c][1..] == [];
    assert FormatChild(o, style, c) == Ok([m]);
    assert [m] + [] == [m];
  }

  /** The rules on the paragraph around an inline element. */
  lemma InlineRenamed(o: Options, style: string, t: string, a: map<string, string>, cs: seq<Node>)
    requires t in SpanTags + {"a"} && NamesAll(cs) !! HtmlTags
    ensures var m := Rewrite(o, Rules[RuleIndex(t)], Element(t, a, cs), "text:p");
      RewriteRules(o, Rules, TextNode("text:p", style, [Element(t, a, cs)])) == TextNode("text:p", style, [m])
      && Names(TextNode("text:p", style, [m])) !! ClosedTags
  {
    var x := Element(t, a, cs);
    var k := RuleIndex(t);
    var m := Rewrite(o, Rules[k], x, "text:p");
    var n := TextNode("text:p", style, [x]);
    var n' := TextNode("text:p", style, [m]);
    InlineStep(o, style, k, x);
    NamesAllCons(x, []);
    NamesAllCons(m, []);
    assert [x] + [] == [x] && [m] + [] == [m];
    ConvertedOpen();
    forall j | 0 <= j < k
      ensures Names(n) !! Selected(Rules[j])
    {
      OnlyRuleOf(Names(n), t, j);
    }
    ConvertNames(o, t, a, cs, "text:p");
    forall j | k < j < |Rules|
      ensures Names(n') !! Selected(Rules[j])
    {
      OnlyRuleOf(Names(n'), t, j);
    }
    RulesOnce(o, Rules, k, n, n');
  }

  /** A rule on a paragraph rewrites the paragraph's one child. */
  lemma InlineStep(o: Options, style: string, k: nat, x: Node)
    requires k < |Rules|
    ensures Rewrite(o, Rules[k], TextNode("text:p", style, [x]), DocumentName)
      == TextNode("text:p", style, [Rewrite(o, Rules[k], x, "text:p")])
  {
    var m := Rewrite(o, Rules[k], x, "text:p");
    RuleHtmlAt(k);
    ConvertedOpen();
    assert [x][0] == x && [x][1..] == [];
    assert [m] + [] == [m];
    assert RewriteAll(o, Rules[k], [x], "text:p") == [m];
  }

  /** What an inline element child of a list item or cell becomes: a
      paragraph of the item's style (`li` for list items, `p` for cells)
      around the converted span or link. */
  lemma InlineChild(o: Options, style: string, t: string, a: map<string, string>, cs: seq<Node>)
    requires t in SpanTags + {"a"} && SettledAll(o, cs) && !Doomed(o, Element(t, a, cs))
    ensures t in SpanTags ==>
      FormatChildren(o, style, [Element(t, a, cs)])
        == Ok([TextNode("text:p", style, [TextNode("text:span", SpanStyle(t), cs)])])
    ensures t == "a" && cs != [] ==>
      FormatChildren(o, style, [Element(t, a, cs)])
        == Ok([TextNode("text:p", style, [Element("text:a", LinkAttrs(a), [TextNode("text:span", "a", cs)])])])
    ensures t == "a" && cs == [] ==>
      FormatChildren(o, style, [Element(t, a, cs)]) == Ok([TextNode("text:p", style, [Element("a", a, [])])])
  {
    InlineWrapped(o, style, t, a, cs);
    if t in SpanTags {
      SpanRule(o, t, a, cs, "text:p");
    } else {
      AnchorRule(o, a, cs, "text:p");
    }
  }

  /** The conversion of an inline element the rules select: a span of the
      style its tag names, a link around a span of style `a`, or a childless
      `a` as it was. */
  function InlineForm(c: Node): Node
    requires c.Element? && c.name in SpanTags + {"a"}
  {
    if c.name in SpanTags then TextNode("text:span", SpanStyle(c.name), c.children)
    else if c.children != [] then Element("text:a", LinkAttrs(c.attrs), [TextNode("text:span", "a", c.children)])
    else c
  }

  /** A child of a list item or cell with nothing for the rules to do below
      it: text, an element the rules leave alone, or an inline element the
      rules select over such children. */
  predicate ItemChild(o: Options, c: Node) {
    (c.Text? && NoControls(c.text))
    || Settled(o, c)
    || (c.Element? && c.name in SpanTags + {"a"} && SettledAll(o, c.children) && !Doomed(o, c))
  }

  /** What one such child becomes: present text and inline elements are
      wrapped in a paragraph of the item's style (inline elements converted
      inside it), blank text is dropped, any other element stays. */
  function ItemEntry(o: Options, style: string, c: Node): seq<Node>
    requires ItemChild(o, c)
  {
    match c
    case Text(t) => if Present(t) then [TextNode("text:p", style, [c])] else []
    case Element(name, _, _) =>
      if name in SpanTags + {"a"} then [TextNode("text:p", style, [InlineForm(c)])]
      else if name in Inline || name in TextInline then [TextNode("text:p", style, [c])]
      else [c]
  }

  /** The content of a list item or cell: the entries of its children, in
      order. */
  function ItemContent(o: Options, style: string, cs: seq<Node>): seq<Node>
    requires forall i | 0 <= i < |cs| :: ItemChild(o, cs[i])
  {
    if cs == [] then [] else ItemEntry(o, style, cs[0]) + ItemContent(o, style, cs[1..])
  }

  /** The first child's items, then the rest's; the first failure raises. */
  lemma FormatChildrenCons(o: Options, style: string, c: Node, cs: seq<Node>)
    ensures FormatChildren(o, style, [c] + cs)
      == (if FormatChildren(o, style, [c]).Ok? && FormatChildren(o, style, cs).Ok?
          then Ok(FormatChildren(o, style, [c]).value + FormatChildren(o, style, cs).value)
          else Raised)
  {
    assert ([c] + cs)[0] == c && ([c] + cs)[1..] == cs;
    assert [c][0] == c && [c][1..] == [];
    var h := FormatChild(o, style, c);
    if h.Ok? {
      assert h.value + [] == h.value;
    }
  }

  /** One child of a list item or cell. */
  lemma ItemEntryOne(o: Options, style: string, c: Node)
    requires ItemChild(o, c)
    ensures FormatChildren(o, style, [c]) == Ok(ItemEntry(o, style, c))
  {
    if c.Text? {
      DirectText(o, style, c.text);
    } else if c.name in SpanTags + {"a"} && !Settled(o, c) {
      InlineChild(o, style, c.name, c.attrs, c.children);
    } else {
      assert Settled(o, c);
      InlineOpen(c.name);
      SettledChild(o, style, c);
    }
  }

  /** The rules' inline tags are HTML tags, so a settled element is none of
      them. */
  lemma InlineOpen(t: string)
    ensures t in SpanTags + {"a"} ==> t in HtmlTags
  {
  }

  /** The children of a list item or cell are converted one by one, in
      order, each as `ItemEntry` says. */
  lemma {:induction false} ItemChildren(o: Options, style: string, cs: seq<Node>)
    requires forall i | 0 <= i < |cs| :: ItemChild(o, cs[i])
    ensures FormatChildren(o, style, cs) == Ok(ItemContent(o, style, cs))
  {
    if cs != [] {
      assert cs == [cs[0]] + cs[1..];
      ItemEntryOne(o, style, cs[0]);
      ItemChildren(o, style, cs[1..]);
      FormatChildrenCons(o, style, cs[0], cs[1..]);
    }
  }

  /** A list item and a cell hold the content of their children: `li`
      paragraphs in a `text:list-item`, `p` paragraphs in a
      `table:table-cell` with the cell's span attributes. */
  lemma ItemBuilt(o: Options, cols: string, attrs: map<string, string>, cs: seq<Node>)
    requires forall i | 0 <= i < |cs| :: ItemChild(o, cs[i])
    ensures Build(o, "li", cols, attrs, cs) == Ok(Element("text:list-item", map[], ItemContent(o, "li", cs)))
    ensures Build(o, "td", cols, attrs, cs) == Ok(Element("table:table-cell", CellAttrs(attrs), ItemContent(o, "p", cs)))
  {
    ItemChildren(o, "li", cs);
    ItemChildren(o, "p", cs);
  }

  // ---------------------------------------------------------------------------
  // Lists, rows and tables around converted content

  /** A `ul`, `ol`, `tr` or `table` whose children the rules leave alone (its
      items, cells or rows already converted) becomes its wrapper around
      those children; a table gets the column element first, and raises when
      it has no children. */
  lemma WrapperAround(o: Options, tag: string, cols: string, attrs: map<string, string>, cs: seq<Node>)
    requires tag in {"ul", "ol", "tr", "table"} && SettledAll(o, cs)
    ensures tag in {"ul", "ol"} ==> Build(o, tag, cols, attrs, cs) == Ok(TextNode("text:list", tag, cs))
    ensures tag == "tr" ==>
      Build(o, tag, cols, attrs, cs) == Ok(Element("table:table-row", map["table:style-name" := "tr"], cs))
    ensures tag == "table" && cs != [] ==>
      Build(o, tag, cols, attrs, cs)
        == Ok(Element("table:table", map["table:style-name" := "table", "table:template-name" := "Academic"],
                      [ColumnNode(cols)] + cs))
    ensures tag == "table" && cs == [] ==> Build(o, tag, cols, attrs, cs).Raised?
  {
    var w := Wrapper(tag, cs);
    assert !Doomed(o, w);
    assert Names(w) == {w.name} + NamesAll(cs);
    PFSettled(o, w);
  }

  // ---------------------------------------------------------------------------
  // Paragraphs in a blockquote

  /** Paragraphs whose children the rules leave alone, none of them
      removable. */
  predicate Paragraphs(o: Options, ps: seq<Node>) {
    forall i | 0 <= i < |ps| ::
      ps[i].Element? && ps[i].name == "p" && !Doomed(o, ps[i]) && SettledAll(o, ps[i].children)
  }

  /** The paragraphs `ps` converted under a parent called `parent`: each a
      `text:p` styled by `check_style`, holding the paragraph's children. */
  function Styled(o: Options, ps: seq<Node>, parent: string): (rs: seq<Node>)
    requires forall i | 0 <= i < |ps| :: ps[i].Element?
    ensures |rs| == |ps|
  {
    seq(|ps|, i requires 0 <= i < |ps| => TextNode("text:p", CheckStyle(o, "p", parent, ps[i].attrs), ps[i].children))
  }

  lemma StyledTail(o: Options, ps: seq<Node>, parent: string)
    requires ps != [] && forall i | 0 <= i < |ps| :: ps[i].Element?
    ensures Styled(o, ps, parent) == [Styled(o, ps, parent)[0]] + Styled(o, ps[1..], parent)
  {
    var s := Styled(o, ps, parent);
    var t := Styled(o, ps[1..], parent);
    assert forall i | 0 <= i < |t| :: t[i] == s[i + 1];
  }

  /** The paragraph rule converts each paragraph of the list in place. */
  lemma {:induction false} ParagraphsRewritten(o: Options, ps: seq<Node>, parent: string)
    requires forall i | 0 <= i < |ps| :: ps[i].Element? && ps[i].name == "p"
    ensures RewriteAll(o, Block("p"), ps, parent) == Styled(o, ps, parent)
  {
    if ps != [] {
      ParagraphsRewritten(o, ps[1..], parent);
      StyledTail(o, ps, parent);
    }
  }

  /** The only HTML tag among the names of the paragraphs is `p`. */
  lemma {:induction false} ParagraphNames(o: Options, ps: seq<Node>)
    requires Paragraphs(o, ps)
    ensures NamesAll(ps) * HtmlTags <= {"p"}
  {
    if ps != [] {
      assert Paragraphs(o, ps[1..]) by {
        assert forall i | 0 <= i < |ps[1..]| :: ps[1..][i] == ps[i + 1];
      }
      ParagraphNames(o, ps[1..]);
      NamesCut({}, NamesAll(ps[0].children), HtmlTags, ClosedTags, "p");
    }
  }

  /** The converted paragraphs carry no HTML tag. */
  lemma {:induction false} StyledNames(o: Options, ps: seq<Node>, parent: string)
    requires Paragraphs(o, ps)
    ensures NamesAll(Styled(o, ps, parent)) !! HtmlTags
  {
    if ps != [] {
      assert Paragraphs(o, ps[1..]) by {
        assert forall i | 0 <= i < |ps[1..]| :: ps[1..][i] == ps[i + 1];
      }
      StyledNames(o, ps[1..], parent);
      StyledTail(o, ps, parent);
      NamesAllCons(Styled(o, ps, parent)[0], Styled(o, ps[1..], parent));
      ConvertedOpen();
    }
  }

  /** A blockquote of such paragraphs is normal and has nothing removable. */
  lemma QuoteKept(o: Options, ba: map<string, string>, ps: seq<Node>)
    requires Paragraphs(o, ps)
    ensures Normal(Element("blockquote", ba, ps)) && Undoomed(o, Element("blockquote", ba, ps))
  {
    forall i | 0 <= i < |ps|
      ensures Normal(ps[i]) && Undoomed(o, ps[i])
    {
    }
  }

  /** `parse_formatting` on a blockquote of paragraphs: each paragraph
      becomes a `text:p` styled by `check_style` with the blockquote as its
      parent (`quote` unless its class or alignment says otherwise), in
      order, and the blockquote stays around them. */
  lemma ParagraphInBlockquote(o: Options, ba: map<string, string>, ps: seq<Node>)
    requires Paragraphs(o, ps) && !Doomed(o, Element("blockquote", ba, ps))
    ensures ParseFormatting(o, Element("blockquote", ba, ps))
      == Ok(Some(Element("blockquote", ba, Styled(o, ps, "blockquote"))))
  {
    var b := Element("blockquote", ba, ps);
    var b' := Element("blockquote", ba, Styled(o, ps, "blockquote"));
    ParagraphRuleIndex();
    QuoteRewritten(o, ba, ps);
    QuoteEarly(o, ba, ps);
    QuoteLate(o, ba, ps);
    RulesOnce(o, Rules, 7, b, b');
    assert RewriteRules(o, Rules, b) == b';
    QuoteKept(o, ba, ps);
    PFRenamedOnly(o, b);
  }

  lemma ParagraphRuleIndex()
    ensures 7 < |Rules| && Rules[7] == Block("p")
  {
  }

  /** The paragraph rule on the blockquote converts its paragraphs. */
  lemma QuoteRewritten(o: Options, ba: map<string, string>, ps: seq<Node>)
    requires Paragraphs(o, ps)
    ensures Rewrite(o, Block("p"), Element("blockquote", ba, ps), DocumentName)
      == Element("blockquote", ba, Styled(o, ps, "blockquote"))
  {
    ParagraphsRewritten(o, ps, "blockquote");
  }

  /** No rule before the paragraph rule selects anything in the blockquote. */
  lemma QuoteEarly(o: Options, ba: map<string, string>, ps: seq<Node>)
    requires Paragraphs(o, ps)
    ensures forall j | 0 <= j < 7 :: Names(Element("blockquote", ba, ps)) !! Selected(Rules[j])
  {
    var names := Names(Element("blockquote", ba, ps));
    QuoteOpen();
    ParagraphNames(o, ps);
    assert names * HtmlTags <= {"p"};
    forall j | 0 <= j < 7
      ensures names !! Selected(Rules[j])
    {
      OnlyRuleOf(names, "p", j);
    }
  }

  /** No rule after the paragraph rule selects anything in the converted
      blockquote. */
  lemma QuoteLate(o: Options, ba: map<string, string>, ps: seq<Node>)
    requires Paragraphs(o, ps)
    ensures forall j | 7 < j < |Rules| :: Names(Element("blockquote", ba, Styled(o, ps, "blockquote"))) !! Selected(Rules[j])
    ensures Names(Element("blockquote", ba, Styled(o, ps, "blockquote"))) !! ClosedTags
  {
    var names := Names(Element("blockquote", ba, Styled(o, ps, "blockquote")));
    QuoteOpen();
    StyledNames(o, ps, "blockquote");
    assert names * HtmlTags <= {"p"};
    assert ClosedTags <= HtmlTags;
    forall j | 7 < j < |Rules|
      ensures names !! Selected(Rules[j])
    {
      OnlyRuleOf(names, "p", j);
    }
  }

  lemma QuoteOpen()
    ensures "blockquote" !in HtmlTags
  {
    TagLengths();
    assert |"blockquote"| == 10;
  }
}
