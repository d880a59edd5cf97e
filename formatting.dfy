/** The tag rules of `parse_formatting` (lib/odf-report/parser/default.rb): one
    block candidate is re-read as a document of its own and rewritten, rule by
    rule, into OpenDocument text and table elements.

    Each rule of the source is an `.each` over an XPath result that replaces
    every match in place. A match inside an earlier match of the same rule
    lives on in the detached original only (the replacement holds a copy), so
    a rule converts the topmost matches; later rules search the tree again and
    do reach nested elements. */
module Formatting {
  import opened Html
  import opened Trees
  import ClassNames
  import opened StyleNames

  /** `INLINE` and `TEXTINLINE`: a direct child of a list item or table cell
      with one of these names is wrapped in a paragraph first. */
  const Inline: seq<string> := ["a", "span", "strong", "b", "em", "i", "ins", "u", "del", "strike", "sub", "sup", "code"]
  const TextInline: seq<string> := ["text:a", "text:span", "text:strong", "text:b", "text:em", "text:i",
    "text:ins", "text:u", "text:del", "text:strike", "text:sub", "text:sup", "text:code"]

  /** The HTML elements whose conversion calls `parse_formatting` again. */
  const StructTags: set<string> := {"li", "ul", "ol", "td", "tr", "table"}

  /** The HTML elements no successful `parse_formatting` leaves behind. */
  const ClosedTags: set<string> := StructTags + {"br", "tbody"}

  /** Every HTML element some rule selects. */
  const HtmlTags: set<string> := ClosedTags + {"h1", "h2", "h3", "h4", "h5", "h6", "p", "pre",
    "strong", "b", "em", "i", "ins", "u", "del", "strike", "sup", "sub", "code", "a"}

  /** Lengths that tell the converted names from the HTML ones. */
  lemma TagLengths()
    ensures forall x | x in ClosedTags :: |x| <= 5
    ensures forall x | x in HtmlTags :: |x| <= 6 && (|x| == 6 ==> x[0] == 's')
  {
  }

  /** Number of elements of `n` whose name is in `StructTags`: every nested call
      of `parse_formatting` works on a tree with fewer of them. */
  function Struct(n: Node): nat {
    match n
    case Text(_) => 0
    case Element(name, _, cs) => (if name in StructTags then 1 else 0) + StructAll(cs)
  }

  function StructAll(cs: seq<Node>): nat {
    if cs == [] then 0 else Struct(cs[0]) + StructAll(cs[1..])
  }

  lemma StructAllCons(x: Node, rest: seq<Node>)
    ensures StructAll([x] + rest) == Struct(x) + StructAll(rest)
  {
    assert ([x] + rest)[1..] == rest;
  }

  lemma {:induction false} StructAllAppend(a: seq<Node>, b: seq<Node>)
    ensures StructAll(a + b) == StructAll(a) + StructAll(b)
  {
    if a == [] {
      assert a + b == b;
    } else {
      assert (a + b)[1..] == a[1..] + b;
      StructAllAppend(a[1..], b);
    }
  }

  /** A tree without list or table elements has nothing left to recurse on. */
  lemma {:induction false} NoStruct(n: Node)
    requires Names(n) !! StructTags
    ensures Struct(n) == 0
  {
    if n.Element? {
      NoStructAll(n.children);
    }
  }

  lemma {:induction false} NoStructAll(cs: seq<Node>)
    requires NamesAll(cs) !! StructTags
    ensures StructAll(cs) == 0
  {
    if cs != [] {
      NoStruct(cs[0]);
      NoStructAll(cs[1..]);
    }
  }

  /** The closed names of two parts stay within those of two larger parts. */
  lemma ClosedUnion(a1: set<string>, a2: set<string>, b1: set<string>, b2: set<string>, gone: set<string>)
    requires a1 * ClosedTags <= b1 * ClosedTags - gone && a2 * ClosedTags <= b2 * ClosedTags - gone
    ensures (a1 + a2) * ClosedTags <= (b1 + b2) * ClosedTags - gone
  {
    forall x | x in (a1 + a2) * ClosedTags
      ensures x in (b1 + b2) * ClosedTags - gone
    {
      if x in a1 {
        assert x in a1 * ClosedTags;
      } else {
        assert x in a2 * ClosedTags;
      }
    }
  }

  // ---------------------------------------------------------------------------
  // Re-reading the serialised candidate: `gsub(/\n|\r|\t/, "")` and XML parsing

  predicate IsControl(c: char) {
    c == '\n' || c == '\r' || c == '\t'
  }

  predicate NoControls(s: string) {
    forall i :: 0 <= i < |s| ==> !IsControl(s[i])
  }

  /** `s` without line feeds, carriage returns and tabs. */
  function StripControls(s: string): (r: string)
    ensures NoControls(r) && |r| <= |s|
    ensures NoControls(s) ==> r == s
  {
    if s == [] then []
    else if IsControl(s[0]) then StripControls(s[1..])
    else [s[0]] + StripControls(s[1..])
  }

  /** `x` placed in front of an already parsed list of siblings: an empty text
      disappears and a text next to a text becomes one text node. */
  function Glue(x: Node, rest: seq<Node>): (rs: seq<Node>)
    ensures NamesAll(rs) == Names(x) + NamesAll(rest) && StructAll(rs) == Struct(x) + StructAll(rest)
  {
    if x.Text? && x.text == [] then rest
    else if x.Text? && rest != [] && rest[0].Text? then
      assert rest == [rest[0]] + rest[1..];
      NamesAllCons(rest[0], rest[1..]);
      StructAllCons(rest[0], rest[1..]);
      NamesAllCons(Text(x.text + rest[0].text), rest[1..]);
      StructAllCons(Text(x.text + rest[0].text), rest[1..]);
      [Text(x.text + rest[0].text)] + rest[1..]
    else
      NamesAllCons(x, rest);
      StructAllCons(x, rest);
      [x] + rest
  }

  /** The tree as the XML parser gives it back after serialisation with the
      control characters removed. */
  function Reparse(n: Node): (m: Node)
    ensures Names(m) == Names(n) && Struct(m) == Struct(n)
    ensures n.Element? ==> m.Element? && m.name == n.name && m.attrs == n.attrs
  {
    match n
    case Text(t) => Text(StripControls(t))
    case Element(name, attrs, cs) => Element(name, attrs, ReparseAll(cs))
  }

  function ReparseAll(cs: seq<Node>): (rs: seq<Node>)
    ensures NamesAll(rs) == NamesAll(cs) && StructAll(rs) == StructAll(cs)
  {
    if cs == [] then []
    else
      var x := Reparse(cs[0]);
      var rest := ReparseAll(cs[1..]);
      Glue(x, rest)
  }

  /** What a parsed tree looks like: no control characters, no empty text and
      no two texts side by side. */
  predicate Normal(n: Node) {
    match n
    case Text(t) => t != [] && NoControls(t)
    case Element(_, _, cs) => NormalAll(cs)
  }

  predicate NormalAll(cs: seq<Node>) {
    (forall i | 0 <= i < |cs| :: Normal(cs[i]))
    && (forall i | 0 < i < |cs| :: !(cs[i - 1].Text? && cs[i].Text?))
  }

  // ---------------------------------------------------------------------------
  // Removal of elements by class

  /** The XPath class test of the removal step: the element's class value
      occurs in the `remove_classes` list joined by spaces. */
  predicate Doomed(o: Options, n: Node) {
    n.Element? && o.removeClasses != [] && "class" in n.attrs
    && IsSubstring(n.attrs["class"], ClassNames.Join(o.removeClasses))
  }

  /** The tree below `n` with every doomed element removed with its subtree. */
  function Prune(o: Options, n: Node): (m: Node)
    ensures Names(m) <= Names(n) && Struct(m) <= Struct(n)
    ensures n.Element? ==> m.Element? && m.name == n.name && m.attrs == n.attrs
  {
    match n
    case Text(_) => n
    case Element(name, attrs, cs) => Element(name, attrs, PruneAll(o, cs))
  }

  function PruneAll(o: Options, cs: seq<Node>): (rs: seq<Node>)
    ensures NamesAll(rs) <= NamesAll(cs) && StructAll(rs) <= StructAll(cs)
  {
    if cs == [] then []
    else if Doomed(o, cs[0]) then PruneAll(o, cs[1..])
    else
      var h := Prune(o, cs[0]);
      var rest := PruneAll(o, cs[1..]);
      NamesAllCons(h, rest);
      StructAllCons(h, rest);
      [h] + rest
  }

  // ---------------------------------------------------------------------------
  // The rules that only rename and restyle: br, headings, p, pre, inline, a

  datatype Rule =
    | Break                                 // br
    | Block(tag: string)                    // h1 ... h6, p, pre
    | Span(tags: seq<string>, style: string) // strong/b, em/i, ins/u, del/strike, sup, sub, code
    | Anchor                                // a

  /** The rules in the order `parse_formatting` applies them. */
  const Rules: seq<Rule> := [Break, Block("h1"), Block("h2"), Block("h3"), Block("h4"), Block("h5"),
    Block("h6"), Block("p"), Block("pre"), Span(["strong", "b"], "bold"), Span(["em", "i"], "italic"),
    Span(["ins", "u"], "underline"), Span(["del", "strike"], "strikethrough"), Span(["sup"], "sup"),
    Span(["sub"], "sub"), Span(["code"], "code"), Anchor]

  /** The element names rule `r` matches. */
  function Selected(r: Rule): set<string> {
    match r
    case Break => {"br"}
    case Block(t) => {t}
    case Span(ts, _) => set t | t in ts
    case Anchor => {"a"}
  }

  /** The closed tags a rule removes from the tree. */
  function Removes(r: Rule): set<string> {
    if r.Break? then {"br"} else {}
  }

  /** `text_node(name, style)` with a style string: a `text:` element styled by
      `text:style-name` holding `cs`. */
  function TextNode(name: string, style: string, cs: seq<Node>): (m: Node)
    requires name in {"text:p", "text:span", "text:list"}
    ensures Names(m) == {name} + NamesAll(cs) && Struct(m) == StructAll(cs)
  {
    Element(name, map["text:style-name" := style], cs)
  }

  /** The attributes of a converted anchor: the link target and how to open
      it, only when `href` is present. */
  function LinkAttrs(attrs: map<string, string>): (a: map<string, string>)
    ensures AttrPresent(attrs, "href") ==>
      (a.Keys == {"xlink:href", "office:target-frame-name", "xlink:show"}
       && a["xlink:href"] == attrs["href"] && a["office:target-frame-name"] == "_top" && a["xlink:show"] == "replace")
    ensures !AttrPresent(attrs, "href") ==> a == map[]
  {
    if AttrPresent(attrs, "href") then
      map["xlink:href" := attrs["href"], "office:target-frame-name" := "_top", "xlink:show" := "replace"]
    else map[]
  }

  /** What rule `r` replaces a matching element with. An anchor without
      children is a bookmark the code builds but never inserts, so the element
      stays as it is. */
  function Convert(o: Options, r: Rule, name: string, attrs: map<string, string>, cs: seq<Node>, parent: string): (m: Node)
    requires name in Selected(r)
    ensures m.Element?
    ensures Names(m) * ClosedTags <= ({name} + NamesAll(cs)) * ClosedTags - Removes(r)
    ensures Struct(m) <= (if name in StructTags then 1 else 0) + StructAll(cs)
  {
    match r
    case Break => Element("text:line-break", map[], [])
    case Block(_) => TextNode("text:p", CheckStyle(o, name, parent, attrs), cs)
    case Span(_, style) => TextNode("text:span", style, cs)
    case Anchor =>
      if cs == [] then Element(name, attrs, cs)
      else
        var span := TextNode("text:span", "a", cs);
        assert [span] + [] == [span];
        NamesAllCons(span, []);
        StructAllCons(span, []);
        Element("text:a", LinkAttrs(attrs), [span])
  }

  /** One rule over the tree below `n`, whose parent is called `parent`. */
  function Rewrite(o: Options, r: Rule, n: Node, parent: string): (m: Node)
    ensures Struct(m) <= Struct(n)
    ensures Names(m) * ClosedTags <= Names(n) * ClosedTags - Removes(r)
    ensures n.Element? ==> m.Element?
    ensures n.Element? && n.name !in Selected(r) ==> m.Element? && m.name == n.name && m.attrs == n.attrs
  {
    match n
    case Text(_) => n
    case Element(name, attrs, cs) =>
      if name in Selected(r) then Convert(o, r, name, attrs, cs, parent)
      else
        var rs := RewriteAll(o, r, cs, name);
        assert name !in Removes(r);
        ClosedUnion({name}, NamesAll(rs), {name}, NamesAll(cs), Removes(r));
        Element(name, attrs, rs)
  }

  function RewriteAll(o: Options, r: Rule, cs: seq<Node>, parent: string): (rs: seq<Node>)
    ensures |rs| == |cs|
    ensures StructAll(rs) <= StructAll(cs)
    ensures NamesAll(rs) * ClosedTags <= NamesAll(cs) * ClosedTags - Removes(r)
  {
    if cs == [] then []
    else
      var h := Rewrite(o, r, cs[0], parent);
      var rest := RewriteAll(o, r, cs[1..], parent);
      NamesAllCons(h, rest);
      StructAllCons(h, rest);
      ClosedUnion(Names(h), NamesAll(rest), Names(cs[0]), NamesAll(cs[1..]), Removes(r));
      [h] + rest
  }

  /** The rules `rs` one after the other over the document whose root is `n`. */
  function RewriteRules(o: Options, rs: seq<Rule>, n: Node): (m: Node)
    ensures Struct(m) <= Struct(n)
    ensures Names(m) * ClosedTags <= Names(n) * ClosedTags - (if Break in rs then {"br"} else {})
    ensures n.Element? ==> m.Element?
    ensures n.Element? && (forall r | r in rs :: n.name !in Selected(r)) ==>
      m.Element? && m.name == n.name && m.attrs == n.attrs
  {
    if rs == [] then n
    else RewriteRules(o, rs[1..], Rewrite(o, rs[0], n, DocumentName))
  }

  // ---------------------------------------------------------------------------
  // The rules that call `parse_formatting` again: li, ul, ol, td, tr, table

  /** A direct child of a list item or cell as the code prepares it: direct
      text becomes a paragraph when present and is dropped when blank
      (`blank_node`), an inline element is wrapped in a paragraph. */
  function Prepare(style: string, c: Node): (r: Option<Node>)
    ensures r.Some? ==> Struct(r.value) == Struct(c)
  {
    StructAllCons(c, []);
    assert [c] + [] == [c];
    match c
    case Text(t) => if Present(t) then Some(TextNode("text:p", style, [Text(t)])) else None
    case Element(name, _, _) =>
      if name in Inline || name in TextInline then Some(TextNode("text:p", style, [c])) else Some(c)
  }

  /** The converted children of a list item or cell, in order; `<<` of the
      `nil` root of an emptied document raises. */
  function FormatChildren(o: Options, style: string, cs: seq<Node>): (r: Result<seq<Node>>)
    ensures r.Ok? ==> NamesAll(r.value) !! ClosedTags && StructAll(r.value) == 0
    decreases StructAll(cs), 4, SizeAll(cs)
  {
    if cs == [] then Ok([])
    else
      var head :- FormatChild(o, style, cs[0]);
      var rest :- FormatChildren(o, style, cs[1..]);
      NamesAllAppend(head, rest);
      StructAllAppend(head, rest);
      Ok(head + rest)
  }

  function FormatChild(o: Options, style: string, c: Node): (r: Result<seq<Node>>)
    ensures r.Ok? ==> NamesAll(r.value) !! ClosedTags && StructAll(r.value) == 0
    decreases Struct(c), 3, Size(c)
  {
    match Prepare(style, c)
    case None => Ok([])
    case Some(p) =>
      match ParseFormatting(o, p)
      case Raised => Raised
      case Ok(None) => Raised
      case Ok(Some(m)) => Ok([m])
  }

  /** The cell attributes: style `td`, and the spans copied from `colspan` and
      `rowspan` only when those are present. */
  function CellAttrs(attrs: map<string, string>): (a: map<string, string>)
    ensures "table:style-name" in a && a["table:style-name"] == "td"
    ensures "table:number-columns-spanned" in a <==> AttrPresent(attrs, "colspan")
    ensures "table:number-rows-spanned" in a <==> AttrPresent(attrs, "rowspan")
    ensures AttrPresent(attrs, "colspan") ==> a["table:number-columns-spanned"] == attrs["colspan"]
    ensures AttrPresent(attrs, "rowspan") ==> a["table:number-rows-spanned"] == attrs["rowspan"]
    ensures a.Keys <= {"table:style-name", "table:number-columns-spanned", "table:number-rows-spanned"}
  {
    var a := map["table:style-name" := "td"];
    var a := if AttrPresent(attrs, "colspan") then a["table:number-columns-spanned" := attrs["colspan"]] else a;
    if AttrPresent(attrs, "rowspan") then a["table:number-rows-spanned" := attrs["rowspan"]] else a
  }

  /** The element a `ul`, `ol`, `tr` or `table` is copied into before it goes
      through `parse_formatting` again. */
  function Wrapper(tag: string, cs: seq<Node>): (w: Node)
    ensures w.Element? && w.children == cs && Struct(w) == StructAll(cs)
    ensures tag in {"ul", "ol", "tr", "table"} ==> w.name == ReplacementName(tag) && w.name !in HtmlTags
  {
    if tag == "tr" then Element("table:table-row", map["table:style-name" := "tr"], cs)
    else if tag == "table" then
      Element("table:table", map["table:style-name" := "table", "table:template-name" := "Academic"], cs)
    else TextNode("text:list", tag, cs)
  }

  /** The column element put first in every converted table. */
  function ColumnNode(cols: string): Node {
    Element("table:table-column", map["table:style-name" := "tc", "table:number-columns-repeated" := cols], [])
  }

  /** The name of the element that replaces a `tag` element. */
  function ReplacementName(tag: string): string {
    match tag
    case "li" => "text:list-item"
    case "td" => "table:table-cell"
    case "tr" => "table:table-row"
    case "table" => "table:table"
    case _ => "text:list"
  }

  /** The replacement of one `tag` element with attributes `attrs` and
      children `cs`; `cols` is the column count written for a table. */
  function Build(o: Options, tag: string, cols: string, attrs: map<string, string>, cs: seq<Node>): (r: Result<Node>)
    requires tag in StructTags
    ensures r.Ok? ==> Names(r.value) !! ClosedTags && Struct(r.value) == 0
    ensures r.Ok? ==> r.value.Element? && r.value.name == ReplacementName(tag)
    ensures r.Ok? && tag == "li" ==> r.value.attrs == map[]
    ensures r.Ok? && tag == "td" ==> r.value.attrs == CellAttrs(attrs)
    ensures tag == "li" ==>
      (r.Ok? <==> FormatChildren(o, "li", cs).Ok?) && (r.Ok? ==> r.value.children == FormatChildren(o, "li", cs).value)
    ensures tag == "td" ==>
      (r.Ok? <==> FormatChildren(o, "p", cs).Ok?) && (r.Ok? ==> r.value.children == FormatChildren(o, "p", cs).value)
    ensures r.Ok? && tag in {"ul", "ol"} ==> r.value.attrs == map["text:style-name" := tag]
    ensures r.Ok? && tag == "tr" ==> r.value.attrs == map["table:style-name" := "tr"]
    ensures r.Ok? && tag == "table" ==>
      r.value.attrs == map["table:style-name" := "table", "table:template-name" := "Academic"]
    ensures r.Ok? && tag == "table" ==> |r.value.children| >= 2 && r.value.children[0] == ColumnNode(cols)
    decreases StructAll(cs), 6, 0
  {
    if tag == "li" then
      var items :- FormatChildren(o, "li", cs);
      assert ReplacementName(tag) == "text:list-item";
      Ok(Element("text:list-item", map[], items))
    else if tag == "td" then
      var items :- FormatChildren(o, "p", cs);
      assert ReplacementName(tag) == "table:table-cell";
      Ok(Element("table:table-cell", CellAttrs(attrs), items))
    else BuildWrapped(o, tag, cols, cs)
  }

  /** The replacement of a `ul`, `ol`, `tr` or `table` element: its children
      copied into the wrapper and converted as a document of their own. */
  function BuildWrapped(o: Options, tag: string, cols: string, cs: seq<Node>): (r: Result<Node>)
    requires tag in {"ul", "ol", "tr", "table"}
    ensures r.Ok? ==> Names(r.value) !! ClosedTags && Struct(r.value) == 0
    ensures r.Ok? ==> r.value.Element? && r.value.name == ReplacementName(tag)
    ensures r.Ok? && tag in {"ul", "ol"} ==> r.value.attrs == map["text:style-name" := tag]
    ensures r.Ok? && tag == "tr" ==> r.value.attrs == map["table:style-name" := "tr"]
    ensures r.Ok? && tag == "table" ==>
      r.value.attrs == map["table:style-name" := "table", "table:template-name" := "Academic"]
    ensures r.Ok? && tag == "table" ==> |r.value.children| >= 2 && r.value.children[0] == ColumnNode(cols)
    decreases StructAll(cs), 5, 0
  {
    var w := Wrapper(tag, cs);
    var sub :- ParseFormatting(o, w);
    match sub
    case None => Raised
    case Some(m) => if tag == "table" then AddColumn(m, cols) else Ok(m)
  }

  /** `new.children.first.before(tc)`: the column element goes in front of
      the first child; a table without children has none to put it before. */
  function AddColumn(m: Node, cols: string): (r: Result<Node>)
    ensures r.Raised? <==> m.Text? || m.children == []
    ensures r.Ok? ==> r.value.Element? && r.value.name == m.name && r.value.attrs == m.attrs
    ensures r.Ok? ==> r.value.children == [ColumnNode(cols)] + m.children
    ensures r.Ok? ==> Names(r.value) == Names(m) + {"table:table-column"} && Struct(r.value) == Struct(m)
  {
    match m
    case Text(_) => Raised
    case Element(mn, ma, mc) =>
      if mc == [] then Raised
      else
        NamesAllCons(ColumnNode(cols), mc);
        StructAllCons(ColumnNode(cols), mc);
        Ok(Element(mn, ma, [ColumnNode(cols)] + mc))
  }

  /** One of the rules li, ul, ol, td, tr, table over the tree below `n`. */
  function BuildPass(o: Options, tag: string, cols: string, n: Node): (r: Result<Node>)
    requires tag in StructTags
    ensures r.Ok? ==> Struct(r.value) <= Struct(n)
    ensures r.Ok? ==> Names(r.value) * ClosedTags <= Names(n) * ClosedTags - {tag}
    ensures r.Ok? && n.Element? ==> r.value.Element?
    ensures r.Ok? && n.Element? && n.name != tag ==>
      r.value.Element? && r.value.name == n.name && r.value.attrs == n.attrs
    decreases Struct(n), 1, Size(n)
  {
    match n
    case Text(_) => Ok(n)
    case Element(name, attrs, cs) =>
      if name == tag then
        var b := Build(o, tag, cols, attrs, cs);
        assert b.Ok? ==> Names(b.value) * ClosedTags == {};
        b
      else
        var rs :- BuildPassAll(o, tag, cols, cs);
        ClosedUnion({name}, NamesAll(rs), {name}, NamesAll(cs), {tag});
        Ok(Element(name, attrs, rs))
  }

  function BuildPassAll(o: Options, tag: string, cols: string, cs: seq<Node>): (r: Result<seq<Node>>)
    requires tag in StructTags
    ensures r.Ok? ==> StructAll(r.value) <= StructAll(cs)
    ensures r.Ok? ==> NamesAll(r.value) * ClosedTags <= NamesAll(cs) * ClosedTags - {tag}
    decreases StructAll(cs), 1, SizeAll(cs)
  {
    if cs == [] then Ok([])
    else
      var head :- BuildPass(o, tag, cols, cs[0]);
      var rest :- BuildPassAll(o, tag, cols, cs[1..]);
      NamesAllCons(head, rest);
      StructAllCons(head, rest);
      ClosedUnion(Names(head), NamesAll(rest), Names(cs[0]), NamesAll(cs[1..]), {tag});
      Ok([head] + rest)
  }

  // ---------------------------------------------------------------------------
  // tbody: `node.parent << node.children; node.remove`

  predicate IsTbody(n: Node) {
    n.Element? && n.name == "tbody"
  }

  /** The tree below a non-`tbody` node after all `tbody` elements are
      unpacked. */
  function UnpackNode(n: Node): (m: Node)
    ensures Names(m) <= Names(n) && (IsTbody(n) || "tbody" !in Names(m))
    ensures Struct(m) == Struct(n)
    ensures n.Element? ==> m.Element? && m.name == n.name && m.attrs == n.attrs
    decreases Size(n), 0
  {
    match n
    case Text(_) => n
    case Element(name, attrs, cs) => Element(name, attrs, Unpack(cs))
  }

  /** A child list after unpacking: the children that are not `tbody` stay
      where they are, and the children of each `tbody` are appended at the end
      of the list in document order, unpacked in turn. */
  function Unpack(cs: seq<Node>): (rs: seq<Node>)
    ensures NamesAll(rs) <= NamesAll(cs) - {"tbody"}
    ensures StructAll(rs) == StructAll(cs)
    decreases SizeAll(cs), 2
  {
    var k := Keep(cs);
    var s := Spill(cs);
    NamesAllAppend(k, s);
    StructAllAppend(k, s);
    k + s
  }

  function Keep(cs: seq<Node>): (rs: seq<Node>)
    ensures NamesAll(rs) <= NamesAll(cs) - {"tbody"}
    ensures StructAll(rs) + SpilledStruct(cs) == StructAll(cs)
    decreases SizeAll(cs), 1
  {
    if cs == [] then []
    else if IsTbody(cs[0]) then Keep(cs[1..])
    else
      var h := UnpackNode(cs[0]);
      var rest := Keep(cs[1..]);
      NamesAllCons(h, rest);
      StructAllCons(h, rest);
      [h] + rest
  }

  /** Struct count of the children of the `tbody` elements of `cs`. */
  function SpilledStruct(cs: seq<Node>): nat {
    if cs == [] then 0
    else (if IsTbody(cs[0]) then StructAll(cs[0].children) else 0) + SpilledStruct(cs[1..])
  }

  function Spill(cs: seq<Node>): (rs: seq<Node>)
    ensures NamesAll(rs) <= NamesAll(cs) - {"tbody"}
    ensures StructAll(rs) == SpilledStruct(cs)
    decreases SizeAll(cs), 1
  {
    if cs == [] then []
    else if IsTbody(cs[0]) then
      assert SizeAll(cs[0].children) < Size(cs[0]) < SizeAll(cs);
      var u := Unpack(cs[0].children);
      var rest := Spill(cs[1..]);
      NamesAllAppend(u, rest);
      StructAllAppend(u, rest);
      u + rest
    else Spill(cs[1..])
  }

  /** The `tbody` rule on the document whose root is `n`: a root `tbody` would
      hand its children to the document, which refuses a second root. */
  function TbodyPass(n: Node): (r: Result<Node>)
    ensures r.Ok? ==> Struct(r.value) == Struct(n)
    ensures r.Ok? ==> Names(r.value) * ClosedTags <= Names(n) * ClosedTags - {"tbody"}
    ensures n.Element? && !IsTbody(n) ==> r.Ok? && r.value.Element? && r.value.name == n.name && r.value.attrs == n.attrs
  {
    if IsTbody(n) then Raised else Ok(UnpackNode(n))
  }

  // ---------------------------------------------------------------------------
  // The column count of a table

  /** Number of direct `table:table-cell` children. */
  function DirectCells(cs: seq<Node>): nat {
    if cs == [] then 0
    else (if cs[0].Element? && cs[0].name == "table:table-cell" then 1 else 0) + DirectCells(cs[1..])
  }

  predicate IsRow(n: Node) {
    n.Element? && n.name == "table:table-row"
  }

  /** The direct cell count of every `table:table-row` of `n`, in document
      order. */
  function RowCells(n: Node): seq<nat> {
    match n
    case Text(_) => []
    case Element(name, _, cs) => (if IsRow(n) then [DirectCells(cs)] else []) + RowCellsAll(cs)
  }

  function RowCellsAll(cs: seq<Node>): seq<nat> {
    if cs == [] then [] else RowCells(cs[0]) + RowCellsAll(cs[1..])
  }

  /** The largest of a non-empty list. */
  function MaxOf(s: seq<nat>): (m: nat)
    requires s != []
    ensures m in s && forall i :: 0 <= i < |s| ==> s[i] <= m
  {
    if |s| == 1 then s[0]
    else
      var m := MaxOf(s[1..]);
      if s[0] >= m then s[0] else m
  }

  /** `max_cols`, as the attribute writes it: the largest row cell count in
      decimal, or the empty string (`nil.to_s`) when the document has no row. */
  function ColumnCount(n: Node): string {
    var rows := RowCells(n);
    if rows == [] then "" else NatToString(MaxOf(rows))
  }

  // ---------------------------------------------------------------------------
  // parse_formatting

  /** Every rule selects HTML tags only. */
  lemma SelectedHtml(r: Rule)
    requires r in Rules
    ensures Selected(r) <= HtmlTags
  {
    var i :| 0 <= i < |Rules| && Rules[i] == r;
    RuleHtmlAt(i);
  }

  lemma RuleHtmlAt(i: nat)
    requires i < |Rules|
    ensures Selected(Rules[i]) <= HtmlTags
  {
    if i < 5 {
    } else if i < 9 {
    } else if i < 13 {
    } else {
    }
  }

  /** No rule selects an element whose name is not an HTML tag of the rules. */
  lemma RulesSkip(name: string)
    ensures name !in HtmlTags ==> forall r | r in Rules :: name !in Selected(r)
  {
    forall r | r in Rules
      ensures Selected(r) <= HtmlTags
    {
      SelectedHtml(r);
    }
  }

  /** The closed names left after the passes, each removing its own tag. */
  lemma PassesExhaust(n2: set<string>, n3: set<string>, n4: set<string>, n5: set<string>,
                      n6: set<string>, n7: set<string>, n8: set<string>, n9: set<string>)
    requires n3 * ClosedTags <= n2 * ClosedTags - {"li"}
    requires n4 * ClosedTags <= n3 * ClosedTags - {"ul"}
    requires n5 * ClosedTags <= n4 * ClosedTags - {"ol"}
    requires n6 * ClosedTags <= n5 * ClosedTags - {"td"}
    requires n7 * ClosedTags <= n6 * ClosedTags - {"tr"}
    requires n8 * ClosedTags <= n7 * ClosedTags - {"tbody"}
    requires n9 * ClosedTags <= n8 * ClosedTags - {"table"}
    ensures n9 * ClosedTags <= n2 * {"br"}
  {
    var c := ClosedTags;
    assert n4 * c <= n2 * c - {"li", "ul"};
    assert n5 * c <= n2 * c - {"li", "ul", "ol"};
    assert n6 * c <= n2 * c - {"li", "ul", "ol", "td"};
    assert n7 * c <= n2 * c - {"li", "ul", "ol", "td", "tr"};
    assert n8 * c <= n2 * c - {"li", "ul", "ol", "td", "tr", "tbody"};
    assert n9 * c <= n2 * c - {"li", "ul", "ol", "td", "tr", "tbody", "table"};
  }

  /** The list, cell, row, tbody and table passes, in the source's order, over
      the document whose root is `t`. */
  function Passes(o: Options, t: Node): (r: Result<Node>)
    requires t.Element?
    ensures r.Ok? ==> r.value.Element? && Struct(r.value) <= Struct(t)
    ensures r.Ok? ==> Names(r.value) * ClosedTags <= Names(t) * {"br"}
    ensures r.Ok? && t.name !in ClosedTags ==> r.value.name == t.name && r.value.attrs == t.attrs
    decreases Struct(t), 2, 1
  {
    var t3 :- BuildPass(o, "li", "", t);
    var t4 :- BuildPass(o, "ul", "", t3);
    var t5 :- BuildPass(o, "ol", "", t4);
    var t6 :- BuildPass(o, "td", "", t5);
    var t7 :- BuildPass(o, "tr", "", t6);
    var t8 :- TbodyPass(t7);
    var t9 :- BuildPass(o, "table", ColumnCount(t8), t8);
    PassesExhaust(Names(t), Names(t3), Names(t4), Names(t5), Names(t6), Names(t7), Names(t8), Names(t9));
    Ok(t9)
  }

  /** The rules remove every `br`, and the passes every other closed tag. */
  lemma NoClosedLeft(before: set<string>, ruled: set<string>, passed: set<string>)
    requires ruled * ClosedTags <= before * ClosedTags - {"br"}
    requires passed * ClosedTags <= ruled * {"br"}
    ensures passed !! ClosedTags
  {
    forall x | x in passed
      ensures x !in ClosedTags
    {
      assert x in ClosedTags ==> x in ruled * {"br"};
      assert x in ruled * {"br"} ==> x in ruled * ClosedTags;
    }
  }

  /** `parse_formatting(tag)`: `Ok(Some(root))` for the rewritten document,
      `Ok(None)` when its root is gone (a removed class, or nothing but text),
      `Raised` when a rule raises. */
  function ParseFormatting(o: Options, n: Node): (r: Result<Option<Node>>)
    ensures r.Ok? && r.value.Some? ==> Names(r.value.value) !! ClosedTags && Struct(r.value.value) == 0
    ensures r.Ok? && r.value.Some? ==> r.value.value.Element?
    ensures r.Ok? && r.value.Some? && n.Element? && n.name !in HtmlTags ==>
      r.value.value.Element? && r.value.value.name == n.name && r.value.value.attrs == n.attrs
    decreases Struct(n), 2, 2
  {
    var t := Reparse(n);
    if t.Text? || Doomed(o, t) then Ok(None)
    else
      var t1 := Prune(o, t);
      var t2 := RewriteRules(o, Rules, t1);
      assert Break in Rules;
      RulesSkip(t1.name);
      var t9 :- Passes(o, t2);
      NoClosedLeft(Names(t1), Names(t2), Names(t9));
      NoStruct(t9);
      Ok(Some(t9))
  }
}
