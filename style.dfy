/** The automatic styles of a report (lib/odf-report/style.rb): a style token
    becomes one `style:style` element with fixed properties children, appended
    to the document's `office:automatic-styles`; the monospaced tokens also
    record a font, whose `style:font-face` goes to `office:font-face-decls`. */
module Styles {
  import opened Html
  import opened StyleNames

  /** A style token: a Ruby symbol, or a string. Every arm of `create_style`
      compares against a symbol except the heading pattern, which matches
      either kind by its text. */
  datatype Token = Sym(name: string) | Str(text: string)

  /** `@style.to_s`. */
  function TokenName(t: Token): string {
    match t
    case Sym(n) => n
    case Str(s) => s
  }

  /** The recorded font (`@font`); `None` is the empty hash. */
  datatype Font = Font(name: string, family: string, generic: string, pitch: string)

  const CourierNew: Font := Font("Courier New", "'Courier New'", "system", "fixed")

  const StyleTag: string := "style:style"

  // ---------------------------------------------------------------------------
  // Attribute assignment

  /** The successive assignments `node[key] = value` of `writes`, in order,
      onto the attributes `m`. */
  function Assign(m: map<string, string>, writes: seq<(string, string)>): map<string, string>
    decreases |writes|
  {
    if writes == [] then m else Assign(m[writes[0].0 := writes[0].1], writes[1..])
  }

  /** The keys are those of `m` and those written. */
  lemma {:induction false} AssignKeys(m: map<string, string>, writes: seq<(string, string)>, k: string)
    ensures k in Assign(m, writes) <==> k in m || exists i | 0 <= i < |writes| :: writes[i].0 == k
    decreases |writes|
  {
    if writes != [] {
      var rest := writes[1..];
      AssignKeys(m[writes[0].0 := writes[0].1], rest, k);
      if exists i | 0 <= i < |rest| :: rest[i].0 == k {
        var i :| 0 <= i < |rest| && rest[i].0 == k;
        assert writes[i + 1].0 == k;
      }
      if exists i | 0 <= i < |writes| :: writes[i].0 == k {
        var i :| 0 <= i < |writes| && writes[i].0 == k;
        if i > 0 {
          assert rest[i - 1].0 == k;
        }
      }
    }
  }

  /** The last write of a key wins. */
  lemma {:induction false} AssignLastWins(m: map<string, string>, writes: seq<(string, string)>, i: nat)
    requires i < |writes|
    requires forall j | i < j < |writes| :: writes[j].0 != writes[i].0
    ensures writes[i].0 in Assign(m, writes) && Assign(m, writes)[writes[i].0] == writes[i].1
    decreases |writes|
  {
    var m1 := m[writes[0].0 := writes[0].1];
    if i == 0 {
      AssignUnwritten(m1, writes[1..], writes[0].0);
    } else {
      assert writes[1..][i - 1] == writes[i];
      assert forall j | i - 1 < j < |writes[1..]| :: writes[1..][j] == writes[j + 1];
      AssignLastWins(m1, writes[1..], i - 1);
    }
  }

  /** A key never written keeps its value. */
  lemma {:induction false} AssignUnwritten(m: map<string, string>, writes: seq<(string, string)>, k: string)
    requires forall j | 0 <= j < |writes| :: writes[j].0 != k
    ensures k in Assign(m, writes) <==> k in m
    ensures k in m ==> Assign(m, writes)[k] == m[k]
    decreases |writes|
  {
    if writes != [] {
      assert forall j | 0 <= j < |writes[1..]| :: writes[1..][j] == writes[j + 1];
      AssignUnwritten(m[writes[0].0 := writes[0].1], writes[1..], k);
    }
  }

  // ---------------------------------------------------------------------------
  // The arms of `create_style`

  /** The symbols of the text-family arm. */
  const TextTokens: set<string> := {"bold", "underline", "italic", "strikethrough", "sub", "sup", "code", "a"}

  /** The symbols of every later arm. */
  const OtherTokens: set<string> := {"p", "subparagraph", "center", "left", "right", "justify", "quote", "pre",
    "table", "tr", "tc", "td"}

  const AlignTokens: set<string> := {"center", "left", "right", "justify"}

  /** Which arm of the two `case` statements a token takes. */
  datatype Arm =
    | TextArm
    | HeadingArm(level: char)
    | ParagraphArm
    | SubparagraphArm
    | AlignArm
    | QuoteArm
    | PreArm
    | TableArm
    | RowArm
    | ColumnArm
    | CellArm
    | NoArm

  function ArmOf(t: Token): Arm {
    var s := TokenName(t);
    if t.Sym? && s in TextTokens then TextArm
    else if HeadingAt(s).Some? then HeadingArm(s[HeadingAt(s).value + 1])
    else if t.Str? then NoArm
    else if s == "p" then ParagraphArm
    else if s == "subparagraph" then SubparagraphArm
    else if s in AlignTokens then AlignArm
    else if s == "quote" then QuoteArm
    else if s == "pre" then PreArm
    else if s == "table" then TableArm
    else if s == "tr" then RowArm
    else if s == "tc" then ColumnArm
    else if s == "td" then CellArm
    else NoArm
  }

  const UnderlineWrites: seq<(string, string)> := [("style:text-underline-type", "single"),
    ("style:text-underline-style", "solid"), ("style:text-underline-width", "auto"),
    ("style:text-underline-mode", "continuous")]

  /** The text-properties assignments of the text-family tokens. */
  function TextWrites(s: string): seq<(string, string)> {
    if s == "bold" then [("fo:font-weight", "bold"), ("fo:font-weight-asian", "bold")]
    else if s == "underline" then UnderlineWrites
    else if s == "italic" then [("fo:font-style", "italic"), ("fo:font-style-asian", "italic")]
    else if s == "strikethrough" then [("style:text-line-through-style", "solid"), ("style:text-line-through-type", "single")]
    else if s == "code" then [("style:font-name", "Courier New")]
    else if s == "sup" then [("style:text-position", "super 58%")]
    else if s == "sub" then [("style:text-position", "sub 58%")]
    else if s == "a" then [("fo:color", "#0000ff")] + UnderlineWrites
    else []
  }

  const HeadingParagraphWrites: seq<(string, string)> := [("fo:text-align", "left"), ("fo:line-height", "100%"),
    ("fo:margin-left", "0cm"), ("fo:margin-right", "0cm"), ("fo:keep-with-next", "always"),
    ("fo:margin-top", "1.25cm"), ("fo:margin-right", "0cm"), ("fo:margin-bottom", "0.5cm"),
    ("fo:margin-left", "1.25cm"), ("fo:text-indent", "-1.25cm"), ("style:auto-text-indent", "false")]

  const HeadingTextWrites: seq<(string, string)> := [("fo:font-weight", "bold"), ("fo:font-weight-asian", "bold"),
    ("fo:hyphenate", "true")]

  const QuoteParagraphWrites: seq<(string, string)> := [("fo:text-align", "justify"), ("fo:line-height", "150%"),
    ("fo:margin-top", "0.5cm"), ("fo:margin-right", "1cm"), ("fo:margin-bottom", "0.5cm"), ("fo:margin-left", "1cm")]

  const QuoteTextWrites: seq<(string, string)> := [("fo:hyphenate", "true"), ("fo:font-style", "italic"),
    ("fo:font-style-asian", "italic")]

  const PreParagraphWrites: seq<(string, string)> := [("fo:text-align", "left"), ("fo:line-height", "100%"),
    ("fo:margin-top", "0.5cm"), ("fo:margin-right", "1cm"), ("fo:margin-bottom", "0.5cm"), ("fo:margin-left", "1cm"),
    ("fo:background-color", "transparent"), ("fo:padding", "0.05cm"), ("fo:border", "0.06pt solid #000000")]

  const PreTextWrites: seq<(string, string)> := [("fo:hyphenate", "true"), ("fo:font-style", "normal"),
    ("fo:font-style-asian", "normal"), ("style:font-name", "Courier New")]

  const TableWrites: seq<(string, string)> := [("style:rel-width", "100%"), ("fo:margin-top", "0.5cm"),
    ("fo:margin-right", "0cm"), ("fo:margin-bottom", "0.5cm"), ("fo:margin-left", "0cm"), ("fo:text-align", "left")]

  const CellWrites: seq<(string, string)> := [("style:writing-mode", "lr-tb"), ("fo:text-align", "left"),
    ("fo:border", "lr-tb"), ("fo:padding-top", "0.1cm"), ("fo:padding-right", "0.1cm"),
    ("fo:padding-bottom", "0.1cm"), ("fo:padding-left", "0.1cm"), ("fo:border", "0.06pt solid #000000")]

  /** A properties child of a style. */
  function Properties(name: string, writes: seq<(string, string)>): Node {
    Element(name, Assign(map[], writes), [])
  }

  /** The common attributes of a paragraph-family style. */
  function ParagraphStyle(s: string, parent: string): seq<(string, string)> {
    [("style:name", s), ("style:family", "paragraph"), ("style:parent-style-name", parent)]
  }

  /** The `style:style` element `create_style` builds for a token: the
      style attributes of its arm, and the properties children of its arm. */
  function StyleNode(t: Token): (n: Node)
    ensures n.Element? && n.name == StyleTag
  {
    Element(StyleTag, Assign(map[], NameWrites(t)), PropertiesOf(t))
  }

  /** The style-attribute assignments of a token's arm, in the order of the
      source. The `:p` and `:subparagraph` arms assign `$1` after the heading
      pattern has failed to match; it is nil then, and an attribute set to
      nil holds the empty string. */
  function NameWrites(t: Token): seq<(string, string)> {
    var s := TokenName(t);
    match ArmOf(t)
    case TextArm => [("style:name", s), ("style:family", "text")]
    case HeadingArm(level) =>
      ParagraphStyle(s, "body") + [("style:next-style-name", "subparagraph"), ("style:default-outline-level", [level])]
    case ParagraphArm =>
      ParagraphStyle(s, "body") + [("style:next-style-name", "paragraph"), ("style:default-outline-level", "")]
    case SubparagraphArm =>
      ParagraphStyle(s, "paragraph") + [("style:next-style-name", "subparagraph"), ("style:default-outline-level", "")]
    case AlignArm => ParagraphStyle(s, "paragraph")
    case QuoteArm => ParagraphStyle(s, "body")
    case PreArm => ParagraphStyle(s, "body")
    case TableArm => [("style:name", s), ("style:family", "table")]
    case RowArm => [("style:name", s), ("style:family", "table-row")]
    case ColumnArm => [("style:name", s), ("style:family", "table-column")]
    case CellArm => [("style:name", s), ("style:family", "table-cell")]
    case NoArm => []
  }

  /** The properties children of a token's arm, each with the assignments of
      the second `case`. */
  function PropertiesOf(t: Token): seq<Node> {
    match ArmOf(t)
    case TextArm => [Properties("style:text-properties", TextWrites(TokenName(t)))]
    case HeadingArm(_) =>
      [Properties("style:paragraph-properties", HeadingParagraphWrites), Properties("style:text-properties", HeadingTextWrites)]
    case ParagraphArm => [Properties("style:paragraph-properties", []), Properties("style:text-properties", [])]
    case SubparagraphArm => [Properties("style:paragraph-properties", []), Properties("style:text-properties", [])]
    case AlignArm => [Properties("style:paragraph-properties", [("fo:text-align", TokenName(t))])]
    case QuoteArm =>
      [Properties("style:paragraph-properties", QuoteParagraphWrites), Properties("style:text-properties", QuoteTextWrites)]
    case PreArm =>
      [Properties("style:paragraph-properties", PreParagraphWrites), Properties("style:text-properties", PreTextWrites)]
    case TableArm => [Properties("style:table-properties", TableWrites)]
    case RowArm => [Properties("style:table-row-properties", [])]
    case ColumnArm => [Properties("style:table-column-properties", [("style:column-width", "auto")])]
    case CellArm => [Properties("style:table-cell-properties", CellWrites)]
    case NoArm => []
  }

  /** Only the monospaced tokens record a font. */
  predicate SetsFont(t: Token) {
    ArmOf(t).PreArm? || (ArmOf(t).TextArm? && TokenName(t) == "code")
  }

  /** The `style:font-face` `create_font` builds from the recorded font. */
  function FontFace(f: Font): (n: Node)
    ensures n.Element? && n.name == "style:font-face" && n.children == []
    ensures n.attrs.Keys == {"style:name", "svg:font-family", "style:font-family-generic", "style:font-pitch"}
  {
    Element("style:font-face", map["style:name" := f.name, "svg:font-family" := f.family,
      "style:font-family-generic" := f.generic, "style:font-pitch" := f.pitch], [])
  }

  // ---------------------------------------------------------------------------
  // `add_style` on a document

  /** The two containers of a document that `add_style` looks up: the children
      of the first `office:automatic-styles` and of the first
      `office:font-face-decls`, `None` when there is no such element. */
  datatype Sheet = Sheet(automaticStyles: Option<seq<Node>>, fontFaceDecls: Option<seq<Node>>)

  datatype Added = Added(font: Option<Font>, sheet: Sheet)

  /** The recorded font and the document after one `add_style`: the style is
      built, and the font recorded, only when the document has automatic
      styles; the font face is appended whenever a font is recorded, by this
      call or an earlier one, and the document has font declarations. */
  function AddedStyle(t: Token, font: Option<Font>, d: Sheet): (r: Added)
    ensures d.automaticStyles.None? ==> r.sheet.automaticStyles.None? && r.font == font
    ensures d.automaticStyles.Some? ==> r.sheet.automaticStyles == Some(d.automaticStyles.value + [StyleNode(t)])
    ensures r.font.Some? <==> font.Some? || (d.automaticStyles.Some? && SetsFont(t))
    ensures d.fontFaceDecls.None? ==> r.sheet.fontFaceDecls.None?
    ensures d.fontFaceDecls.Some? && r.font.Some? ==>
      r.sheet.fontFaceDecls == Some(d.fontFaceDecls.value + [FontFace(r.font.value)])
    ensures r.font.None? ==> r.sheet.fontFaceDecls == d.fontFaceDecls
  {
    var styles := if d.automaticStyles.Some? then Some(d.automaticStyles.value + [StyleNode(t)]) else None;
    var font1 := if d.automaticStyles.Some? && SetsFont(t) then Some(CourierNew) else font;
    var faces := if font1.Some? && d.fontFaceDecls.Some? then Some(d.fontFaceDecls.value + [FontFace(font1.value)])
      else d.fontFaceDecls;
    Added(font1, Sheet(styles, faces))
  }

  /** The part of a document `add_style` changes. */
  class Content {
    var automaticStyles: Option<seq<Node>>
    var fontFaceDecls: Option<seq<Node>>

    constructor(automaticStyles: Option<seq<Node>>, fontFaceDecls: Option<seq<Node>>)
      ensures this.automaticStyles == automaticStyles && this.fontFaceDecls == fontFaceDecls
    {
      this.automaticStyles := automaticStyles;
      this.fontFaceDecls := fontFaceDecls;
    }

    function Current(): Sheet
      reads this
    {
      Sheet(automaticStyles, fontFaceDecls)
    }
  }

  /** `ODFReport::Style`: a token and the font it has recorded. */
  class Style {
    const style: Token
    var font: Option<Font>

    constructor(style: Token)
      ensures this.style == style && font.None?
    {
      this.style := style;
      font := None;
    }

    /** `create_style`: the style element, recording the font of a
        monospaced token. */
    method CreateStyle() returns (n: Node)
      modifies this
      ensures n == StyleNode(style)
      ensures font == if SetsFont(style) then Some(CourierNew) else old(font)
    {
      n := StyleNode(style);
      if SetsFont(style) {
        font := Some(CourierNew);
      }
    }

    /** `create_font`: called only when a font is recorded. */
    method CreateFont() returns (n: Node)
      requires font.Some?
      ensures n == FontFace(font.value)
    {
      n := FontFace(font.value);
    }

    /** `add_style`: appends the style to the automatic styles and, when a
        font is recorded, the font face to the font declarations. */
    method AddStyle(doc: Content)
      modifies this, doc
      ensures Added(font, doc.Current()) == AddedStyle(style, old(font), old(doc.Current()))
    {
      if doc.automaticStyles.Some? {
        var n := CreateStyle();
        doc.automaticStyles := Some(doc.automaticStyles.value + [n]);
      }
      if font.Some? {
        if doc.fontFaceDecls.Some? {
          var f := CreateFont();
          doc.fontFaceDecls := Some(doc.fontFaceDecls.value + [f]);
        }
      }
    }
  }
}
