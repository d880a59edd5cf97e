/** Properties of the style table of lib/odf-report/style.rb: the families,
    parents and properties of each arm, the assignments that overwrite earlier
    ones, the tokens no arm takes, and the font a `Style` keeps between
    documents. */
module StyleProps {
  import opened Html
  import opened StyleNames
  import opened Styles

  /** No heading pattern in a word without digits. */
  lemma {:induction false} NoDigitNoHeading(s: string)
    requires forall i | 0 <= i < |s| :: !('0' <= s[i] <= '9')
    ensures HeadingAt(s).None?
  {
  }

  /** A text-family token: its name and family, and one text-properties child
      with the token's assignments. */
  lemma TextStyle(s: string)
    requires s in TextTokens
    ensures var n := StyleNode(Sym(s));
      n.attrs == map["style:name" := s, "style:family" := "text"]
      && n.children == [Element("style:text-properties", Assign(map[], TextWrites(s)), [])]
  {
    var w := [("style:name", s), ("style:family", "text")];
    assert w[1..] == [("style:family", "text")] && w[1..][1..] == [];
    assert Assign(map[], w) == Assign(map["style:name" := s], w[1..]);
  }

  /** Bold, superscript and subscript. */
  lemma TextPositions()
    ensures StyleNode(Sym("bold")).children[0].attrs == map["fo:font-weight" := "bold", "fo:font-weight-asian" := "bold"]
    ensures StyleNode(Sym("sup")).children[0].attrs == map["style:text-position" := "super 58%"]
    ensures StyleNode(Sym("sub")).children[0].attrs == map["style:text-position" := "sub 58%"]
  {
    TextStyle("bold");
    TextStyle("sup");
    TextStyle("sub");
  }

  /** A heading token (a string, or a symbol outside the text arm, with `h`
      or `H` followed by a digit): a paragraph style under `body`, followed
      by `subparagraph`, whose outline level is that digit, with paragraph
      properties then bold text properties. */
  lemma HeadingStyle(t: Token, i: nat)
    requires !(t.Sym? && TokenName(t) in TextTokens) && HeadingAt(TokenName(t)) == Some(i)
    ensures var n := StyleNode(t); var s := TokenName(t);
      && "style:name" in n.attrs && n.attrs["style:name"] == s
      && "style:family" in n.attrs && n.attrs["style:family"] == "paragraph"
      && "style:parent-style-name" in n.attrs && n.attrs["style:parent-style-name"] == "body"
      && "style:next-style-name" in n.attrs && n.attrs["style:next-style-name"] == "subparagraph"
      && "style:default-outline-level" in n.attrs && n.attrs["style:default-outline-level"] == [s[i + 1]]
      && n.children == [Element("style:paragraph-properties", Assign(map[], HeadingParagraphWrites), []),
                        Element("style:text-properties", Assign(map[], HeadingTextWrites), [])]
  {
    var s := TokenName(t);
    var w := NameWrites(t);
    assert w == [("style:name", s), ("style:family", "paragraph"), ("style:parent-style-name", "body"),
      ("style:next-style-name", "subparagraph"), ("style:default-outline-level", [s[i + 1]])];
    AssignLastWins(map[], w, 0);
    AssignLastWins(map[], w, 1);
    AssignLastWins(map[], w, 2);
    AssignLastWins(map[], w, 3);
    AssignLastWins(map[], w, 4);
  }

  /** `h1` to `h9`, in either case and either kind, give their digit as the
      outline level. */
  lemma HeadingLevel(d: char)
    requires '0' <= d <= '9'
    ensures var a := StyleNode(Sym(['h', d])).attrs;
      "style:default-outline-level" in a && a["style:default-outline-level"] == [d]
    ensures var a := StyleNode(Str(['H', d])).attrs;
      "style:default-outline-level" in a && a["style:default-outline-level"] == [d]
  {
    assert HeadingAt(['h', d]) == Some(0);
    assert HeadingAt(['H', d]) == Some(0);
    assert |['h', d]| == 2;
    assert ['h', d] !in TextTokens;
    HeadingStyle(Sym(['h', d]), 0);
    HeadingStyle(Str(['H', d]), 0);
  }

  /** The heading left margin is assigned twice; the second value stays. */
  lemma HeadingMarginLeft()
    ensures var p := Assign(map[], HeadingParagraphWrites);
      "fo:margin-left" in p && p["fo:margin-left"] == "1.25cm"
  {
    AssignLastWins(map[], HeadingParagraphWrites, 8);
  }

  /** The heading text properties are bold. */
  lemma HeadingBold()
    ensures var p := Assign(map[], HeadingTextWrites);
      "fo:font-weight" in p && p["fo:font-weight"] == "bold"
  {
    AssignLastWins(map[], HeadingTextWrites, 0);
  }

  /** The symbols of the two plain paragraph arms. */
  lemma ParagraphArmOf()
    ensures ArmOf(Sym("p")) == ParagraphArm
  {
    NoDigitNoHeading("p");
  }

  lemma SubparagraphArmOf()
    ensures ArmOf(Sym("subparagraph")) == SubparagraphArm
  {
    NoDigitNoHeading("subparagraph");
  }

  /** `:p` is a paragraph style under `body` followed by `paragraph`, with an
      empty outline level and empty paragraph and text properties. */
  lemma ParagraphTokenStyle(t: Token)
    requires ArmOf(t) == ParagraphArm
    ensures var n := StyleNode(t);
      && "style:family" in n.attrs && n.attrs["style:family"] == "paragraph"
      && "style:parent-style-name" in n.attrs && n.attrs["style:parent-style-name"] == "body"
      && "style:next-style-name" in n.attrs && n.attrs["style:next-style-name"] == "paragraph"
      && "style:default-outline-level" in n.attrs && n.attrs["style:default-outline-level"] == ""
      && n.children == [Element("style:paragraph-properties", map[], []), Element("style:text-properties", map[], [])]
  {
    var w := NameWrites(t);
    assert w == [("style:name", TokenName(t)), ("style:family", "paragraph"), ("style:parent-style-name", "body"),
      ("style:next-style-name", "paragraph"), ("style:default-outline-level", "")];
    AssignLastWins(map[], w, 1);
    AssignLastWins(map[], w, 2);
    AssignLastWins(map[], w, 3);
    AssignLastWins(map[], w, 4);
  }

  /** `:subparagraph` is a paragraph style under `paragraph` followed by
      `subparagraph`, with an empty outline level and empty paragraph and text
      properties. */
  lemma SubparagraphTokenStyle(t: Token)
    requires ArmOf(t) == SubparagraphArm
    ensures var n := StyleNode(t);
      && "style:family" in n.attrs && n.attrs["style:family"] == "paragraph"
      && "style:parent-style-name" in n.attrs && n.attrs["style:parent-style-name"] == "paragraph"
      && "style:next-style-name" in n.attrs && n.attrs["style:next-style-name"] == "subparagraph"
      && "style:default-outline-level" in n.attrs && n.attrs["style:default-outline-level"] == ""
      && n.children == [Element("style:paragraph-properties", map[], []), Element("style:text-properties", map[], [])]
  {
    var w := NameWrites(t);
    assert w == [("style:name", TokenName(t)), ("style:family", "paragraph"), ("style:parent-style-name", "paragraph"),
      ("style:next-style-name", "subparagraph"), ("style:default-outline-level", "")];
    AssignLastWins(map[], w, 1);
    AssignLastWins(map[], w, 2);
    AssignLastWins(map[], w, 3);
    AssignLastWins(map[], w, 4);
  }

  /** The symbols that take the alignment arm. */
  lemma AlignArms()
    ensures ArmOf(Sym("center")) == AlignArm && ArmOf(Sym("left")) == AlignArm
    ensures ArmOf(Sym("right")) == AlignArm && ArmOf(Sym("justify")) == AlignArm
  {
    NoDigitNoHeading("center");
    NoDigitNoHeading("left");
    NoDigitNoHeading("right");
    NoDigitNoHeading("justify");
  }

  /** An alignment token: a paragraph style under `paragraph` whose only child
      aligns its text as the token says. */
  lemma AlignStyle(s: string)
    requires ArmOf(Sym(s)) == AlignArm
    ensures var n := StyleNode(Sym(s));
      && "style:family" in n.attrs && n.attrs["style:family"] == "paragraph"
      && "style:parent-style-name" in n.attrs && n.attrs["style:parent-style-name"] == "paragraph"
      && n.children == [Element("style:paragraph-properties", map["fo:text-align" := s], [])]
  {
    var w := NameWrites(Sym(s));
    assert w == [("style:name", s), ("style:family", "paragraph"), ("style:parent-style-name", "paragraph")];
    AssignLastWins(map[], w, 1);
    AssignLastWins(map[], w, 2);
    var a := [("fo:text-align", s)];
    assert a[1..] == [];
    assert Assign(map[], a) == Assign(map["fo:text-align" := s], a[1..]);
  }

  /** The family a two-assignment arm sets. */
  lemma FamilyOf(t: Token)
    requires |NameWrites(t)| == 2 && NameWrites(t)[1].0 == "style:family"
    ensures "style:family" in StyleNode(t).attrs && StyleNode(t).attrs["style:family"] == NameWrites(t)[1].1
  {
    AssignLastWins(map[], NameWrites(t), 1);
  }

  /** `:table` is a table style whose one child holds the table's width,
      margins and alignment. */
  lemma TableStyle()
    ensures var n := StyleNode(Sym("table"));
      n.attrs == map["style:name" := "table", "style:family" := "table"]
      && n.children == [Element("style:table-properties", map["style:rel-width" := "100%", "fo:margin-top" := "0.5cm",
        "fo:margin-right" := "0cm", "fo:margin-bottom" := "0.5cm", "fo:margin-left" := "0cm", "fo:text-align" := "left"], [])]
  {
    TableArmOf();
    var w := [("style:name", "table"), ("style:family", "table")];
    assert w[1..] == [("style:family", "table")] && w[1..][1..] == [];
    assert Assign(map[], w) == Assign(map["style:name" := "table"], w[1..]);
    TableProperties();
  }

  lemma TableArmOf()
    ensures ArmOf(Sym("table")) == TableArm
  {
    NoDigitNoHeading("table");
  }

  lemma TableProperties()
    ensures Assign(map[], TableWrites) == map["style:rel-width" := "100%", "fo:margin-top" := "0.5cm",
      "fo:margin-right" := "0cm", "fo:margin-bottom" := "0.5cm", "fo:margin-left" := "0cm", "fo:text-align" := "left"]
  {
    var w := TableWrites;
    var m1 := map["style:rel-width" := "100%"];
    var m2 := m1["fo:margin-top" := "0.5cm"];
    var m3 := m2["fo:margin-right" := "0cm"];
    var m4 := m3["fo:margin-bottom" := "0.5cm"];
    var m5 := m4["fo:margin-left" := "0cm"];
    var m6 := m5["fo:text-align" := "left"];
    assert Assign(map[], w) == Assign(m1, w[1..]);
    assert Assign(m1, w[1..]) == Assign(m2, w[2..]);
    assert Assign(m2, w[2..]) == Assign(m3, w[3..]);
    assert Assign(m3, w[3..]) == Assign(m4, w[4..]);
    assert Assign(m4, w[4..]) == Assign(m5, w[5..]);
    assert Assign(m5, w[5..]) == Assign(m6, w[6..]);
    assert w[6..] == [];
  }

  /** `:quote` is a paragraph style under `body`, without a next style or
      outline level, whose paragraphs are justified at 150% line height with
      0.5cm above and below and 1cm either side, in hyphenated italics. */
  lemma QuoteStyle()
    ensures var n := StyleNode(Sym("quote"));
      n.attrs == map["style:name" := "quote", "style:family" := "paragraph", "style:parent-style-name" := "body"]
      && n.children == [Element("style:paragraph-properties", map["fo:text-align" := "justify", "fo:line-height" := "150%",
          "fo:margin-top" := "0.5cm", "fo:margin-right" := "1cm", "fo:margin-bottom" := "0.5cm", "fo:margin-left" := "1cm"], []),
        Element("style:text-properties", map["fo:hyphenate" := "true", "fo:font-style" := "italic",
          "fo:font-style-asian" := "italic"], [])]
  {
    QuoteArmOf();
    ParagraphAttrs("quote", "body");
    QuoteProperties();
    QuoteText();
  }

  /** `:pre` is a paragraph style under `body`, without a next style or
      outline level, whose paragraphs are left-aligned at single line height
      on a transparent background, with a 0.05cm padding inside a thin black
      border, in hyphenated upright Courier New. */
  lemma PreStyle()
    ensures var n := StyleNode(Sym("pre"));
      n.attrs == map["style:name" := "pre", "style:family" := "paragraph", "style:parent-style-name" := "body"]
      && n.children == [Element("style:paragraph-properties", map["fo:text-align" := "left", "fo:line-height" := "100%",
          "fo:margin-top" := "0.5cm", "fo:margin-right" := "1cm", "fo:margin-bottom" := "0.5cm", "fo:margin-left" := "1cm",
          "fo:background-color" := "transparent", "fo:padding" := "0.05cm", "fo:border" := "0.06pt solid #000000"], []),
        Element("style:text-properties", map["fo:hyphenate" := "true", "fo:font-style" := "normal",
          "fo:font-style-asian" := "normal", "style:font-name" := "Courier New"], [])]
  {
    PreArmOf();
    ParagraphAttrs("pre", "body");
    PreProperties();
    PreText();
  }

  lemma QuoteArmOf()
    ensures ArmOf(Sym("quote")) == QuoteArm
  {
    NoDigitNoHeading("quote");
  }

  lemma PreArmOf()
    ensures ArmOf(Sym("pre")) == PreArm
  {
    NoDigitNoHeading("pre");
  }

  /** The three attributes of a paragraph-family style without a next style. */
  lemma ParagraphAttrs(s: string, parent: string)
    ensures Assign(map[], ParagraphStyle(s, parent))
      == map["style:name" := s, "style:family" := "paragraph", "style:parent-style-name" := parent]
  {
    var w := ParagraphStyle(s, parent);
    var m1 := map["style:name" := s];
    var m2 := m1["style:family" := "paragraph"];
    var m3 := m2["style:parent-style-name" := parent];
    assert Assign(map[], w) == Assign(m1, w[1..]);
    assert Assign(m1, w[1..]) == Assign(m2, w[2..]);
    assert Assign(m2, w[2..]) == Assign(m3, w[3..]);
    assert w[3..] == [];
  }

  lemma QuoteProperties()
    ensures Assign(map[], QuoteParagraphWrites) == map["fo:text-align" := "justify", "fo:line-height" := "150%",
      "fo:margin-top" := "0.5cm", "fo:margin-right" := "1cm", "fo:margin-bottom" := "0.5cm", "fo:margin-left" := "1cm"]
  {
    var w := QuoteParagraphWrites;
    var m1 := map["fo:text-align" := "justify"];
    var m2 := m1["fo:line-height" := "150%"];
    var m3 := m2["fo:margin-top" := "0.5cm"];
    var m4 := m3["fo:margin-right" := "1cm"];
    var m5 := m4["fo:margin-bottom" := "0.5cm"];
    var m6 := m5["fo:margin-left" := "1cm"];
    assert Assign(map[], w) == Assign(m1, w[1..]);
    assert Assign(m1, w[1..]) == Assign(m2, w[2..]);
    assert Assign(m2, w[2..]) == Assign(m3, w[3..]);
    assert Assign(m3, w[3..]) == Assign(m4, w[4..]);
    assert Assign(m4, w[4..]) == Assign(m5, w[5..]);
    assert Assign(m5, w[5..]) == Assign(m6, w[6..]);
    assert w[6..] == [];
  }

  lemma QuoteText()
    ensures Assign(map[], QuoteTextWrites)
      == map["fo:hyphenate" := "true", "fo:font-style" := "italic", "fo:font-style-asian" := "italic"]
  {
    var w := QuoteTextWrites;
    var m1 := map["fo:hyphenate" := "true"];
    var m2 := m1["fo:font-style" := "italic"];
    var m3 := m2["fo:font-style-asian" := "italic"];
    assert Assign(map[], w) == Assign(m1, w[1..]);
    assert Assign(m1, w[1..]) == Assign(m2, w[2..]);
    assert Assign(m2, w[2..]) == Assign(m3, w[3..]);
    assert w[3..] == [];
  }

  lemma PreProperties()
    ensures Assign(map[], PreParagraphWrites) == map["fo:text-align" := "left", "fo:line-height" := "100%",
      "fo:margin-top" := "0.5cm", "fo:margin-right" := "1cm", "fo:margin-bottom" := "0.5cm", "fo:margin-left" := "1cm",
      "fo:background-color" := "transparent", "fo:padding" := "0.05cm", "fo:border" := "0.06pt solid #000000"]
  {
    var w := PreParagraphWrites;
    var m1 := map["fo:text-align" := "left"];
    var m2 := m1["fo:line-height" := "100%"];
    var m3 := m2["fo:margin-top" := "0.5cm"];
    var m4 := m3["fo:margin-right" := "1cm"];
    var m5 := m4["fo:margin-bottom" := "0.5cm"];
    var m6 := m5["fo:margin-left" := "1cm"];
    var m7 := m6["fo:background-color" := "transparent"];
    var m8 := m7["fo:padding" := "0.05cm"];
    var m9 := m8["fo:border" := "0.06pt solid #000000"];
    assert Assign(map[], w) == Assign(m1, w[1..]);
    assert Assign(m1, w[1..]) == Assign(m2, w[2..]);
    assert Assign(m2, w[2..]) == Assign(m3, w[3..]);
    assert Assign(m3, w[3..]) == Assign(m4, w[4..]);
    assert Assign(m4, w[4..]) == Assign(m5, w[5..]);
    assert Assign(m5, w[5..]) == Assign(m6, w[6..]);
    assert Assign(m6, w[6..]) == Assign(m7, w[7..]);
    assert Assign(m7, w[7..]) == Assign(m8, w[8..]);
    assert Assign(m8, w[8..]) == Assign(m9, w[9..]);
    assert w[9..] == [];
  }

  lemma PreText()
    ensures Assign(map[], PreTextWrites) == map["fo:hyphenate" := "true", "fo:font-style" := "normal",
      "fo:font-style-asian" := "normal", "style:font-name" := "Courier New"]
  {
    var w := PreTextWrites;
    var m1 := map["fo:hyphenate" := "true"];
    var m2 := m1["fo:font-style" := "normal"];
    var m3 := m2["fo:font-style-asian" := "normal"];
    var m4 := m3["style:font-name" := "Courier New"];
    assert Assign(map[], w) == Assign(m1, w[1..]);
    assert Assign(m1, w[1..]) == Assign(m2, w[2..]);
    assert Assign(m2, w[2..]) == Assign(m3, w[3..]);
    assert Assign(m3, w[3..]) == Assign(m4, w[4..]);
    assert w[4..] == [];
  }

  /** `:tr` is a table-row style with empty row properties. */
  lemma RowStyle()
    ensures var n := StyleNode(Sym("tr"));
      "style:family" in n.attrs && n.attrs["style:family"] == "table-row"
      && n.children == [Element("style:table-row-properties", map[], [])]
  {
    assert ArmOf(Sym("tr")) == RowArm;
    FamilyOf(Sym("tr"));
  }

  /** `:tc` is a table-column style whose column width is automatic. */
  lemma ColumnStyle()
    ensures var n := StyleNode(Sym("tc"));
      "style:family" in n.attrs && n.attrs["style:family"] == "table-column"
      && n.children == [Element("style:table-column-properties", map["style:column-width" := "auto"], [])]
  {
    assert ArmOf(Sym("tc")) == ColumnArm;
    FamilyOf(Sym("tc"));
    var a := [("style:column-width", "auto")];
    assert a[1..] == [];
    assert Assign(map[], a) == Assign(map["style:column-width" := "auto"], a[1..]);
  }

  /** `:td` is a table-cell style with cell properties. */
  lemma CellStyle()
    ensures var n := StyleNode(Sym("td"));
      "style:family" in n.attrs && n.attrs["style:family"] == "table-cell"
      && n.children == [Element("style:table-cell-properties", Assign(map[], CellWrites), [])]
  {
    assert ArmOf(Sym("td")) == CellArm;
    FamilyOf(Sym("td"));
  }

  /** The cell border is assigned twice; the second value stays. */
  lemma CellBorder()
    ensures var p := Assign(map[], CellWrites); "fo:border" in p && p["fo:border"] == "0.06pt solid #000000"
  {
    AssignLastWins(map[], CellWrites, 7);
  }

  /** The tokens no arm takes: neither a text or later symbol, nor a heading. */
  lemma UnknownArm(t: Token)
    ensures ArmOf(t).NoArm? <==> (t.Sym? ==> TokenName(t) !in TextTokens + OtherTokens) && HeadingAt(TokenName(t)).None?
  {
  }

  /** A token no arm takes gives a bare `style:style`, without attributes or
      children; every other token gets at least a `style:name`. */
  lemma UnknownToken(t: Token)
    ensures StyleNode(t) == Element(StyleTag, map[], []) <==> ArmOf(t).NoArm?
  {
    var w := NameWrites(t);
    if !ArmOf(t).NoArm? {
      assert w[0].0 == "style:name";
      AssignKeys(map[], w, "style:name");
    }
  }

  /** The plain-paragraph and list-item names have no arm, and neither has a
      string naming a later arm. */
  lemma UnknownExamples()
    ensures StyleNode(Sym("paragraph")) == Element(StyleTag, map[], [])
    ensures StyleNode(Str("p")) == Element(StyleTag, map[], [])
  {
    UnknownParagraph();
    UnknownToken(Sym("paragraph"));
    UnknownToken(Str("p"));
  }

  lemma UnknownParagraph()
    ensures ArmOf(Sym("paragraph")).NoArm? && ArmOf(Str("p")).NoArm?
  {
    NoDigitNoHeading("paragraph");
    NoDigitNoHeading("p");
  }

  /** Exactly the symbols `pre` and `code` record a font. */
  lemma FontTokens(t: Token)
    ensures SetsFont(t) <==> t == Sym("pre") || t == Sym("code")
  {
    if t == Sym("pre") {
      assert ArmOf(t) == PreArm;
    }
  }

  /** The recorded font outlives the document it was recorded for: a second
      document without automatic styles still receives the font face. */
  lemma FontPersists(t: Token, d1: Sheet, d2: Sheet)
    requires SetsFont(t) && d1.automaticStyles.Some? && d2.automaticStyles.None? && d2.fontFaceDecls.Some?
    ensures var r1 := AddedStyle(t, None, d1);
      var r2 := AddedStyle(t, r1.font, d2);
      r2.sheet == Sheet(None, Some(d2.fontFaceDecls.value + [FontFace(CourierNew)]))
  {
  }

  /** Another token never records a font, and then no document receives a
      font face. */
  lemma NoFontElsewhere(t: Token, d: Sheet)
    requires !SetsFont(t)
    ensures AddedStyle(t, None, d).font.None?
    ensures AddedStyle(t, None, d).sheet.fontFaceDecls == d.fontFaceDecls
  {
  }

  /** The Courier New font face. */
  lemma CourierFace()
    ensures FontFace(CourierNew).attrs == map["style:name" := "Courier New", "svg:font-family" := "'Courier New'",
      "style:font-family-generic" := "system", "style:font-pitch" := "fixed"]
  {
  }
}
