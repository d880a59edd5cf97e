/** Properties of the tag rules of `parse_formatting`: what each step leaves
    alone, that re-reading gives a normal tree, that an already converted tree
    comes back unchanged, and the shapes of the list, cell and table
    replacements. */
module FormattingProps {
  import opened Html
  import opened Trees
  import opened StyleNames
  import opened Formatting

  // ---------------------------------------------------------------------------
  // Re-reading

  /** Gluing a normal node in front of a normal list keeps it normal. */
  lemma {:induction false} GlueNormal(x: Node, rest: seq<Node>)
    requires x.Text? ==> NoControls(x.text)
    requires x.Element? ==> Normal(x)
    requires NormalAll(rest)
    ensures NormalAll(Glue(x, rest))
  {
    if x.Text? && x.text == [] {
    } else if x.Text? && rest != [] && rest[0].Text? {
      var y := Text(x.text + rest[0].text);
      var rs := [y] + rest[1..];
      assert Normal(y);
      forall i | 0 < i < |rs|
        ensures !(rs[i - 1].Text? && rs[i].Text?)
      {
        if i > 1 {
          assert rs[i - 1] == rest[i - 1] && rs[i] == rest[i];
        } else {
          assert rs[1] == rest[1];
        }
      }
    } else {
      var rs := [x] + rest;
      assert forall i | 0 < i < |rs| :: rs[i] == rest[i - 1];
      assert Normal(x);
    }
  }

  /** The re-read element is normal: no control character, no empty text, no
      two adjacent texts. */
  lemma {:induction false} ReparseNormalizes(n: Node)
    ensures n.Element? ==> Normal(Reparse(n))
  {
    match n
    case Text(t) =>
    case Element(_, _, cs) => ReparseAllNormalizes(cs);
  }

  lemma {:induction false} ReparseAllNormalizes(cs: seq<Node>)
    ensures NormalAll(ReparseAll(cs))
  {
    if cs != [] {
      ReparseNormalizes(cs[0]);
      ReparseAllNormalizes(cs[1..]);
      GlueNormal(Reparse(cs[0]), ReparseAll(cs[1..]));
    }
  }

  /** A normal tree is what the parser gives back for it. */
  lemma {:induction false} ReparseNormal(n: Node)
    requires Normal(n)
    ensures Reparse(n) == n
  {
    match n
    case Text(t) =>
    case Element(_, _, cs) => ReparseAllNormal(cs);
  }

  lemma {:induction false} ReparseAllNormal(cs: seq<Node>)
    requires NormalAll(cs)
    ensures ReparseAll(cs) == cs
  {
    if cs != [] {
      assert Normal(cs[0]);
      ReparseNormal(cs[0]);
      assert NormalAll(cs[1..]) by {
        assert forall i | 0 <= i < |cs[1..]| :: cs[1..][i] == cs[i + 1];
      }
      ReparseAllNormal(cs[1..]);
      assert cs == [cs[0]] + cs[1..];
      assert cs[1..] != [] ==> cs[1..][0] == cs[1];
    }
  }

  /** Serialising and parsing again changes nothing the second time. */
  lemma ReparseIdempotent(n: Node)
    ensures Reparse(Reparse(n)) == Reparse(n)
  {
    ReparseNormalizes(n);
    if n.Text? {
      assert NoControls(Reparse(n).text);
    } else {
      ReparseNormal(Reparse(n));
    }
  }

  // ---------------------------------------------------------------------------
  // Removal by class

  /** No element below `n` is removed by class. */
  predicate Undoomed(o: Options, n: Node) {
    match n
    case Text(_) => true
    case Element(_, _, cs) => forall i | 0 <= i < |cs| :: !Doomed(o, cs[i]) && Undoomed(o, cs[i])
  }

  /** After the removal no element below the root is still removable. */
  lemma {:induction false} PruneComplete(o: Options, n: Node)
    ensures Undoomed(o, Prune(o, n))
  {
    match n
    case Text(_) =>
    case Element(_, _, cs) => PruneAllComplete(o, cs);
  }

  lemma {:induction false} PruneAllComplete(o: Options, cs: seq<Node>)
    ensures forall i | 0 <= i < |PruneAll(o, cs)| :: !Doomed(o, PruneAll(o, cs)[i]) && Undoomed(o, PruneAll(o, cs)[i])
  {
    if cs != [] {
      PruneAllComplete(o, cs[1..]);
      if !Doomed(o, cs[0]) {
        PruneComplete(o, cs[0]);
        var rs := PruneAll(o, cs);
        assert rs == [Prune(o, cs[0])] + PruneAll(o, cs[1..]);
        assert !Doomed(o, Prune(o, cs[0]));
      }
    }
  }

  /** Without removable elements the removal changes nothing. */
  lemma {:induction false} PruneUndoomed(o: Options, n: Node)
    requires Undoomed(o, n)
    ensures Prune(o, n) == n
  {
    match n
    case Text(_) =>
    case Element(_, _, cs) => PruneAllUndoomed(o, cs);
  }

  lemma {:induction false} PruneAllUndoomed(o: Options, cs: seq<Node>)
    requires forall i | 0 <= i < |cs| :: !Doomed(o, cs[i]) && Undoomed(o, cs[i])
    ensures PruneAll(o, cs) == cs
  {
    if cs != [] {
      PruneUndoomed(o, cs[0]);
      PruneAllUndoomed(o, cs[1..]);
      assert cs == [cs[0]] + cs[1..];
    }
  }

  // ---------------------------------------------------------------------------
  // The renaming rules

  /** A rule changes nothing in a tree without an element it selects. */
  lemma {:induction false} RewriteUntouched(o: Options, r: Rule, n: Node, parent: string)
    requires Names(n) !! Selected(r)
    ensures Rewrite(o, r, n, parent) == n
  {
    match n
    case Text(_) =>
    case Element(name, _, cs) => RewriteAllUntouched(o, r, cs, name);
  }

  lemma {:induction false} RewriteAllUntouched(o: Options, r: Rule, cs: seq<Node>, parent: string)
    requires NamesAll(cs) !! Selected(r)
    ensures RewriteAll(o, r, cs, parent) == cs
  {
    if cs != [] {
      RewriteUntouched(o, r, cs[0], parent);
      RewriteAllUntouched(o, r, cs[1..], parent);
      assert cs == [cs[0]] + cs[1..];
    }
  }

  lemma {:induction false} RewriteRulesUntouched(o: Options, rs: seq<Rule>, n: Node)
    requires forall r | r in rs :: Names(n) !! Selected(r)
    ensures RewriteRules(o, rs, n) == n
  {
    if rs != [] {
      RewriteUntouched(o, rs[0], n, DocumentName);
      RewriteRulesUntouched(o, rs[1..], n);
    }
  }

  /** The renaming rules keep the text of the tree: only a line break, which
      has no content, turns into an element without text. */
  lemma {:induction false} RewriteKeepsText(o: Options, r: Rule, n: Node, parent: string)
    requires !r.Break?
    ensures TextOf(Rewrite(o, r, n, parent)) == TextOf(n)
  {
    match n
    case Text(_) =>
    case Element(name, attrs, cs) =>
      RewriteAllKeepsText(o, r, cs, name);
      if name in Selected(r) && r.Anchor? && cs != [] {
        var span := TextNode("text:span", "a", cs);
        assert TextOfAll([span]) == TextOf(span) + TextOfAll([]);
      }
  }

  lemma {:induction false} RewriteAllKeepsText(o: Options, r: Rule, cs: seq<Node>, parent: string)
    requires !r.Break?
    ensures TextOfAll(RewriteAll(o, r, cs, parent)) == TextOfAll(cs)
  {
    if cs != [] {
      RewriteKeepsText(o, r, cs[0], parent);
      RewriteAllKeepsText(o, r, cs[1..], parent);
      var rs := RewriteAll(o, r, cs, parent);
      assert rs[1..] == RewriteAll(o, r, cs[1..], parent);
    }
  }

  // ---------------------------------------------------------------------------
  // The recursive rules and tbody

  lemma {:induction false} BuildPassUntouched(o: Options, tag: string, cols: string, n: Node)
    requires tag in StructTags && tag !in Names(n)
    ensures BuildPass(o, tag, cols, n) == Ok(n)
  {
    match n
    case Text(_) =>
    case Element(_, _, cs) => BuildPassAllUntouched(o, tag, cols, cs);
  }

  lemma {:induction false} BuildPassAllUntouched(o: Options, tag: string, cols: string, cs: seq<Node>)
    requires tag in StructTags && tag !in NamesAll(cs)
    ensures BuildPassAll(o, tag, cols, cs) == Ok(cs)
  {
    if cs != [] {
      assert tag !in Names(cs[0]) && tag !in NamesAll(cs[1..]);
      BuildPassUntouched(o, tag, cols, cs[0]);
      BuildPassAllUntouched(o, tag, cols, cs[1..]);
      assert [cs[0]] + cs[1..] == cs;
    }
  }

  lemma {:induction false} UnpackUntouched(n: Node)
    requires "tbody" !in Names(n)
    ensures UnpackNode(n) == n
  {
    match n
    case Text(_) =>
    case Element(_, _, cs) => UnpackAllUntouched(cs);
  }

  lemma {:induction false} UnpackAllUntouched(cs: seq<Node>)
    requires "tbody" !in NamesAll(cs)
    ensures Keep(cs) == cs && Spill(cs) == [] && Unpack(cs) == cs
  {
    if cs != [] {
      UnpackUntouched(cs[0]);
      UnpackAllUntouched(cs[1..]);
      assert cs == [cs[0]] + cs[1..];
    }
  }

  lemma KeepCons(h: Node, t: seq<Node>)
    ensures Keep([h] + t) == (if IsTbody(h) then Keep(t) else [UnpackNode(h)] + Keep(t))
    ensures Spill([h] + t) == (if IsTbody(h) then Unpack(h.children) + Spill(t) else Spill(t))
  {
    assert ([h] + t)[1..] == t;
  }

  lemma {:induction false} KeepAppend(a: seq<Node>, b: seq<Node>)
    ensures Keep(a + b) == Keep(a) + Keep(b)
  {
    if a == [] {
      assert a + b == b;
    } else {
      assert (a + b)[0] == a[0] && (a + b)[1..] == a[1..] + b;
      KeepAppend(a[1..], b);
    }
  }

  lemma {:induction false} SpillAppend(a: seq<Node>, b: seq<Node>)
    ensures Spill(a + b) == Spill(a) + Spill(b)
  {
    if a == [] {
      assert a + b == b;
    } else {
      assert (a + b)[0] == a[0] && (a + b)[1..] == a[1..] + b;
      SpillAppend(a[1..], b);
    }
  }

  /** Unpacking around one `tbody`: the other children stay in place (each
      unpacked in turn), and what is spilled comes after them in document
      order, the `tbody`'s own children, unpacked, among it. */
  lemma UnpackAround(xs: seq<Node>, a: map<string, string>, ts: seq<Node>, ys: seq<Node>)
    ensures Unpack(xs + [Element("tbody", a, ts)] + ys)
      == Keep(xs) + Keep(ys) + (Spill(xs) + Unpack(ts) + Spill(ys))
  {
    var b := Element("tbody", a, ts);
    TbodyAlone(a, ts);
    KeepAround(xs, b, ys);
    SpillAround(xs, b, ys);
    UnpackSplit(xs + [b] + ys);
  }

  lemma KeepAround(xs: seq<Node>, b: Node, ys: seq<Node>)
    requires Keep([b]) == []
    ensures Keep(xs + [b] + ys) == Keep(xs) + Keep(ys)
  {
    KeepAppend(xs + [b], ys);
    KeepAppend(xs, [b]);
    assert Keep(xs) + [] == Keep(xs);
  }

  lemma SpillAround(xs: seq<Node>, b: Node, ys: seq<Node>)
    ensures Spill(xs + [b] + ys) == Spill(xs) + Spill([b]) + Spill(ys)
  {
    SpillAppend(xs + [b], ys);
    SpillAppend(xs, [b]);
  }

  lemma UnpackSplit(cs: seq<Node>)
    ensures Unpack(cs) == Keep(cs) + Spill(cs)
  {
  }

  /** A lone `tbody` keeps nothing and spills its unpacked children. */
  lemma TbodyAlone(a: map<string, string>, ts: seq<Node>)
    ensures Keep([Element("tbody", a, ts)]) == []
    ensures Spill([Element("tbody", a, ts)]) == Unpack(ts)
  {
    var b := Element("tbody", a, ts);
    assert [b][0] == b && [b][1..] == [];
    assert Spill([b]) == Unpack(ts) + [];
  }

  /** The children of a `tbody` without further `tbody`s move to the end of
      its parent's children, after the siblings that were on either side of
      it, all in their order. */
  lemma TbodyMovesToEnd(xs: seq<Node>, a: map<string, string>, ts: seq<Node>, ys: seq<Node>)
    requires "tbody" !in NamesAll(xs) && "tbody" !in NamesAll(ts) && "tbody" !in NamesAll(ys)
    ensures Unpack(xs + [Element("tbody", a, ts)] + ys) == xs + ys + ts
  {
    UnpackAround(xs, a, ts, ys);
    var k1, k2, s1, u, s2 := Keep(xs), Keep(ys), Spill(xs), Unpack(ts), Spill(ys);
    UnpackAllUntouched(xs);
    UnpackAllUntouched(ts);
    UnpackAllUntouched(ys);
    assert k1 == xs && k2 == ys && s1 == [] && s2 == [] && u == ts;
    assert [] + ts + [] == ts;
  }

  // ---------------------------------------------------------------------------
  // Converted trees are fixed points

  /** A tree the rules have nothing to do on: an element, as the parser gives
      it back, without removable elements and without an HTML tag. */
  predicate Settled(o: Options, n: Node) {
    n.Element? && Normal(n) && !Doomed(o, n) && Undoomed(o, n) && Names(n) !! HtmlTags
  }

  /** The rules `a` and then the rules `b`. */
  lemma {:induction false} RewriteRulesSplit(o: Options, a: seq<Rule>, b: seq<Rule>, n: Node)
    ensures RewriteRules(o, a + b, n) == RewriteRules(o, b, RewriteRules(o, a, n))
  {
    if a == [] {
      assert a + b == b;
    } else {
      assert (a + b)[1..] == a[1..] + b;
      RewriteRulesSplit(o, a[1..], b, Rewrite(o, a[0], n, DocumentName));
    }
  }

  /** The recursive passes have nothing to do without a closed tag. */
  lemma PassesUntouched(o: Options, t: Node)
    requires t.Element? && Names(t) !! ClosedTags
    ensures Passes(o, t) == Ok(t)
  {
    BuildPassUntouched(o, "li", "", t);
    BuildPassUntouched(o, "ul", "", t);
    BuildPassUntouched(o, "ol", "", t);
    BuildPassUntouched(o, "td", "", t);
    BuildPassUntouched(o, "tr", "", t);
    UnpackUntouched(t);
    BuildPassUntouched(o, "table", ColumnCount(t), t);
  }

  /** A parsed element without removable parts whose renamed tree has no
      closed tag comes out as the renamed tree. */
  lemma PFRenamedOnly(o: Options, n: Node)
    requires n.Element? && Normal(n) && !Doomed(o, n) && Undoomed(o, n)
    requires Names(RewriteRules(o, Rules, n)) !! ClosedTags
    ensures ParseFormatting(o, n) == Ok(Some(RewriteRules(o, Rules, n)))
  {
    ReparseNormal(n);
    PruneUndoomed(o, n);
    PassesUntouched(o, RewriteRules(o, Rules, n));
  }

  /** `parse_formatting` hands a settled tree back unchanged. */
  lemma PFSettled(o: Options, n: Node)
    requires Settled(o, n)
    ensures ParseFormatting(o, n) == Ok(Some(n))
  {
    forall r | r in Rules
      ensures Names(n) !! Selected(r)
    {
      SelectedHtml(r);
    }
    RewriteRulesUntouched(o, Rules, n);
    PFRenamedOnly(o, n);
  }

  // ---------------------------------------------------------------------------
  // List items, cells and tables

  /** A paragraph holding one parsed text is settled. */
  lemma ParagraphSettled(o: Options, style: string, t: string)
    requires Present(t) && NoControls(t)
    ensures Settled(o, TextNode("text:p", style, [Text(t)]))
  {
    var p := TextNode("text:p", style, [Text(t)]);
    assert t != [];
    assert Normal(p);
    assert !Doomed(o, p);
    assert NamesAll([Text(t)]) == {};
    TagLengths();
    assert |"text:p"| == 6 && "text:p"[0] == 't';
  }

  /** Direct text of a list item or cell: present text becomes a paragraph of
      the given style, blank text is dropped. */
  lemma DirectText(o: Options, style: string, t: string)
    requires NoControls(t)
    ensures Present(t) ==> FormatChildren(o, style, [Text(t)]) == Ok([TextNode("text:p", style, [Text(t)])])
    ensures !Present(t) ==> FormatChildren(o, style, [Text(t)]) == Ok([])
  {
    var p := TextNode("text:p", style, [Text(t)]);
    assert [Text(t)][1..] == [];
    if Present(t) {
      assert Prepare(style, Text(t)) == Some(p);
      ParagraphSettled(o, style, t);
      PFSettled(o, p);
      assert FormatChild(o, style, Text(t)) == Ok([p]);
      assert [p] + [] == [p];
    } else {
      assert FormatChild(o, style, Text(t)) == Ok([]);
    }
  }

  /** `<li>text</li>` becomes a list item holding one paragraph of style `li`;
      `<td>text</td>` a cell holding one paragraph of style `p`. */
  lemma TextItems(o: Options, attrs: map<string, string>, t: string)
    requires Present(t) && NoControls(t)
    ensures Build(o, "li", "", attrs, [Text(t)])
      == Ok(Element("text:list-item", map[], [TextNode("text:p", "li", [Text(t)])]))
    ensures Build(o, "td", "", attrs, [Text(t)])
      == Ok(Element("table:table-cell", CellAttrs(attrs), [TextNode("text:p", "p", [Text(t)])]))
  {
    DirectText(o, "li", t);
    DirectText(o, "p", t);
  }

  /** A list item or cell holding only blank text comes out empty. */
  lemma BlankItems(o: Options, attrs: map<string, string>, t: string)
    requires !Present(t) && NoControls(t)
    ensures Build(o, "li", "", attrs, [Text(t)]) == Ok(Element("text:list-item", map[], []))
    ensures Build(o, "td", "", attrs, [Text(t)]) == Ok(Element("table:table-cell", CellAttrs(attrs), []))
  {
    DirectText(o, "li", t);
    DirectText(o, "p", t);
  }

  /** A table without content raises: there is no first child to put the
      column element before. */
  lemma EmptyTableRaises(o: Options, cols: string, attrs: map<string, string>)
    ensures Build(o, "table", cols, attrs, []).Raised?
  {
    var w := Wrapper("table", []);
    assert Settled(o, w) by {
      assert Normal(w);
      assert !Doomed(o, w);
    }
    PFSettled(o, w);
  }

  // ---------------------------------------------------------------------------
  // The column count

  lemma {:induction false} RowCellsAllMember(cs: seq<Node>, i: nat, k: nat)
    requires i < |cs| && k in RowCells(cs[i])
    ensures k in RowCellsAll(cs)
  {
    if i > 0 {
      RowCellsAllMember(cs[1..], i - 1, k);
    }
  }

  lemma {:induction false} RowCellsAllWitness(cs: seq<Node>, k: nat)
    requires k in RowCellsAll(cs)
    ensures exists i :: 0 <= i < |cs| && k in RowCells(cs[i])
  {
    if k !in RowCells(cs[0]) {
      RowCellsAllWitness(cs[1..], k);
      var i :| 0 <= i < |cs[1..]| && k in RowCells(cs[1..][i]);
      assert cs[1..][i] == cs[i + 1];
    }
  }

  /** Every row in the tree contributes its direct cell count. */
  lemma {:induction false} RowCellsComplete(n: Node, m: Node)
    requires Contains(n, m) && IsRow(m)
    ensures DirectCells(m.children) in RowCells(n)
  {
    if n != m {
      var i :| 0 <= i < |n.children| && Contains(n.children[i], m);
      RowCellsComplete(n.children[i], m);
      RowCellsAllMember(n.children, i, DirectCells(m.children));
    }
  }

  /** Every count stems from a row in the tree. */
  lemma {:induction false} RowCellsSound(n: Node, k: nat)
    requires k in RowCells(n)
    ensures exists m :: Contains(n, m) && IsRow(m) && DirectCells(m.children) == k
  {
    if !(IsRow(n) && k == DirectCells(n.children)) {
      RowCellsAllWitness(n.children, k);
      var i :| 0 <= i < |n.children| && k in RowCells(n.children[i]);
      RowCellsSound(n.children[i], k);
      var m :| Contains(n.children[i], m) && IsRow(m) && DirectCells(m.children) == k;
      assert Contains(n, m);
    }
  }

  /** The column count is empty exactly when the tree has no row, and is
      otherwise the decimal form of the largest direct cell count of a row. */
  lemma ColumnCountMax(n: Node)
    ensures ColumnCount(n) == [] <==> !exists m :: Contains(n, m) && IsRow(m)
    ensures ColumnCount(n) != [] ==>
      (forall k :: 0 <= k < |ColumnCount(n)| ==> '0' <= ColumnCount(n)[k] <= '9')
      && (exists m :: Contains(n, m) && IsRow(m) && DirectCells(m.children) == DigitsValue(ColumnCount(n)))
      && (forall m :: Contains(n, m) && IsRow(m) ==> DirectCells(m.children) <= DigitsValue(ColumnCount(n)))
  {
    var rows := RowCells(n);
    if rows == [] {
      forall m | Contains(n, m) && IsRow(m)
        ensures false
      {
        RowCellsComplete(n, m);
      }
    } else {
      var mx := MaxOf(rows);
      NatToStringValue(mx);
      RowCellsSound(n, mx);
      forall m | Contains(n, m) && IsRow(m)
        ensures DirectCells(m.children) <= mx
      {
        RowCellsComplete(n, m);
      }
    }
  }
}
