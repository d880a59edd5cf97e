/** Properties of `parse`: which elements become candidates, with which
    ancestors and in which order, and what the candidate rules give for
    blockquotes of paragraphs and for lists inside lists. */
module ParserProps {
  import opened Html
  import opened Trees
  import opened StyleNames
  import opened Formatting
  import opened FormattingProps
  import opened TagRules
  import opened Parser
  import ClassNames

  /** `m` lies in the tree `n` below the elements named `path`, outermost first
      (`path` is empty when `m` is `n`). */
  predicate Within(n: Node, m: Node, path: seq<string>)
    decreases n
  {
    (n == m && path == [])
    || (n.Element? && |path| > 0 && path[0] == n.name
        && exists i | 0 <= i < |n.children| :: Within(n.children[i], m, path[1..]))
  }

  lemma {:induction false} NamedAllMember(cs: seq<Node>, tag: string, above: seq<string>, c: Candidate)
    ensures c in NamedAll(cs, tag, above) <==> exists i | 0 <= i < |cs| :: c in Named(cs[i], tag, above)
  {
    if cs != [] {
      NamedAllMember(cs[1..], tag, above, c);
      if exists i | 0 <= i < |cs[1..]| :: c in Named(cs[1..][i], tag, above) {
        var i :| 0 <= i < |cs[1..]| && c in Named(cs[1..][i], tag, above);
        assert cs[1..][i] == cs[i + 1];
      }
      if exists i | 0 <= i < |cs| :: c in Named(cs[i], tag, above) {
        var i :| 0 <= i < |cs| && c in Named(cs[i], tag, above);
        if i > 0 {
          assert cs[i] == cs[1..][i - 1];
        }
      }
    }
  }

  lemma {:induction false} GroupedMember(n: Node, sels: seq<string>, c: Candidate)
    ensures c in Grouped(n, sels) <==> exists k | 0 <= k < |sels| :: c in Named(n, sels[k], [])
  {
    if sels != [] {
      GroupedMember(n, sels[1..], c);
      if exists k | 0 <= k < |sels[1..]| :: c in Named(n, sels[1..][k], []) {
        var k :| 0 <= k < |sels[1..]| && c in Named(n, sels[1..][k], []);
        assert sels[1..][k] == sels[k + 1];
      }
      if exists k | 0 <= k < |sels| :: c in Named(n, sels[k], []) {
        var k :| 0 <= k < |sels| && c in Named(n, sels[k], []);
        if k > 0 {
          assert sels[k] == sels[1..][k - 1];
        }
      }
    }
  }

  lemma {:induction false} FragmentMember(fragment: seq<Node>, c: Candidate)
    ensures c in Candidates(fragment) <==> exists i | 0 <= i < |fragment| :: c in CandidatesOf(fragment[i])
  {
    if fragment != [] {
      FragmentMember(fragment[1..], c);
      if exists i | 0 <= i < |fragment[1..]| :: c in CandidatesOf(fragment[1..][i]) {
        var i :| 0 <= i < |fragment[1..]| && c in CandidatesOf(fragment[1..][i]);
        assert fragment[1..][i] == fragment[i + 1];
      }
      if exists i | 0 <= i < |fragment| :: c in CandidatesOf(fragment[i]) {
        var i :| 0 <= i < |fragment| && c in CandidatesOf(fragment[i]);
        if i > 0 {
          assert fragment[i] == fragment[1..][i - 1];
        }
      }
    }
  }

  /** Every candidate is a selected element of one of the top-level nodes,
      lying there below the elements its ancestors name. */
  lemma CandidatesSound(fragment: seq<Node>, c: Candidate)
    requires c in Candidates(fragment)
    ensures c.node.Element? && c.node.name in CandidateTags
    ensures exists i | 0 <= i < |fragment| :: Within(fragment[i], c.node, c.ancestors)
  {
    CandidatesAreElements(fragment);
    FragmentMember(fragment, c);
    var i :| 0 <= i < |fragment| && c in CandidatesOf(fragment[i]);
    TopWithin(fragment[i], c);
  }

  lemma TopWithin(n: Node, c: Candidate)
    requires c in CandidatesOf(n)
    ensures Within(n, c.node, c.ancestors)
  {
    GroupedMember(n, Selectors, c);
    var k :| 0 <= k < |Selectors| && c in Named(n, Selectors[k], []);
    var path := NamedPath(n, Selectors[k], [], c);
    assert [] + path == path;
  }

  /** The path `CandidatesSound` promises, built from the node down. */
  lemma {:induction false} NamedPath(n: Node, tag: string, above: seq<string>, c: Candidate) returns (path: seq<string>)
    requires c in Named(n, tag, above)
    ensures c.ancestors == above + path && Within(n, c.node, path)
  {
    NamedHereOrBelow(n, tag, above, c);
    if c.node == n && c.ancestors == above {
      path := [];
      assert above + [] == above;
    } else {
      var cs := n.children;
      var below := above + [n.name];
      NamedAllMember(cs, tag, below, c);
      var i :| 0 <= i < |cs| && c in Named(cs[i], tag, below);
      var p := NamedPath(cs[i], tag, below, c);
      WithinChild(n, i, c.node, p);
      path := [n.name] + p;
      ConsAssoc(above, n.name, p);
    }
  }

  lemma ConsAssoc(a: seq<string>, x: string, p: seq<string>)
    ensures (a + [x]) + p == a + ([x] + p)
  {
  }

  /** A match is the node itself or a match among its children. */
  lemma NamedHereOrBelow(n: Node, tag: string, above: seq<string>, c: Candidate)
    requires c in Named(n, tag, above)
    ensures n.Element?
    ensures (c.node == n && n.name == tag && c.ancestors == above) || c in NamedAll(n.children, tag, above + [n.name])
  {
  }

  /** What lies below a child lies below its parent, one name further out. */
  lemma WithinChild(n: Node, i: nat, m: Node, path: seq<string>)
    requires n.Element? && i < |n.children| && Within(n.children[i], m, path)
    ensures Within(n, m, [n.name] + path)
  {
    assert ([n.name] + path)[1..] == path;
  }

  /** Every element of a selected name in a top-level node, at any depth, is
      a candidate, with the names of its ancestors. */
  lemma CandidatesComplete(fragment: seq<Node>, i: nat, m: Node, path: seq<string>)
    requires i < |fragment| && Within(fragment[i], m, path) && m.Element? && m.name in CandidateTags
    ensures Candidate(m, path) in Candidates(fragment)
  {
    var k := SelectorOf(m.name);
    NamedComplete(fragment[i], m.name, [], m, path);
    assert [] + path == path;
    GroupedMember(fragment[i], Selectors, Candidate(m, path));
    FragmentMember(fragment, Candidate(m, path));
  }

  /** The place of a selected name in the query. */
  lemma SelectorOf(t: string) returns (k: nat)
    requires t in CandidateTags
    ensures k < |Selectors| && Selectors[k] == t
  {
    assert t in Selectors;
    k :| k < |Selectors| && Selectors[k] == t;
  }

  lemma {:induction false} NamedComplete(n: Node, tag: string, above: seq<string>, m: Node, path: seq<string>)
    requires Within(n, m, path) && m.Element? && m.name == tag
    ensures Candidate(m, above + path) in Named(n, tag, above)
  {
    if n == m && path == [] {
      assert above + path == above;
    } else {
      var i :| 0 <= i < |n.children| && Within(n.children[i], m, path[1..]);
      var below := above + [n.name];
      NamedComplete(n.children[i], tag, below, m, path[1..]);
      assert below + path[1..] == above + path;
      NamedAllMember(n.children, tag, below, Candidate(m, above + path));
    }
  }

  /** No selector occurs twice in `sels`. */
  predicate Distinct(sels: seq<string>) {
    forall a, b | 0 <= a < b < |sels| :: sels[a] != sels[b]
  }

  lemma SelectorsDistinct()
    ensures Distinct(Selectors)
  {
  }

  /** In the matches grouped by distinct selectors, a match of selector `k`
      comes only after matches of `k` or of earlier selectors. */
  lemma DistinctTail(sels: seq<string>)
    requires Distinct(sels) && sels != []
    ensures Distinct(sels[1..])
  {
    var later := sels[1..];
    forall a, b | 0 <= a < b < |later|
      ensures later[a] != later[b]
    {
      assert later[a] == sels[a + 1] && later[b] == sels[b + 1];
    }
  }

  lemma {:induction false} GroupedOrder(n: Node, sels: seq<string>, i: nat, j: nat, k: nat)
    requires Distinct(sels) && i < j < |Grouped(n, sels)| && k < |sels|
    requires Grouped(n, sels)[j].node.Element? && Grouped(n, sels)[j].node.name == sels[k]
    ensures Grouped(n, sels)[i].node.Element? && Grouped(n, sels)[i].node.name in sels[..k + 1]
  {
    var g := Grouped(n, sels);
    var first := Named(n, sels[0], []);
    var rest := Grouped(n, sels[1..]);
    assert g == first + rest;
    NamedAreElements(n, sels[0], []);
    if i < |first| {
      assert g[i] == first[i] && first[i] in first;
      assert sels[..k + 1][0] == sels[0];
    } else {
      var later := sels[1..];
      assert g[j] == rest[j - |first|] && rest[j - |first|] in rest;
      GroupedAreElements(n, later);
      var x :| 0 <= x < |later| && later[x] == sels[k];
      assert sels[x + 1] == sels[k];
      assert k == x + 1;
      DistinctTail(sels);
      assert g[i] == rest[i - |first|];
      GroupedOrder(n, later, i - |first|, j - |first|, x);
      assert later[..x + 1] == sels[1..k + 1];
    }
  }

  /** Within one top-level node the candidates are grouped by selector, in
      the order of the query: a candidate of a later selector never comes
      before one of an earlier selector. */
  lemma CandidatesGrouped(n: Node, i: nat, j: nat, k: nat)
    requires i < j < |CandidatesOf(n)| && k < |Selectors|
    requires CandidatesOf(n)[j].node.Element? && CandidatesOf(n)[j].node.name == Selectors[k]
    ensures CandidatesOf(n)[i].node.Element? && CandidatesOf(n)[i].node.name in Selectors[..k + 1]
  {
    SelectorsDistinct();
    GroupedOrder(n, Selectors, i, j, k);
  }

  /** The candidates of the top-level nodes come one node after the other. */
  lemma {:induction false} CandidatesAppend(a: seq<Node>, b: seq<Node>)
    ensures Candidates(a + b) == Candidates(a) + Candidates(b)
  {
    if a == [] {
      assert a + b == b;
    } else {
      assert (a + b)[0] == a[0] && (a + b)[1..] == a[1..] + b;
      CandidatesAppend(a[1..], b);
    }
  }

  /** A selector whose name does not occur matches nothing. */
  lemma {:induction false} NoNamed(n: Node, tag: string, above: seq<string>)
    requires tag !in Names(n)
    ensures Named(n, tag, above) == []
  {
    if n.Element? {
      NoNamedAll(n.children, tag, above + [n.name]);
    }
  }

  lemma {:induction false} NoNamedAll(cs: seq<Node>, tag: string, above: seq<string>)
    requires tag !in NamesAll(cs)
    ensures NamedAll(cs, tag, above) == []
  {
    if cs != [] {
      NoNamed(cs[0], tag, above);
      NoNamedAll(cs[1..], tag, above);
    }
  }

  lemma {:induction false} GroupedNone(n: Node, sels: seq<string>)
    requires forall k | 0 <= k < |sels| :: sels[k] !in Names(n)
    ensures Grouped(n, sels) == []
  {
    if sels != [] {
      NoNamed(n, sels[0], []);
      assert forall k | 0 <= k < |sels[1..]| :: sels[1..][k] == sels[k + 1];
      GroupedNone(n, sels[1..]);
    }
  }

  lemma {:induction false} GroupedAppend(n: Node, a: seq<string>, b: seq<string>)
    ensures Grouped(n, a + b) == Grouped(n, a) + Grouped(n, b)
  {
    if a == [] {
      assert a + b == b;
    } else {
      assert (a + b)[0] == a[0] && (a + b)[1..] == a[1..] + b;
      GroupedAppend(n, a[1..], b);
    }
  }

  /** Selectors that match nothing can be skipped. */
  lemma GroupedSkip(n: Node, a: seq<string>, b: seq<string>)
    requires forall k | 0 <= k < |a| :: a[k] !in Names(n)
    ensures Grouped(n, a + b) == Grouped(n, b)
  {
    GroupedAppend(n, a, b);
    GroupedNone(n, a);
    assert [] + Grouped(n, b) == Grouped(n, b);
  }

  lemma GroupedHead(n: Node, t: string, rest: seq<string>)
    ensures Grouped(n, [t] + rest) == Named(n, t, []) + Grouped(n, rest)
  {
    assert ([t] + rest)[0] == t && ([t] + rest)[1..] == rest;
  }

  lemma GroupedOne(n: Node, t: string)
    ensures Grouped(n, [t]) == Named(n, t, [])
  {
    assert [t][1..] == [];
    assert Named(n, t, []) + [] == Named(n, t, []);
  }

  /** A block element that is not removed is converted on its own. */
  lemma EmitBlock(o: Options, c: Candidate, root: Option<Node>)
    requires c.node.Element? && !Removed(o, c.node) && c.node.name in BlockTags
    requires ParseFormatting(o, c.node) == Ok(root)
    ensures Emit(o, c) == Ok([root])
  {
  }

  lemma ShortBlockTags()
    ensures forall x | x in BlockTags :: |x| <= 3
  {
  }

  /** A blockquote contributes the converted children of its root, one entry
      each and in order. */
  lemma EmitBlockquote(o: Options, c: Candidate, m: Node)
    requires c.node.Element? && !Removed(o, c.node) && c.node.name == "blockquote"
    requires ParseFormatting(o, c.node) == Ok(Some(m))
    ensures m.Element?
    ensures Emit(o, c) == Ok(seq(|m.children|, i requires 0 <= i < |m.children| => Some(m.children[i])))
  {
    BlockquoteArm();
  }

  /** A blockquote whose converted root is gone (`nil.children`) or whose
      conversion raises makes the candidate raise. */
  lemma EmitBlockquoteGone(o: Options, c: Candidate)
    requires c.node.Element? && !Removed(o, c.node) && c.node.name == "blockquote"
    requires ParseFormatting(o, c.node) == Ok(None) || ParseFormatting(o, c.node).Raised?
    ensures Emit(o, c) == Raised
  {
    BlockquoteArm();
  }

  /** `blockquote` reaches the last arm of `Emit`. */
  lemma BlockquoteArm()
    ensures "blockquote" !in BlockTags && "blockquote" !in {"ul", "ol"} && "blockquote" != "table"
  {
    ShortBlockTags();
    assert |"blockquote"| == 10;
  }

  /** A list that `ancestors` reports inside another list contributes
      nothing. */
  lemma EmitNestedList(o: Options, c: Candidate)
    requires c.node.Element? && c.node.name in {"ul", "ol"}
    requires "ul" in Reported(c) || "ol" in Reported(c)
    ensures Emit(o, c) == Ok([])
  {
    assert c.node.name !in BlockTags;
  }

  /** Any other list that is not removed contributes its converted root, or
      raises with its conversion; among them are the top-level lists and the
      lists whose only list ancestor is the top-level node. */
  lemma EmitList(o: Options, c: Candidate)
    requires c.node.Element? && c.node.name in {"ul", "ol"} && !Removed(o, c.node)
    requires "ul" !in Reported(c) && "ol" !in Reported(c)
    ensures ParseFormatting(o, c.node).Raised? ==> Emit(o, c).Raised?
    ensures ParseFormatting(o, c.node).Ok? ==> Emit(o, c) == Ok([ParseFormatting(o, c.node).value])
  {
    assert c.node.name !in BlockTags;
  }

  /** A table that `ancestors` reports inside another table contributes
      nothing. */
  lemma EmitNestedTable(o: Options, c: Candidate)
    requires c.node.Element? && c.node.name == "table"
    requires "table" in Reported(c)
    ensures Emit(o, c) == Ok([])
  {
    assert "table" !in BlockTags && "table" !in {"ul", "ol"};
  }

  /** Any other table that is not removed contributes its converted root, or
      raises with its conversion. */
  lemma EmitTable(o: Options, c: Candidate)
    requires c.node.Element? && c.node.name == "table" && !Removed(o, c.node)
    requires "table" !in Reported(c)
    ensures ParseFormatting(o, c.node).Raised? ==> Emit(o, c).Raised?
    ensures ParseFormatting(o, c.node).Ok? ==> Emit(o, c) == Ok([ParseFormatting(o, c.node).value])
  {
    assert "table" !in BlockTags && "table" !in {"ul", "ol"};
  }

  /** One entry per converted node, in order. */
  function Entries(xs: seq<Node>): seq<Option<Node>> {
    seq(|xs|, i requires 0 <= i < |xs| => Some(xs[i]))
  }

  lemma EntriesCons(xs: seq<Node>)
    requires xs != []
    ensures Entries(xs) == [Some(xs[0])] + Entries(xs[1..])
  {
    var e := Entries(xs);
    var t := Entries(xs[1..]);
    assert forall i | 0 <= i < |t| :: t[i] == e[i + 1];
  }

  /** An element whose class is in the removal list is also removed by
      `parse_formatting`, whose test is a substring test on the joined list. */
  lemma RemovedDoomed(o: Options, n: Node)
    requires Removed(o, n)
    ensures Doomed(o, n)
  {
    var i :| 0 <= i < |o.removeClasses| && o.removeClasses[i] == n.attrs["class"];
    ClassNames.JoinContains(o.removeClasses, i);
  }

  /** The blockquote is the one selected tag the conversion rules do not
      name. */
  lemma CandidateHtml()
    ensures CandidateTags <= HtmlTags + {"blockquote"}
  {
  }

  /** Paragraphs the rules keep as they are, with no blockquote inside. */
  predicate QuoteParagraphs(o: Options, ps: seq<Node>) {
    Paragraphs(o, ps) && forall i | 0 <= i < |ps| :: ps[i].Element? && "blockquote" !in NamesAll(ps[i].children)
  }

  /** The nodes `ps` as candidates, all with the ancestors `above`. */
  function Listed(ps: seq<Node>, above: seq<string>): seq<Candidate> {
    seq(|ps|, i requires 0 <= i < |ps| => Candidate(ps[i], above))
  }

  lemma ListedElements(ps: seq<Node>, above: seq<string>)
    requires forall i | 0 <= i < |ps| :: ps[i].Element?
    ensures forall c | c in Listed(ps, above) :: c.node.Element?
  {
    forall c | c in Listed(ps, above)
      ensures c.node.Element?
    {
      var i :| 0 <= i < |ps| && Listed(ps, above)[i] == c;
    }
  }

  lemma ListedCons(ps: seq<Node>, above: seq<string>)
    requires ps != []
    ensures Listed(ps, above) == [Candidate(ps[0], above)] + Listed(ps[1..], above)
  {
    var l := Listed(ps, above);
    var t := Listed(ps[1..], above);
    assert forall i | 0 <= i < |t| :: t[i] == l[i + 1];
  }

  /** Each such paragraph matches the `p` selector, nothing inside it
      does. */
  lemma {:induction false} ParagraphCandidates(o: Options, ps: seq<Node>, above: seq<string>)
    requires QuoteParagraphs(o, ps)
    ensures NamedAll(ps, "p", above) == Listed(ps, above)
  {
    if ps != [] {
      var p := ps[0];
      assert "p" in HtmlTags;
      NoNamedAll(p.children, "p", above + ["p"]);
      assert Named(p, "p", above) == [Candidate(p, above)];
      assert QuoteParagraphs(o, ps[1..]) by {
        assert forall i | 0 <= i < |ps[1..]| :: ps[1..][i] == ps[i + 1];
      }
      ParagraphCandidates(o, ps[1..], above);
      ListedCons(ps, above);
    }
  }

  /** The only selected name among such paragraphs is `p`. */
  lemma {:induction false} QuoteNames(o: Options, ps: seq<Node>)
    requires QuoteParagraphs(o, ps)
    ensures NamesAll(ps) * CandidateTags <= {"p"}
  {
    if ps != [] {
      assert QuoteParagraphs(o, ps[1..]) by {
        assert forall i | 0 <= i < |ps[1..]| :: ps[1..][i] == ps[i + 1];
      }
      QuoteNames(o, ps[1..]);
      CandidateHtml();
      assert Names(ps[0]) == {"p"} + NamesAll(ps[0].children);
    }
  }

  /** The candidates of a blockquote of paragraphs: the paragraphs first,
      because the `p` selector comes before `blockquote`, then the
      blockquote itself. */
  lemma QuoteCandidates(o: Options, ba: map<string, string>, ps: seq<Node>)
    requires QuoteParagraphs(o, ps)
    ensures Candidates([Element("blockquote", ba, ps)])
      == Listed(ps, ["blockquote"]) + [Candidate(Element("blockquote", ba, ps), [])]
  {
    QuoteNames(o, ps);
    ParagraphCandidates(o, ps, ["blockquote"]);
    QuoteShape(ba, ps);
  }

  lemma QuoteShape(ba: map<string, string>, ps: seq<Node>)
    requires NamesAll(ps) * CandidateTags <= {"p"}
    requires NamedAll(ps, "p", ["blockquote"]) == Listed(ps, ["blockquote"])
    ensures Candidates([Element("blockquote", ba, ps)])
      == Listed(ps, ["blockquote"]) + [Candidate(Element("blockquote", ba, ps), [])]
  {
    var b := Element("blockquote", ba, ps);
    var heads := ["h1", "h2", "h3", "h4", "h5", "h6"];
    var lists := ["ul", "ol", "table"];
    QuoteSelectors(ba, ps, heads, lists);
    assert [] + ["blockquote"] == ["blockquote"];
    assert "blockquote" in CandidateTags - {"p"};
    NoNamedAll(ps, "blockquote", ["blockquote"]);
    assert Named(b, "blockquote", []) == [Candidate(b, [])];
    assert [b][1..] == [];
  }

  /** The grouped matches of a blockquote of paragraphs, selector group by
      selector group. */
  lemma QuoteSelectors(ba: map<string, string>, ps: seq<Node>, heads: seq<string>, lists: seq<string>)
    requires NamesAll(ps) * CandidateTags <= {"p"}
    requires heads == ["h1", "h2", "h3", "h4", "h5", "h6"] && lists == ["ul", "ol", "table"]
    ensures CandidatesOf(Element("blockquote", ba, ps))
      == Named(Element("blockquote", ba, ps), "p", []) + Named(Element("blockquote", ba, ps), "blockquote", [])
  {
    var b := Element("blockquote", ba, ps);
    var s3 := ["blockquote"] + lists;
    var s2 := ["pre"] + s3;
    assert Selectors == heads + (["p"] + s2);
    QuoteAbsent(ba, ps, heads, lists);
    GroupedSkip(b, heads, ["p"] + s2);
    GroupedHead(b, "p", s2);
    GroupedSkip(b, ["pre"], s3);
    GroupedHead(b, "blockquote", lists);
    GroupedNone(b, lists);
    assert Named(b, "blockquote", []) + [] == Named(b, "blockquote", []);
  }

  lemma QuoteAbsent(ba: map<string, string>, ps: seq<Node>, heads: seq<string>, lists: seq<string>)
    requires NamesAll(ps) * CandidateTags <= {"p"}
    requires heads == ["h1", "h2", "h3", "h4", "h5", "h6"] && lists == ["ul", "ol", "table"]
    ensures forall k | 0 <= k < |heads| :: heads[k] !in Names(Element("blockquote", ba, ps))
    ensures forall k | 0 <= k < |lists| :: lists[k] !in Names(Element("blockquote", ba, ps))
    ensures "pre" !in Names(Element("blockquote", ba, ps))
  {
    assert Names(Element("blockquote", ba, ps)) == {"blockquote"} + NamesAll(ps);
    assert forall k | 0 <= k < |heads| :: heads[k] in CandidateTags - {"p", "blockquote"};
    assert forall k | 0 <= k < |lists| :: lists[k] in CandidateTags - {"p", "blockquote"};
    assert "pre" in CandidateTags - {"p", "blockquote"};
  }

  /** Converted on its own, each paragraph is a `text:p` styled by
      `check_style` with the document as its parent. */
  lemma {:induction false} EmitParagraphs(o: Options, ps: seq<Node>, above: seq<string>)
    requires Paragraphs(o, ps)
    ensures forall c | c in Listed(ps, above) :: c.node.Element?
    ensures EmitAll(o, Listed(ps, above)) == Ok(Entries(Styled(o, ps, DocumentName)))
  {
    ListedElements(ps, above);
    var cs := Listed(ps, above);
    if ps != [] {
      var p := ps[0];
      assert Paragraphs(o, ps[1..]) by {
        assert forall i | 0 <= i < |ps[1..]| :: ps[1..][i] == ps[i + 1];
      }
      EmitParagraphs(o, ps[1..], above);
      var rest := Listed(ps[1..], above);
      ListedCons(ps, above);
      var e := EmitParagraph(o, p, above);
      EmitAllCons(o, Candidate(p, above), rest);
      var styled := Styled(o, ps, DocumentName);
      StyledTail(o, ps, DocumentName);
      assert styled[1..] == Styled(o, ps[1..], DocumentName);
      EntriesCons(styled);
      assert e == styled[0];
      assert Entries(styled) == [Some(e)] + Entries(Styled(o, ps[1..], DocumentName));
      assert cs == [Candidate(p, above)] + rest;
      assert EmitAll(o, cs) == Ok([Some(e)] + Entries(Styled(o, ps[1..], DocumentName)));
    } else {
      assert cs == [];
      assert Entries(Styled(o, ps, DocumentName)) == [];
    }
  }

  /** One such paragraph converted on its own. */
  lemma EmitParagraph(o: Options, p: Node, above: seq<string>) returns (e: Node)
    requires p.Element? && p.name == "p" && !Doomed(o, p) && SettledAll(o, p.children)
    ensures e == TextNode("text:p", CheckStyle(o, "p", DocumentName, p.attrs), p.children)
    ensures Emit(o, Candidate(p, above)) == Ok([Some(e)])
  {
    e := TextNode("text:p", CheckStyle(o, "p", DocumentName, p.attrs), p.children);
    if Removed(o, p) {
      RemovedDoomed(o, p);
    }
    ParagraphConverted(o, p);
    assert "p" in BlockTags;
  }

  lemma ParagraphConverted(o: Options, p: Node)
    requires p.Element? && p.name == "p" && !Doomed(o, p) && SettledAll(o, p.children)
    ensures ParseFormatting(o, p) == Ok(Some(TextNode("text:p", CheckStyle(o, "p", DocumentName, p.attrs), p.children)))
  {
    assert "p" in RenameTags && "p" in BlockRuleTags;
    RootConverted(o, "p", p.attrs, p.children);
  }

  /** A blockquote of paragraphs: the `p` selector comes first in the
      query, so each paragraph is a candidate of its own and contributes
      itself styled with the document as its parent; then the blockquote's
      candidate contributes the paragraphs styled by `check_style` under the
      blockquote (`quote` unless class or alignment say otherwise): every
      paragraph appears twice. */
  lemma BlockquoteParagraphTwice(o: Options, ba: map<string, string>, ps: seq<Node>)
    requires QuoteParagraphs(o, ps) && !Doomed(o, Element("blockquote", ba, ps))
    ensures ParseSpec(o, [Element("blockquote", ba, ps)])
      == Ok(Entries(Styled(o, ps, DocumentName)) + Entries(Styled(o, ps, "blockquote")))
  {
    var b := Element("blockquote", ba, ps);
    var c := Candidate(b, []);
    var listed := Listed(ps, ["blockquote"]);
    QuoteCandidates(o, ba, ps);
    if Removed(o, b) {
      RemovedDoomed(o, b);
    }
    ParagraphInBlockquote(o, ba, ps);
    EmitBlockquote(o, c, Element("blockquote", ba, Styled(o, ps, "blockquote")));
    EmitParagraphs(o, ps, ["blockquote"]);
    EmitAllCons(o, c, []);
    assert [c] + [] == [c];
    ListedElements(ps, ["blockquote"]);
    assert forall d | d in listed + [c] :: d in listed || d == c;
    EmitAllAfter(o, listed, Entries(Styled(o, ps, DocumentName)), [c]);
    assert Entries(Styled(o, ps, "blockquote")) + [] == Entries(Styled(o, ps, "blockquote"));
  }

  /** The entries of a first candidate and then of the rest. */
  lemma EmitAllCons(o: Options, c: Candidate, cs: seq<Candidate>)
    requires c.node.Element? && forall d | d in cs :: d.node.Element?
    ensures EmitAll(o, [c] + cs)
      == if Emit(o, c).Raised? || EmitAll(o, cs).Raised? then Raised else Ok(Emit(o, c).value + EmitAll(o, cs).value)
  {
    assert ([c] + cs)[0] == c && ([c] + cs)[1..] == cs;
  }

  /** The entries of candidates `a`, which do not raise, and then `b`:
      `b`'s outcome follows `a`'s entries. */
  lemma EmitAllAfter(o: Options, a: seq<Candidate>, ea: seq<Option<Node>>, b: seq<Candidate>)
    requires forall c | c in a + b :: c.node.Element?
    requires forall c | c in a :: c.node.Element?
    requires EmitAll(o, a) == Ok(ea)
    ensures forall c | c in b :: c.node.Element?
    ensures EmitAll(o, a + b) == Prefixed(ea, EmitAll(o, b))
  {
    assert forall c | c in b :: c in a + b;
    EmitAllJoined(o, a);
    EmitAllJoined(o, b);
    EmitAllJoined(o, a + b);
    OutcomesAppend(o, a, b);
    JoinedAppend(Outcomes(o, a), Outcomes(o, b), ea);
  }

  /** The outcome of each candidate on its own. */
  function Outcomes(o: Options, cs: seq<Candidate>): seq<Result<seq<Option<Node>>>>
    requires forall c | c in cs :: c.node.Element?
  {
    seq(|cs|, i requires 0 <= i < |cs| => Emit(o, cs[i]))
  }

  lemma OutcomesAppend(o: Options, a: seq<Candidate>, b: seq<Candidate>)
    requires forall c | c in a + b :: c.node.Element?
    requires forall c | c in a :: c.node.Element?
    requires forall c | c in b :: c.node.Element?
    ensures Outcomes(o, a + b) == Outcomes(o, a) + Outcomes(o, b)
  {
    forall i | 0 <= i < |a + b|
      ensures Outcomes(o, a + b)[i] == (Outcomes(o, a) + Outcomes(o, b))[i]
    {
      if i < |a| {
        assert (a + b)[i] == a[i];
      } else {
        assert (a + b)[i] == b[i - |a|];
      }
    }
  }

  /** The outcomes taken in order: the first that raises makes the whole
      raise, otherwise the entries are joined. */
  function Joined(rs: seq<Result<seq<Option<Node>>>>): Result<seq<Option<Node>>> {
    if rs == [] then Ok([])
    else if rs[0].Raised? then Raised
    else Prefixed(rs[0].value, Joined(rs[1..]))
  }

  /** The paragraph list of candidates is the join of their outcomes. */
  lemma {:induction false} EmitAllJoined(o: Options, cs: seq<Candidate>)
    requires forall c | c in cs :: c.node.Element?
    ensures EmitAll(o, cs) == Joined(Outcomes(o, cs))
  {
    if cs != [] {
      EmitAllJoined(o, cs[1..]);
      assert Outcomes(o, cs)[1..] == Outcomes(o, cs[1..]);
    }
  }

  /** Joining outcomes that do not raise, then more. */
  lemma {:induction false} JoinedAppend(r: seq<Result<seq<Option<Node>>>>, t: seq<Result<seq<Option<Node>>>>,
                                        e: seq<Option<Node>>)
    requires Joined(r) == Ok(e)
    ensures Joined(r + t) == Prefixed(e, Joined(t))
  {
    if r == [] {
      assert r + t == t;
      PrefixedNothing(Joined(t));
    } else {
      assert (r + t)[0] == r[0] && (r + t)[1..] == r[1..] + t;
      var h := r[0].value;
      var rest := Joined(r[1..]).value;
      JoinedAppend(r[1..], t, rest);
      PrefixedPrefixed(h, rest, Joined(t));
    }
  }

  lemma PrefixedPrefixed(h: seq<Option<Node>>, r: seq<Option<Node>>, t: Result<seq<Option<Node>>>)
    ensures Prefixed(h, Prefixed(r, t)) == Prefixed(h + r, t)
  {
    if t.Ok? {
      assert h + (r + t.value) == (h + r) + t.value;
    }
  }

  /** The candidates of a list whose only selected descendants are lists:
      the `ul` group, then the `ol` group. */
  lemma ListCandidates(outer: Node)
    requires outer.Element? && outer.name in {"ul", "ol"}
    requires NamesAll(outer.children) * CandidateTags <= {"ul", "ol"}
    ensures Candidates([outer]) == Named(outer, "ul", []) + Named(outer, "ol", [])
  {
    var nine := ["h1", "h2", "h3", "h4", "h5", "h6", "p", "pre", "blockquote"];
    var s2 := ["ol"] + ["table"];
    assert Selectors == nine + (["ul"] + s2);
    ListAbsent(outer, nine);
    GroupedSkip(outer, nine, ["ul"] + s2);
    GroupedHead(outer, "ul", s2);
    GroupedHead(outer, "ol", ["table"]);
    NoNamed(outer, "table", []);
    GroupedOne(outer, "table");
    assert Named(outer, "ol", []) + [] == Named(outer, "ol", []);
    assert [outer][1..] == [];
  }

  lemma ListAbsent(outer: Node, nine: seq<string>)
    requires outer.Element? && outer.name in {"ul", "ol"}
    requires NamesAll(outer.children) * CandidateTags <= {"ul", "ol"}
    requires nine == ["h1", "h2", "h3", "h4", "h5", "h6", "p", "pre", "blockquote"]
    ensures forall k | 0 <= k < |nine| :: nine[k] !in Names(outer)
    ensures "table" !in Names(outer)
  {
    assert Names(outer) == {outer.name} + NamesAll(outer.children);
    assert forall k | 0 <= k < |nine| :: nine[k] in CandidateTags - {"ul", "ol"};
    assert "table" in CandidateTags - {"ul", "ol"};
  }

  /** The candidates whose reported ancestors hold no list, in order. */
  function Unnested(cs: seq<Candidate>): seq<Candidate> {
    if cs == [] then []
    else (if "ul" in Reported(cs[0]) || "ol" in Reported(cs[0]) then [] else [cs[0]]) + Unnested(cs[1..])
  }

  lemma {:induction false} UnnestedMember(cs: seq<Candidate>, d: Candidate)
    ensures d in Unnested(cs) <==> d in cs && "ul" !in Reported(d) && "ol" !in Reported(d)
  {
    if cs != [] {
      UnnestedMember(cs[1..], d);
      assert d in cs <==> d == cs[0] || d in cs[1..];
    }
  }

  /** Lists reported inside a list drop out of the paragraph list. */
  lemma {:induction false} EmitAllUnnested(o: Options, cs: seq<Candidate>)
    requires forall c | c in cs :: c.node.Element? && c.node.name in {"ul", "ol"}
    ensures forall c | c in Unnested(cs) :: c.node.Element?
    ensures EmitAll(o, cs) == EmitAll(o, Unnested(cs))
  {
    forall d | d in Unnested(cs)
      ensures d.node.Element?
    {
      UnnestedMember(cs, d);
    }
    if cs != [] {
      var c := cs[0];
      var rest := cs[1..];
      assert cs == [c] + rest;
      assert forall d | d in rest :: d in cs;
      EmitAllUnnested(o, rest);
      EmitAllCons(o, c, rest);
      if "ul" in Reported(c) || "ol" in Reported(c) {
        EmitNestedList(o, c);
        assert Unnested(cs) == Unnested(rest);
        if EmitAll(o, rest).Ok? {
          assert [] + EmitAll(o, rest).value == EmitAll(o, rest).value;
        }
      } else {
        assert Unnested(cs) == [c] + Unnested(rest);
        EmitAllCons(o, c, Unnested(rest));
      }
    }
  }

  /** A list whose only selected descendants are lists: the paragraph list
      is what the lists without a reported list ancestor contribute, in the
      order of the query. The list itself is one of them, and so is every
      list whose only list ancestor is the top-level one
      (`UnnestedComplete`): such a list is converted again on its own. */
  lemma NestedListEntries(o: Options, outer: Node)
    requires outer.Element? && outer.name in {"ul", "ol"}
    requires NamesAll(outer.children) * CandidateTags <= {"ul", "ol"}
    ensures forall d | d in Unnested(Candidates([outer])) :: d.node.Element?
    ensures Candidate(outer, []) in Unnested(Candidates([outer]))
    ensures ParseSpec(o, [outer]) == EmitAll(o, Unnested(Candidates([outer])))
  {
    CandidatesAreElements([outer]);
    ListsOnly(outer);
    EmitAllUnnested(o, Candidates([outer]));
    UnnestedComplete(outer, outer, []);
    assert ParseSpec(o, [outer]) == EmitAll(o, Candidates([outer]));
  }

  /** Every list of a top-level node whose ancestors below the top-level node
      hold no list is among the lists that contribute. */
  lemma UnnestedComplete(top: Node, m: Node, path: seq<string>)
    requires Within(top, m, path) && m.Element? && m.name in {"ul", "ol"}
    requires path == [] || ("ul" !in path[1..] && "ol" !in path[1..])
    ensures Candidate(m, path) in Unnested(Candidates([top]))
  {
    CandidatesComplete([top], 0, m, path);
    UnnestedMember(Candidates([top]), Candidate(m, path));
  }

  /** The candidates of such a list are lists. */
  lemma ListsOnly(outer: Node)
    requires outer.Element? && outer.name in {"ul", "ol"}
    requires NamesAll(outer.children) * CandidateTags <= {"ul", "ol"}
    ensures forall d | d in Candidates([outer]) :: d.node.Element? && d.node.name in {"ul", "ol"}
  {
    ListCandidates(outer);
    NamedAreElements(outer, "ul", []);
    NamedAreElements(outer, "ol", []);
  }

  /** A `ul` holding one item with text and an inner `ul`. */
  function ListInList(oa: map<string, string>, la: map<string, string>, t: string, inner: Node): Node {
    Element("ul", oa, [Element("li", la, [Text(t), inner])])
  }

  /** The inner list directly below a top-level list is converted twice:
      once inside the outer list, and once on its own, because `ancestors`
      does not report the parentless top-level list. */
  lemma NestedListTwice(o: Options, oa: map<string, string>, la: map<string, string>, t: string,
                        ia: map<string, string>, ic: seq<Node>)
    requires NamesAll(ic) * CandidateTags == {}
    requires !Removed(o, ListInList(oa, la, t, Element("ul", ia, ic))) && !Removed(o, Element("ul", ia, ic))
    requires ParseFormatting(o, ListInList(oa, la, t, Element("ul", ia, ic))).Ok?
    requires ParseFormatting(o, Element("ul", ia, ic)).Ok?
    ensures ParseSpec(o, [ListInList(oa, la, t, Element("ul", ia, ic))])
      == Ok([ParseFormatting(o, ListInList(oa, la, t, Element("ul", ia, ic))).value,
             ParseFormatting(o, Element("ul", ia, ic)).value])
  {
    var inner := Element("ul", ia, ic);
    var outer := ListInList(oa, la, t, inner);
    var co := Candidate(outer, []);
    var ci := Candidate(inner, ["ul", "li"]);
    ListInListCandidates(oa, la, t, ia, ic);
    SpecOfOne(o, outer);
    assert Reported(ci) == ["li"];
    EmitList(o, co);
    EmitList(o, ci);
    TwoEntries(o, co, ci);
  }

  /** The paragraph list of a one-node fragment. */
  lemma SpecOfOne(o: Options, n: Node)
    ensures forall d | d in Candidates([n]) :: d.node.Element?
    ensures ParseSpec(o, [n]) == EmitAll(o, Candidates([n]))
  {
    CandidatesAreElements([n]);
  }

  /** Two candidates with one entry each. */
  lemma TwoEntries(o: Options, c: Candidate, d: Candidate)
    requires c.node.Element? && d.node.Element?
    requires Emit(o, c).Ok? && |Emit(o, c).value| == 1 && Emit(o, d).Ok? && |Emit(o, d).value| == 1
    ensures EmitAll(o, [c, d]) == Ok([Emit(o, c).value[0], Emit(o, d).value[0]])
  {
    assert [c, d] == [c] + [d] && [d] == [d] + [];
    EmitAllCons(o, c, [d]);
    EmitAllCons(o, d, []);
    assert Emit(o, d).value + [] == [Emit(o, d).value[0]];
    assert Emit(o, c).value + [Emit(o, d).value[0]] == [Emit(o, c).value[0], Emit(o, d).value[0]];
  }

  lemma ListInListCandidates(oa: map<string, string>, la: map<string, string>, t: string,
                             ia: map<string, string>, ic: seq<Node>)
    requires NamesAll(ic) * CandidateTags == {}
    ensures Candidates([ListInList(oa, la, t, Element("ul", ia, ic))])
      == [Candidate(ListInList(oa, la, t, Element("ul", ia, ic)), []), Candidate(Element("ul", ia, ic), ["ul", "li"])]
  {
    var outer := ListInList(oa, la, t, Element("ul", ia, ic));
    ListInListNames(oa, la, t, ia, ic);
    ListCandidates(outer);
    ListInListNamed(oa, la, t, ia, ic);
    NoNamed(outer, "ol", []);
    assert Named(outer, "ul", []) + [] == Named(outer, "ul", []);
  }

  lemma ListInListNames(oa: map<string, string>, la: map<string, string>, t: string,
                        ia: map<string, string>, ic: seq<Node>)
    requires NamesAll(ic) * CandidateTags == {}
    ensures "ul" !in NamesAll(ic)
    ensures Names(ListInList(oa, la, t, Element("ul", ia, ic))) == {"ul", "li"} + NamesAll(ic)
    ensures NamesAll(ListInList(oa, la, t, Element("ul", ia, ic)).children) * CandidateTags <= {"ul", "ol"}
  {
    var inner := Element("ul", ia, ic);
    assert "ul" in CandidateTags && "li" !in CandidateTags;
    assert NamesAll([inner]) == {"ul"} + NamesAll(ic);
    assert NamesAll([Text(t), inner]) == {} + NamesAll([inner]);
    assert NamesAll(ListInList(oa, la, t, inner).children) == {"li"} + NamesAll([Text(t), inner]);
  }

  lemma ListInListNamed(oa: map<string, string>, la: map<string, string>, t: string,
                        ia: map<string, string>, ic: seq<Node>)
    requires "ul" !in NamesAll(ic)
    ensures Named(ListInList(oa, la, t, Element("ul", ia, ic)), "ul", [])
      == [Candidate(ListInList(oa, la, t, Element("ul", ia, ic)), []), Candidate(Element("ul", ia, ic), ["ul", "li"])]
  {
    var inner := Element("ul", ia, ic);
    var li := Element("li", la, [Text(t), inner]);
    var outer := ListInList(oa, la, t, inner);
    NamedSelf(inner, ["ul", "li"]);
    NamedAfterText(t, inner, "ul", ["ul", "li"]);
    NamedBelow(li, "ul", ["ul"]);
    NamedOnly(li, "ul", ["ul"]);
    NamedBelow(outer, "ul", []);
    assert [] + ["ul"] == ["ul"] && ["ul"] + ["li"] == ["ul", "li"];
    assert [Candidate(outer, [])] + ([] + [Candidate(inner, ["ul", "li"])])
      == [Candidate(outer, []), Candidate(inner, ["ul", "li"])];
  }

  /** An element holding no other element of its name matches its own
      selector once. */
  lemma NamedSelf(n: Node, above: seq<string>)
    requires n.Element? && n.name !in NamesAll(n.children)
    ensures Named(n, n.name, above) == [Candidate(n, above)]
  {
    NoNamedAll(n.children, n.name, above + [n.name]);
  }

  /** The matches in an element are itself, if it matches, then those among
      its children. */
  lemma NamedBelow(n: Node, tag: string, above: seq<string>)
    requires n.Element?
    ensures Named(n, tag, above)
      == (if n.name == tag then [Candidate(n, above)] else []) + NamedAll(n.children, tag, above + [n.name])
  {
  }

  lemma NamedOnly(n: Node, tag: string, above: seq<string>)
    ensures NamedAll([n], tag, above) == Named(n, tag, above)
  {
    assert [n][1..] == [];
    assert Named(n, tag, above) + [] == Named(n, tag, above);
  }

  lemma NamedAfterText(t: string, n: Node, tag: string, above: seq<string>)
    ensures NamedAll([Text(t), n], tag, above) == Named(n, tag, above)
  {
    assert [Text(t), n][1..] == [n];
    NamedOnly(n, tag, above);
  }

  /** A `table` holding one row with one cell that holds an inner table. */
  function TableInTable(ta: map<string, string>, ra: map<string, string>, da: map<string, string>, inner: Node): Node {
    Element("table", ta, [Element("tr", ra, [Element("td", da, [inner])])])
  }

  /** A table in a cell of a top-level table is converted twice, for the
      same reason. */
  lemma NestedTableTwice(o: Options, ta: map<string, string>, ra: map<string, string>, da: map<string, string>,
                         ia: map<string, string>, ic: seq<Node>)
    requires NamesAll(ic) * CandidateTags == {}
    requires !Removed(o, TableInTable(ta, ra, da, Element("table", ia, ic))) && !Removed(o, Element("table", ia, ic))
    requires ParseFormatting(o, TableInTable(ta, ra, da, Element("table", ia, ic))).Ok?
    requires ParseFormatting(o, Element("table", ia, ic)).Ok?
    ensures ParseSpec(o, [TableInTable(ta, ra, da, Element("table", ia, ic))])
      == Ok([ParseFormatting(o, TableInTable(ta, ra, da, Element("table", ia, ic))).value,
             ParseFormatting(o, Element("table", ia, ic)).value])
  {
    var inner := Element("table", ia, ic);
    var outer := TableInTable(ta, ra, da, inner);
    var co := Candidate(outer, []);
    var ci := Candidate(inner, ["table", "tr", "td"]);
    TableInTableCandidates(ta, ra, da, ia, ic);
    SpecOfOne(o, outer);
    assert Reported(ci) == ["tr", "td"];
    EmitTable(o, co);
    EmitTable(o, ci);
    TwoEntries(o, co, ci);
  }

  lemma TableInTableCandidates(ta: map<string, string>, ra: map<string, string>, da: map<string, string>,
                               ia: map<string, string>, ic: seq<Node>)
    requires NamesAll(ic) * CandidateTags == {}
    ensures Candidates([TableInTable(ta, ra, da, Element("table", ia, ic))])
      == [Candidate(TableInTable(ta, ra, da, Element("table", ia, ic)), []),
          Candidate(Element("table", ia, ic), ["table", "tr", "td"])]
  {
    TableInTableNames(ta, ra, da, ia, ic);
    TableCandidates(TableInTable(ta, ra, da, Element("table", ia, ic)));
    TableInTableNamed(ta, ra, da, ia, ic);
  }

  lemma TableInTableNames(ta: map<string, string>, ra: map<string, string>, da: map<string, string>,
                          ia: map<string, string>, ic: seq<Node>)
    requires NamesAll(ic) * CandidateTags == {}
    ensures "table" !in NamesAll(ic)
    ensures NamesAll(TableInTable(ta, ra, da, Element("table", ia, ic)).children) * CandidateTags <= {"table"}
  {
    var inner := Element("table", ia, ic);
    var td := Element("td", da, [inner]);
    assert "table" in CandidateTags && "tr" !in CandidateTags && "td" !in CandidateTags;
    assert NamesAll([inner]) == {"table"} + NamesAll(ic);
    assert NamesAll([td]) == {"td"} + NamesAll([inner]);
    assert NamesAll(TableInTable(ta, ra, da, inner).children) == {"tr"} + NamesAll([td]);
  }

  lemma TableInTableNamed(ta: map<string, string>, ra: map<string, string>, da: map<string, string>,
                          ia: map<string, string>, ic: seq<Node>)
    requires "table" !in NamesAll(ic)
    ensures Named(TableInTable(ta, ra, da, Element("table", ia, ic)), "table", [])
      == [Candidate(TableInTable(ta, ra, da, Element("table", ia, ic)), []),
          Candidate(Element("table", ia, ic), ["table", "tr", "td"])]
  {
    var inner := Element("table", ia, ic);
    var td := Element("td", da, [inner]);
    var tr := Element("tr", ra, [td]);
    var outer := TableInTable(ta, ra, da, inner);
    var ci := Candidate(inner, ["table", "tr", "td"]);
    NamedSelf(inner, ["table", "tr", "td"]);
    NamedOnly(inner, "table", ["table", "tr", "td"]);
    CellPath();
    NamedBelow(td, "table", ["table", "tr"]);
    NamedOnly(td, "table", ["table", "tr"]);
    NamedBelow(tr, "table", ["table"]);
    NamedOnly(tr, "table", ["table"]);
    NamedBelow(outer, "table", []);
    assert [] + [ci] == [ci];
    assert [Candidate(outer, [])] + [ci] == [Candidate(outer, []), ci];
  }

  lemma CellPath()
    ensures [] + ["table"] == ["table"] && ["table"] + ["tr"] == ["table", "tr"]
    ensures ["table", "tr"] + ["td"] == ["table", "tr", "td"]
  {
  }

  /** The candidates of a table whose only selected descendants are tables:
      the `table` group. */
  lemma TableCandidates(outer: Node)
    requires outer.Element? && outer.name == "table"
    requires NamesAll(outer.children) * CandidateTags <= {"table"}
    ensures Candidates([outer]) == Named(outer, "table", [])
  {
    var eleven := ["h1", "h2", "h3", "h4", "h5", "h6", "p", "pre", "blockquote", "ul", "ol"];
    assert Selectors == eleven + ["table"];
    assert Names(outer) == {outer.name} + NamesAll(outer.children);
    assert forall k | 0 <= k < |eleven| :: eleven[k] in CandidateTags - {"table"};
    GroupedSkip(outer, eleven, ["table"]);
    GroupedOne(outer, "table");
    assert [outer][1..] == [];
  }
}
