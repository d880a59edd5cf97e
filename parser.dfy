/** The candidate loop of `parse` (lib/odf-report/parser/default.rb): the
    elements the CSS query selects, each converted by `parse_formatting` and
    appended to the paragraph list. The query is Nokogiri's `NodeSet#css`
    with twelve selectors: for each top-level node of the fragment in turn,
    it lists the node and its descendants that match the first selector, in
    document order, then those that match the second, and so on. */
module Parser {
  import opened Html
  import opened Trees
  import opened StyleNames
  import opened Formatting

  /** The selectors of the CSS query, in the order they are passed. */
  const Selectors: seq<string> := ["h1", "h2", "h3", "h4", "h5", "h6", "p", "pre", "blockquote", "ul", "ol", "table"]

  /** The elements the CSS query selects. */
  const CandidateTags: set<string> := {"h1", "h2", "h3", "h4", "h5", "h6", "p", "pre", "blockquote", "ul", "ol", "table"}

  /** The elements converted on their own wherever they occur. */
  const BlockTags: set<string> := {"h1", "h2", "h3", "h4", "h5", "h6", "p", "pre"}

  /** A selected element with the names of its ancestors in the fragment,
      outermost first. */
  datatype Candidate = Candidate(node: Node, ancestors: seq<string>)

  /** The elements named `tag` among `n` and its descendants, in document
      order (`self::tag | .//tag`); `above` names the ancestors of `n`. */
  function Named(n: Node, tag: string, above: seq<string>): seq<Candidate> {
    match n
    case Text(_) => []
    case Element(name, _, cs) =>
      (if name == tag then [Candidate(n, above)] else []) + NamedAll(cs, tag, above + [name])
  }

  function NamedAll(cs: seq<Node>, tag: string, above: seq<string>): seq<Candidate> {
    if cs == [] then [] else Named(cs[0], tag, above) + NamedAll(cs[1..], tag, above)
  }

  /** The matches of the selectors `sels` in the top-level node `n`, grouped
      by selector in the order of `sels`. */
  function Grouped(n: Node, sels: seq<string>): seq<Candidate> {
    if sels == [] then [] else Named(n, sels[0], []) + Grouped(n, sels[1..])
  }

  /** What the query selects in one top-level node. */
  function CandidatesOf(n: Node): seq<Candidate> {
    Grouped(n, Selectors)
  }

  /** The query over the top-level nodes of the parsed fragment, one node
      after the other. */
  function Candidates(fragment: seq<Node>): seq<Candidate> {
    if fragment == [] then [] else CandidatesOf(fragment[0]) + Candidates(fragment[1..])
  }

  /** `@remove_classes.present? && @remove_classes.include?(p['class'])`. */
  predicate Removed(o: Options, n: Node) {
    n.Element? && o.removeClasses != [] && "class" in n.attrs && n.attrs["class"] in o.removeClasses
  }

  /** The ancestor names `Node#ancestors(selector)` can report for a
      candidate: all but the outermost. The fragment's top-level nodes have
      no parent, and `ancestors` keeps only the parents that a search below
      the outermost one finds, so that one is never reported. */
  function Reported(c: Candidate): seq<string> {
    if c.ancestors == [] then [] else c.ancestors[1..]
  }

  /** What one candidate appends to the paragraph list: the converted root
      (`nil` when it is gone), nothing, or the converted children of a
      blockquote; `Raised` when the conversion raises or the blockquote's root
      is gone. */
  function Emit(o: Options, c: Candidate): (r: Result<seq<Option<Node>>>)
    requires c.node.Element?
  {
    var n := c.node;
    if Removed(o, n) then Ok([])
    else if n.name in BlockTags then
      var root :- ParseFormatting(o, n);
      Ok([root])
    else if n.name in {"ul", "ol"} then
      if "ul" in Reported(c) || "ol" in Reported(c) then Ok([])
      else
        var root :- ParseFormatting(o, n);
        Ok([root])
    else if n.name == "table" then
      if "table" in Reported(c) then Ok([])
      else
        var root :- ParseFormatting(o, n);
        Ok([root])
    else if n.name == "blockquote" then
      var root :- ParseFormatting(o, n);
      Unquoted(root)
    else Ok([])
  }

  /** The entries a converted blockquote contributes: its children, each as
      an entry of its own; `Raised` when its root is gone. */
  function Unquoted(root: Option<Node>): Result<seq<Option<Node>>>
    requires root.Some? ==> root.value.Element?
  {
    match root
    case None => Raised
    case Some(m) => Ok(seq(|m.children|, i requires 0 <= i < |m.children| => Some(m.children[i])))
  }

  /** The matches of a selector are elements of that name. */
  lemma {:induction false} NamedAreElements(n: Node, tag: string, above: seq<string>)
    ensures forall c | c in Named(n, tag, above) :: c.node.Element? && c.node.name == tag
  {
    if n.Element? {
      NamedAllAreElements(n.children, tag, above + [n.name]);
    }
  }

  lemma {:induction false} NamedAllAreElements(cs: seq<Node>, tag: string, above: seq<string>)
    ensures forall c | c in NamedAll(cs, tag, above) :: c.node.Element? && c.node.name == tag
  {
    if cs != [] {
      NamedAreElements(cs[0], tag, above);
      NamedAllAreElements(cs[1..], tag, above);
    }
  }

  lemma {:induction false} GroupedAreElements(n: Node, sels: seq<string>)
    ensures forall c | c in Grouped(n, sels) :: c.node.Element? && c.node.name in sels
  {
    if sels != [] {
      NamedAreElements(n, sels[0], []);
      GroupedAreElements(n, sels[1..]);
    }
  }

  /** Candidates are selected elements. */
  lemma {:induction false} CandidatesAreElements(fragment: seq<Node>)
    ensures forall c | c in Candidates(fragment) :: c.node.Element? && c.node.name in CandidateTags
  {
    if fragment != [] {
      GroupedAreElements(fragment[0], Selectors);
      CandidatesAreElements(fragment[1..]);
    }
  }

  /** The paragraph list of the candidates `cs`, taken in order. */
  function EmitAll(o: Options, cs: seq<Candidate>): Result<seq<Option<Node>>>
    requires forall c | c in cs :: c.node.Element?
  {
    if cs == [] then Ok([])
    else
      var head :- Emit(o, cs[0]);
      var rest :- EmitAll(o, cs[1..]);
      Ok(head + rest)
  }

  /** `@paragraphs` after `parse` on the parsed fragment. */
  function ParseSpec(o: Options, fragment: seq<Node>): Result<seq<Option<Node>>> {
    CandidatesAreElements(fragment);
    EmitAll(o, Candidates(fragment))
  }

  /** `before` followed by the outcome `r`. */
  function Prefixed(before: seq<Option<Node>>, r: Result<seq<Option<Node>>>): Result<seq<Option<Node>>> {
    if r.Raised? then Raised else Ok(before + r.value)
  }

  lemma PrefixedNothing(r: Result<seq<Option<Node>>>)
    ensures Prefixed([], r) == r
  {
    if r.Ok? {
      assert [] + r.value == r.value;
    }
  }

  lemma PrefixedDone(before: seq<Option<Node>>)
    ensures Prefixed(before, Ok([])) == Ok(before)
  {
    assert before + [] == before;
  }

  lemma SuffixTail(s: seq<Candidate>, i: nat)
    requires i <= |s|
    ensures i < |s| ==> s[i..][1..] == s[i + 1..]
    ensures i == |s| ==> s[i..] == []
  {
  }

  /** One step of the loop: the first candidate's entries join the prefix,
      or its failure ends the outcome. */
  lemma PrefixedStep(o: Options, before: seq<Option<Node>>, cs: seq<Candidate>)
    requires cs != [] && forall c | c in cs :: c.node.Element?
    ensures Emit(o, cs[0]).Raised? ==> Prefixed(before, EmitAll(o, cs)) == Raised
    ensures Emit(o, cs[0]).Ok? ==>
      Prefixed(before, EmitAll(o, cs)) == Prefixed(before + Emit(o, cs[0]).value, EmitAll(o, cs[1..]))
  {
    var rest := EmitAll(o, cs[1..]);
    if Emit(o, cs[0]).Ok? && rest.Ok? {
      assert before + (Emit(o, cs[0]).value + rest.value) == before + Emit(o, cs[0]).value + rest.value;
    }
  }

  /** `parse`: the candidate loop appending to the paragraph list. */
  method Parse(o: Options, fragment: seq<Node>) returns (r: Result<seq<Option<Node>>>)
    ensures r == ParseSpec(o, fragment)
  {
    var candidates := Candidates(fragment);
    CandidatesAreElements(fragment);
    var paragraphs: seq<Option<Node>> := [];
    PrefixedNothing(EmitAll(o, candidates));
    var i := 0;
    while i < |candidates|
      invariant 0 <= i <= |candidates|
      invariant forall c | c in candidates[i..] :: c.node.Element?
      invariant ParseSpec(o, fragment) == Prefixed(paragraphs, EmitAll(o, candidates[i..]))
    {
      var step := Emit(o, candidates[i]);
      PrefixedStep(o, paragraphs, candidates[i..]);
      SuffixTail(candidates, i);
      if step.Raised? {
        return Raised;
      }
      paragraphs := paragraphs + step.value;
      i := i + 1;
    }
    SuffixTail(candidates, i);
    PrefixedDone(paragraphs);
    return Ok(paragraphs);
  }
}
