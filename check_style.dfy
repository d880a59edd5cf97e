/** Style-name selection for converted block elements
    (lib/odf-report/parser/default.rb, `check_style`): a tag default, replaced by
    the element's `class`, replaced in turn by an inline `text-align`. */
module StyleNames {
  import opened Html
  import opened ClassNames

  /** The parser's options: the `remove_classes` list and the prefix and suffix
      lists handed to the class strippers (`nil` is the empty list). */
  datatype Options = Options(removeClasses: seq<string>, prefixes: seq<string>, suffixes: seq<string>)

  /** The first `h` or `H` of `s` that is followed by an ASCII digit, as the
      leftmost match of `/h(\d)/i`; the result is the position of that letter. */
  function HeadingAt(s: string): (r: Option<nat>)
    ensures r.Some? ==> r.value + 1 < |s| && IsHeadingLetter(s, r.value)
    ensures r.Some? ==> forall j :: 0 <= j < r.value ==> !IsHeadingLetter(s, j)
    ensures r.None? ==> forall j :: 0 <= j < |s| ==> !IsHeadingLetter(s, j)
  {
    HeadingFrom(s, 0)
  }

  /** The scan behind `HeadingAt`, from position `k` on. */
  function HeadingFrom(s: string, k: nat): (r: Option<nat>)
    requires k <= |s|
    ensures r.Some? ==> k <= r.value && IsHeadingLetter(s, r.value)
    ensures r.Some? ==> forall j :: k <= j < r.value ==> !IsHeadingLetter(s, j)
    ensures r.None? ==> forall j :: k <= j < |s| ==> !IsHeadingLetter(s, j)
    decreases |s| - k
  {
    if k + 1 >= |s| then None
    else if IsHeadingLetter(s, k) then Some(k)
    else HeadingFrom(s, k + 1)
  }

  /** Position `j` of `s` holds `h`/`H` and the next character is a digit. */
  predicate IsHeadingLetter(s: string, j: int) {
    0 <= j && j + 1 < |s| && (s[j] == 'h' || s[j] == 'H') && '0' <= s[j + 1] <= '9'
  }

  /** `name =~ /h(\d)/i`. */
  predicate IsHeading(s: string) {
    HeadingAt(s).Some?
  }

  /** The tag's own style: heading names lower-cased, `quote` for a paragraph
      directly inside a blockquote, `pre`, `paragraph`, and otherwise none. */
  function DefaultStyle(name: string, parent: string): string {
    if IsHeading(name) then Lower(name)
    else if name == "p" && parent == "blockquote" then "quote"
    else if name == "pre" then "pre"
    else if name == "p" then "paragraph"
    else ""
  }

  /** The `class` value after the configured strippers: prefixes first, then
      suffixes, each only when its list is non-empty. */
  function ClassStyle(o: Options, cls: string): string {
    var s := if o.prefixes != [] then RemovePrefixes(o.prefixes, cls) else cls;
    if o.suffixes != [] then RemoveSuffixes(o.suffixes, s) else s
  }

  /** The alignment keywords, in the order the `case` tries them. */
  const Alignments: seq<string> := ["center", "left", "right", "justify"]

  /** The first index at or after `k` whose character is not a space, or
      `|style|`. */
  function SkipSpaces(style: string, k: nat): (r: nat)
    requires k <= |style|
    ensures k <= r <= |style|
    ensures forall j | k <= j < r :: IsRegexSpace(style[j])
    ensures r < |style| ==> !IsRegexSpace(style[r])
    decreases |style| - k
  {
    if k < |style| && IsRegexSpace(style[k]) then SkipSpaces(style, k + 1) else k
  }

  /** `style` matches `/text-align:(\s*)kw/` with the match of `text-align:` at
      offset `i`. Every keyword starts with a letter, so the greedy `\s*` can
      only succeed when it consumes the whole run of spaces. */
  predicate AlignsAt(style: string, kw: string, i: int) {
    OccursAt("text-align:", style, i) && OccursAt(kw, style, SkipSpaces(style, i + 11))
  }

  /** `style` matches `/text-align:(\s*)kw/`: the pattern matches at some
      offset. */
  predicate Aligns(style: string, kw: string) {
    exists i | 0 <= i <= |style| :: AlignsAt(style, kw, i)
  }

  /** Index in `kws` of the first keyword `style` matches, or `|kws|`. */
  function FirstAlignment(style: string, kws: seq<string>): (k: nat)
    ensures k <= |kws|
    ensures k < |kws| ==> Aligns(style, kws[k])
    ensures forall j :: 0 <= j < k ==> !Aligns(style, kws[j])
  {
    if kws == [] then 0
    else if Aligns(style, kws[0]) then 0
    else 1 + FirstAlignment(style, kws[1..])
  }

  /** Index in `Alignments` of the first keyword `style` matches, or 4. */
  function AlignmentIndex(style: string): (k: nat)
    ensures k <= 4
    ensures k < 4 ==> Aligns(style, Alignments[k])
    ensures forall j :: 0 <= j < k ==> !Aligns(style, Alignments[j])
  {
    FirstAlignment(style, Alignments)
  }

  /** `check_style(node)` for an element called `name` whose parent is called
      `parent`, with attributes `attrs`. */
  function CheckStyle(o: Options, name: string, parent: string, attrs: map<string, string>): string {
    var base := DefaultStyle(name, parent);
    var withClass := if AttrPresent(attrs, "class") then ClassStyle(o, attrs["class"]) else base;
    var k := if "style" in attrs then AlignmentIndex(attrs["style"]) else 4;
    if k < 4 then Alignments[k] else withClass
  }

  /** The element has no `style` attribute naming an alignment. */
  predicate Unaligned(attrs: map<string, string>) {
    "style" !in attrs || AlignmentIndex(attrs["style"]) == 4
  }

  /** Tier 1: without a present class and without an alignment the tag decides:
      headings keep their lower-cased name, a paragraph in a blockquote is
      `quote`, `pre` is `pre`, any other paragraph is `paragraph`. */
  lemma DefaultTier(o: Options, name: string, parent: string, attrs: map<string, string>)
    requires !AttrPresent(attrs, "class") && Unaligned(attrs)
    ensures name in {"h1", "h2", "h3", "h4", "h5", "h6"} ==> CheckStyle(o, name, parent, attrs) == name
    ensures name in {"H1", "H2", "H3", "H4", "H5", "H6"} ==> CheckStyle(o, name, parent, attrs) == Lower(name)
    ensures name == "p" && parent == "blockquote" ==> CheckStyle(o, name, parent, attrs) == "quote"
    ensures name == "p" && parent != "blockquote" ==> CheckStyle(o, name, parent, attrs) == "paragraph"
    ensures name == "pre" ==> CheckStyle(o, name, parent, attrs) == "pre"
  {
    if name in {"h1", "h2", "h3", "h4", "h5", "h6", "H1", "H2", "H3", "H4", "H5", "H6"} {
      assert IsHeadingLetter(name, 0);
      assert name == Lower(name) <== name[0] == 'h';
    } else if name == "p" || name == "pre" {
      assert !IsHeadingLetter(name, 0);
      assert |name| < 2 || !IsHeadingLetter(name, 1);
    }
  }

  /** Tier 2: a present class overrides the tag default; the result is the
      stripped class, never blank, and the class itself when no stripper is
      configured. */
  lemma ClassTier(o: Options, name: string, parent: string, attrs: map<string, string>)
    requires AttrPresent(attrs, "class") && Unaligned(attrs)
    ensures CheckStyle(o, name, parent, attrs) == ClassStyle(o, attrs["class"])
    ensures Present(CheckStyle(o, name, parent, attrs))
    ensures o.prefixes == [] && o.suffixes == [] ==> CheckStyle(o, name, parent, attrs) == attrs["class"]
  {
    var c := attrs["class"];
    var s := if o.prefixes != [] then RemovePrefixes(o.prefixes, c) else c;
    if o.prefixes != [] {
      RemovePrefixesPresent(o.prefixes, c);
    }
    if o.suffixes != [] {
      RemoveSuffixesPresent(o.suffixes, s);
    }
  }

  /** Tier 3: the first alignment the `style` attribute names wins over both
      the class and the tag. */
  lemma AlignmentTier(o: Options, name: string, parent: string, attrs: map<string, string>, k: nat)
    requires "style" in attrs && k < 4 && Aligns(attrs["style"], Alignments[k])
    requires forall j :: 0 <= j < k ==> !Aligns(attrs["style"], Alignments[j])
    ensures CheckStyle(o, name, parent, attrs) == Alignments[k]
  {
    assert AlignmentIndex(attrs["style"]) == k;
  }

  /** The configured strippers only ever touch a class: without a present class
      the options make no difference. */
  lemma OptionsNeedClass(o1: Options, o2: Options, name: string, parent: string, attrs: map<string, string>)
    requires !AttrPresent(attrs, "class")
    ensures CheckStyle(o1, name, parent, attrs) == CheckStyle(o2, name, parent, attrs)
  {
  }

  /** Every style is one of the three tiers' candidates. */
  lemma StyleCandidates(o: Options, name: string, parent: string, attrs: map<string, string>)
    ensures var r := CheckStyle(o, name, parent, attrs);
      r in Alignments || r == DefaultStyle(name, parent)
      || (AttrPresent(attrs, "class") && r == ClassStyle(o, attrs["class"]))
  {
  }

  /** The concrete form of the match: `text-align:`, any run of spaces and the
      keyword, anywhere in the attribute, is a match of that keyword. */
  lemma AlignsWritten(pre: string, ws: string, kw: string, post: string)
    requires forall j :: 0 <= j < |ws| ==> IsRegexSpace(ws[j])
    requires kw in Alignments
    ensures Aligns(pre + "text-align:" + ws + kw + post, kw)
  {
    var s := pre + "text-align:" + ws + kw + post;
    var i := |pre|;
    var k := i + 11 + |ws|;
    assert s[i..i + 11] == "text-align:";
    assert s[k..k + |kw|] == kw;
    forall j | i + 11 <= j < k
      ensures IsRegexSpace(s[j])
    {
      assert s[j] == ws[j - i - 11];
    }
    assert !IsRegexSpace(s[k]) by {
      assert s[k] == kw[0];
    }
    assert SkipSpaces(s, i + 11) == k;
    assert AlignsAt(s, kw, i);
  }
}
