/** Bookmark extraction (lib/odf-report/bookmark_reader.rb): for each
    requested name, the text following a point bookmark of that name and the
    text between a range of that name, as (name, text) pairs. */
module BookmarkReading {
  import opened Html
  import opened Bookmarks

  /** The two queries `get_bookmark_content` makes per name. */
  datatype Query = PointQuery | RangeQuery

  /** Child `k` of `p` is a text with a same-name point bookmark among its
      earlier siblings. */
  predicate PointText(p: seq<Sibling>, name: string, k: nat)
    requires k < |p|
  {
    p[k].Chars? && Point(name) in p[..k]
  }

  predicate Selected(q: Query, p: seq<Sibling>, name: string, k: nat)
    requires k < |p|
  {
    if q.PointQuery? then PointText(p, name, k) else RangeText(p, name, k)
  }

  /** The texts the query selects among the first `k` children of `p`. */
  function ParaTexts(q: Query, p: seq<Sibling>, name: string, k: nat): seq<string>
    requires k <= |p|
  {
    if k == 0 then []
    else ParaTexts(q, p, name, k - 1) + (if Selected(q, p, name, k - 1) then [p[k - 1].text] else [])
  }

  /** The texts the query selects in the first `m` paragraphs, in document
      order. */
  function TextsUpTo(q: Query, doc: seq<seq<Sibling>>, name: string, m: nat): seq<string>
    requires m <= |doc|
  {
    if m == 0 then [] else TextsUpTo(q, doc, name, m - 1) + ParaTexts(q, doc[m - 1], name, |doc[m - 1]|)
  }

  function Texts(q: Query, doc: seq<seq<Sibling>>, name: string): seq<string> {
    TextsUpTo(q, doc, name, |doc|)
  }

  /** `NodeSet#text`: the texts joined without separator. */
  function Join(ts: seq<string>): string {
    if ts == [] then "" else Join(ts[..|ts| - 1]) + ts[|ts| - 1]
  }

  /** What one name contributes: the point pair, then the range pair, each
      only when its query selects some text. */
  function Pairs(doc: seq<seq<Sibling>>, name: string): seq<(string, string)> {
    var points := Texts(PointQuery, doc, name);
    var ranges := Texts(RangeQuery, doc, name);
    (if points != [] then [(name, Join(points))] else [])
      + (if ranges != [] then [(name, Join(ranges))] else [])
  }

  /** The pairs of the names in order. */
  function ReadSpec(doc: seq<seq<Sibling>>, names: seq<string>): seq<(string, string)> {
    if names == [] then [] else ReadSpec(doc, names[..|names| - 1]) + Pairs(doc, names[|names| - 1])
  }

  lemma ReadStep(doc: seq<seq<Sibling>>, names: seq<string>, n: string)
    ensures ReadSpec(doc, names + [n]) == ReadSpec(doc, names) + Pairs(doc, n)
  {
    assert (names + [n])[..|names|] == names;
  }

  /** One round of the reader's loop: appending the point pair, then the
      range pair, of the next name extends the pairs of the names before. */
  lemma ReadNext(doc: seq<seq<Sibling>>, prefix: seq<string>, n: string, before: seq<(string, string)>,
                 points: seq<string>, ranges: seq<string>)
    requires before == ReadSpec(doc, prefix)
    requires points == Texts(PointQuery, doc, n) && ranges == Texts(RangeQuery, doc, n)
    ensures var mid := if points != [] then before + [(n, Join(points))] else before;
            (if ranges != [] then mid + [(n, Join(ranges))] else mid) == ReadSpec(doc, prefix + [n])
  {
    AppendTwo(before, (n, Join(points)), (n, Join(ranges)), points != [], ranges != []);
    ReadStep(doc, prefix, n);
  }

  /** Appending two optional pairs one after the other appends them together. */
  lemma AppendTwo<T>(before: seq<T>, x: T, y: T, hasX: bool, hasY: bool)
    ensures var mid := if hasX then before + [x] else before;
            (if hasY then mid + [y] else mid)
              == before + ((if hasX then [x] else []) + (if hasY then [y] else []))
  {
    if hasX && hasY {
      assert (before + [x]) + [y] == before + ([x] + [y]);
    }
  }

  /** The names of the point and start markers of the first `k` children. */
  function ParaNames(p: seq<Sibling>, k: nat): seq<string>
    requires k <= |p|
  {
    if k == 0 then []
    else ParaNames(p, k - 1) + (if p[k - 1].Point? || p[k - 1].Start? then [p[k - 1].name] else [])
  }

  function NamesUpTo(doc: seq<seq<Sibling>>, m: nat): seq<string>
    requires m <= |doc|
  {
    if m == 0 then [] else NamesUpTo(doc, m - 1) + ParaNames(doc[m - 1], |doc[m - 1]|)
  }

  /** Every point or start marker's name, in document order, duplicates kept. */
  function AllNames(doc: seq<seq<Sibling>>): seq<string> {
    NamesUpTo(doc, |doc|)
  }

  /** The names queried: the reader's own, or else all of them. */
  function Names(name: Option<string>, doc: seq<seq<Sibling>>): seq<string> {
    if name.Some? then [name.value] else AllNames(doc)
  }

  /** `BookmarkReader`: an optional bookmark name to read. */
  class BookmarkReader {
    var name: Option<string>

    constructor(name: Option<string>)
      ensures this.name == name
    {
      this.name := name;
    }

    /** `get_bookmark_content`: the pairs of every queried name, reading the
        document without changing it (no `modifies`). */
    method GetBookmarkContent(doc: Document) returns (result: seq<(string, string)>)
      ensures result == ReadSpec(doc.paragraphs, Names(name, doc.paragraphs))
    {
      var paras := doc.paragraphs;
      var names := if name.Some? then [name.value] else AllNames(paras);
      result := [];
      var i := 0;
      while i < |names|
        invariant 0 <= i <= |names|
        invariant result == ReadSpec(paras, names[..i])
      {
        var n := names[i];
        var points := Texts(PointQuery, paras, n);
        var ranges := Texts(RangeQuery, paras, n);
        ghost var before := result;
        assert names[..i + 1] == names[..i] + [n];
        ReadNext(paras, names[..i], n, before, points, ranges);
        if points != [] {
          result := result + [(n, Join(points))];
        }
        if ranges != [] {
          result := result + [(n, Join(ranges))];
        }
        i := i + 1;
      }
      assert names[..|names|] == names;
    }
  }
}
