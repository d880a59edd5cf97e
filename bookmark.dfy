/** Bookmark replacement (lib/odf-report/bookmark.rb): the point or range
    bookmarks of one name are found in document order, the text of a range is
    removed, and one new text node holding the value is inserted after the last
    bookmark marker found.

    A document is its list of paragraphs, each the list of the paragraph's
    children: text, bookmark markers, and other elements left opaque. */
module Bookmarks {
  import opened Html

  /** A child of a paragraph: a text node, a bookmark marker, or any other
      element (so every text child is `Chars`). */
  datatype Sibling =
    | Chars(text: string)
    | Point(name: string)
    | Start(name: string)
    | End(name: string)
    | Other(tag: string, attrs: map<string, string>, children: seq<Node>)

  /** A position: paragraph, then child. */
  datatype Pos = Pos(para: nat, index: nat)

  predicate ValidPos(doc: seq<seq<Sibling>>, p: Pos) {
    p.para < |doc| && p.index < |doc[p.para]|
  }

  /** Document order. */
  predicate Before(p: Pos, q: Pos) {
    p.para < q.para || (p.para == q.para && p.index < q.index)
  }

  /** What `find_bookmark_nodes` selects: a point bookmark or a range start
      with the name. */
  predicate IsMarker(s: Sibling, name: string) {
    (s.Point? || s.Start?) && s.name == name
  }

  /** The markers of the first `k` children of paragraph `i`, in order. */
  function ParaMarkers(p: seq<Sibling>, name: string, i: nat, k: nat): seq<Pos>
    requires k <= |p|
  {
    if k == 0 then []
    else ParaMarkers(p, name, i, k - 1) + (if IsMarker(p[k - 1], name) then [Pos(i, k - 1)] else [])
  }

  /** The markers of the first `n` paragraphs, in document order. */
  function MarkersUpTo(doc: seq<seq<Sibling>>, name: string, n: nat): seq<Pos>
    requires n <= |doc|
  {
    if n == 0 then [] else MarkersUpTo(doc, name, n - 1) + ParaMarkers(doc[n - 1], name, n - 1, |doc[n - 1]|)
  }

  function Markers(doc: seq<seq<Sibling>>, name: string): seq<Pos> {
    MarkersUpTo(doc, name, |doc|)
  }

  /** Paragraph `i`'s markers: valid, named, and in order before `k`. */
  lemma {:induction false} ParaMarkersSound(doc: seq<seq<Sibling>>, name: string, i: nat, k: nat)
    requires i < |doc| && k <= |doc[i]|
    ensures forall q | q in ParaMarkers(doc[i], name, i, k) ::
      q.para == i && q.index < k && ValidPos(doc, q) && IsMarker(doc[i][q.index], name)
    ensures forall a, b | 0 <= a < b < |ParaMarkers(doc[i], name, i, k)| ::
      ParaMarkers(doc[i], name, i, k)[a].index < ParaMarkers(doc[i], name, i, k)[b].index
  {
    if k > 0 {
      ParaMarkersSound(doc, name, i, k - 1);
    }
  }

  lemma {:induction false} ParaMarkersComplete(p: seq<Sibling>, name: string, i: nat, k: nat, j: nat)
    requires j < k <= |p| && IsMarker(p[j], name)
    ensures Pos(i, j) in ParaMarkers(p, name, i, k)
  {
    if j < k - 1 {
      ParaMarkersComplete(p, name, i, k - 1, j);
    }
  }

  /** Every marker of the document is found, and only markers are. */
  lemma {:induction false} MarkersUpToSound(doc: seq<seq<Sibling>>, name: string, n: nat)
    requires n <= |doc|
    ensures forall q | q in MarkersUpTo(doc, name, n) :: q.para < n && ValidPos(doc, q) && IsMarker(doc[q.para][q.index], name)
  {
    if n > 0 {
      MarkersUpToSound(doc, name, n - 1);
      ParaMarkersSound(doc, name, n - 1, |doc[n - 1]|);
    }
  }

  lemma {:induction false} MarkersUpToComplete(doc: seq<seq<Sibling>>, name: string, n: nat, q: Pos)
    requires q.para < n <= |doc| && ValidPos(doc, q) && IsMarker(doc[q.para][q.index], name)
    ensures q in MarkersUpTo(doc, name, n)
  {
    if q.para < n - 1 {
      MarkersUpToComplete(doc, name, n - 1, q);
    } else {
      ParaMarkersComplete(doc[q.para], name, q.para, |doc[q.para]|, q.index);
    }
  }

  /** The markers come in document order. */
  lemma {:induction false} MarkersUpToOrdered(doc: seq<seq<Sibling>>, name: string, n: nat)
    requires n <= |doc|
    ensures forall a, b | 0 <= a < b < |MarkersUpTo(doc, name, n)| ::
      Before(MarkersUpTo(doc, name, n)[a], MarkersUpTo(doc, name, n)[b])
  {
    if n > 0 {
      MarkersUpToOrdered(doc, name, n - 1);
      MarkersUpToSound(doc, name, n - 1);
      ParaMarkersSound(doc, name, n - 1, |doc[n - 1]|);
      var front := MarkersUpTo(doc, name, n - 1);
      var back := ParaMarkers(doc[n - 1], name, n - 1, |doc[n - 1]|);
      var all := front + back;
      forall a, b | 0 <= a < b < |all|
        ensures Before(all[a], all[b])
      {
        if b < |front| {
          assert all[a] == front[a] && all[b] == front[b];
        } else if a < |front| {
          assert all[a] == front[a] && front[a] in front;
          assert all[b] == back[b - |front|] && back[b - |front|] in back;
        } else {
          assert all[a] == back[a - |front|] && all[b] == back[b - |front|];
        }
      }
    }
  }

  /** The markers of the whole document: exactly the named point and start
      markers, in document order. */
  lemma MarkersSpec(doc: seq<seq<Sibling>>, name: string)
    ensures forall q | q in Markers(doc, name) :: ValidPos(doc, q) && IsMarker(doc[q.para][q.index], name)
    ensures forall q | ValidPos(doc, q) && IsMarker(doc[q.para][q.index], name) :: q in Markers(doc, name)
    ensures forall a, b | 0 <= a < b < |Markers(doc, name)| :: Before(Markers(doc, name)[a], Markers(doc, name)[b])
  {
    MarkersUpToSound(doc, name, |doc|);
    MarkersUpToOrdered(doc, name, |doc|);
    forall q | ValidPos(doc, q) && IsMarker(doc[q.para][q.index], name)
      ensures q in Markers(doc, name)
    {
      MarkersUpToComplete(doc, name, |doc|, q);
    }
  }

  // ---------------------------------------------------------------------------
  // The range text and the insertion

  /** Child `k` of `p` has a same-name range start among its earlier siblings
      and a same-name range end among its later ones. */
  predicate Enclosed(p: seq<Sibling>, name: string, k: nat)
    requires k < |p|
  {
    Start(name) in p[..k] && End(name) in p[k + 1..]
  }

  /** Child `k` is a text the range query selects. */
  predicate RangeText(p: seq<Sibling>, name: string, k: nat)
    requires k < |p|
  {
    p[k].Chars? && Enclosed(p, name, k)
  }

  /** The first `k` children of `p` without the range texts. */
  function Survivors(p: seq<Sibling>, name: string, k: nat): seq<Sibling>
    requires k <= |p|
  {
    if k == 0 then []
    else Survivors(p, name, k - 1) + (if RangeText(p, name, k - 1) then [] else [p[k - 1]])
  }

  /** The document after `bm.each { |b| b.remove }`. */
  function RangeRemoved(doc: seq<seq<Sibling>>, name: string): (r: seq<seq<Sibling>>)
    ensures |r| == |doc|
  {
    seq(|doc|, i requires 0 <= i < |doc| => Survivors(doc[i], name, |doc[i]|))
  }

  /** `node.after(text_node)`: the new text right after position `q`. */
  function InsertAfter(doc: seq<seq<Sibling>>, q: Pos, value: string): seq<seq<Sibling>>
    requires ValidPos(doc, q)
  {
    var p := doc[q.para];
    doc[q.para := p[..q.index + 1] + [Chars(value)] + p[q.index + 1..]]
  }

  /** The children that are not text. */
  function Markup(p: seq<Sibling>): seq<Sibling> {
    if p == [] then [] else (if p[0].Chars? then [] else [p[0]]) + Markup(p[1..])
  }

  lemma {:induction false} MarkupAppend(a: seq<Sibling>, b: seq<Sibling>)
    ensures Markup(a + b) == Markup(a) + Markup(b)
  {
    if a == [] {
      assert a + b == b;
    } else {
      assert (a + b)[1..] == a[1..] + b;
      MarkupAppend(a[1..], b);
    }
  }

  /** Removing range texts keeps every other child. */
  lemma {:induction false} SurvivorsMarkup(p: seq<Sibling>, name: string, k: nat)
    requires k <= |p|
    ensures Markup(Survivors(p, name, k)) == Markup(p[..k])
  {
    if k > 0 {
      SurvivorsMarkup(p, name, k - 1);
      var last := if RangeText(p, name, k - 1) then [] else [p[k - 1]];
      MarkupAppend(Survivors(p, name, k - 1), last);
      assert p[..k] == p[..k - 1] + [p[k - 1]];
      MarkupAppend(p[..k - 1], [p[k - 1]]);
      assert [p[k - 1]][1..] == [];
    }
  }

  /** The markers of a paragraph depend on its markup only. */
  lemma {:induction false} MarkupMarkerCount(p: seq<Sibling>, name: string, i: nat, k: nat)
    requires k <= |p|
    ensures |ParaMarkers(p, name, i, k)| == MarkerCount(Markup(p[..k]), name)
  {
    if k > 0 {
      MarkupMarkerCount(p, name, i, k - 1);
      assert p[..k] == p[..k - 1] + [p[k - 1]];
      MarkupAppend(p[..k - 1], [p[k - 1]]);
      assert [p[k - 1]][1..] == [];
      MarkerCountAppend(Markup(p[..k - 1]), Markup([p[k - 1]]), name);
    }
  }

  function MarkerCount(p: seq<Sibling>, name: string): nat {
    if p == [] then 0 else (if IsMarker(p[0], name) then 1 else 0) + MarkerCount(p[1..], name)
  }

  lemma {:induction false} MarkerCountAppend(a: seq<Sibling>, b: seq<Sibling>, name: string)
    ensures MarkerCount(a + b, name) == MarkerCount(a, name) + MarkerCount(b, name)
  {
    if a == [] {
      assert a + b == b;
    } else {
      assert (a + b)[1..] == a[1..] + b;
      MarkerCountAppend(a[1..], b, name);
    }
  }

  /** The removal keeps the number of markers. */
  lemma {:induction false} RemovedMarkers(doc: seq<seq<Sibling>>, name: string, n: nat)
    requires n <= |doc|
    ensures |MarkersUpTo(RangeRemoved(doc, name), name, n)| == |MarkersUpTo(doc, name, n)|
  {
    if n > 0 {
      RemovedMarkers(doc, name, n - 1);
      var p := doc[n - 1];
      var s := RangeRemoved(doc, name)[n - 1];
      assert s == Survivors(p, name, |p|);
      MarkupMarkerCount(p, name, n - 1, |p|);
      MarkupMarkerCount(s, name, n - 1, |s|);
      SurvivorsMarkup(p, name, |p|);
      assert p[..|p|] == p && s[..|s|] == s;
    }
  }

  /** The first marker in document order. */
  function FirstMarker(doc: seq<seq<Sibling>>, name: string): (q: Pos)
    requires Markers(doc, name) != []
    ensures q == Markers(doc, name)[0] && ValidPos(doc, q) && IsMarker(doc[q.para][q.index], name)
  {
    MarkersSpec(doc, name);
    var ms := Markers(doc, name);
    assert ms[0] in ms;
    ms[0]
  }

  /** The last marker in document order: the one `NodeSet#after` inserts
      after. */
  function LastMarker(doc: seq<seq<Sibling>>, name: string): (q: Pos)
    requires Markers(doc, name) != []
    ensures q == Markers(doc, name)[|Markers(doc, name)| - 1]
    ensures ValidPos(doc, q) && IsMarker(doc[q.para][q.index], name)
  {
    MarkersSpec(doc, name);
    var ms := Markers(doc, name);
    assert ms[|ms| - 1] in ms;
    ms[|ms| - 1]
  }

  /** A document with markers still has them once the range text is gone. */
  lemma RemovedKeepsMarkers(doc: seq<seq<Sibling>>, name: string)
    ensures |Markers(RangeRemoved(doc, name), name)| == |Markers(doc, name)|
  {
    RemovedMarkers(doc, name, |doc|);
  }

  /** The document after `replace!` with the given value: unchanged without
      markers; otherwise the kind of the first marker decides, a point getting
      the value after the last marker, a range also losing its text first. */
  function ReplaceSpec(doc: seq<seq<Sibling>>, name: string, value: string): seq<seq<Sibling>> {
    if Markers(doc, name) == [] then doc
    else
      var first := FirstMarker(doc, name);
      if doc[first.para][first.index].Point? then InsertAfter(doc, LastMarker(doc, name), value)
      else
        var removed := RangeRemoved(doc, name);
        RemovedKeepsMarkers(doc, name);
        InsertAfter(removed, LastMarker(removed, name), value)
  }

  // ---------------------------------------------------------------------------
  // The objects

  /** The paragraphs of a document, changed in place by `replace!`. */
  class Document {
    var paragraphs: seq<seq<Sibling>>

    constructor(paragraphs: seq<seq<Sibling>>)
      ensures this.paragraphs == paragraphs
    {
      this.paragraphs := paragraphs;
    }
  }

  /** `BookmarkReader`'s counterpart: a bookmark field with its name. */
  class Bookmark {
    const name: string

    constructor(name: string)
      ensures this.name == name
    {
      this.name := name;
    }

    /** `find_bookmark_nodes`: the named markers in document order. */
    method FindBookmarkNodes(doc: Document) returns (result: seq<Pos>)
      ensures result == Markers(doc.paragraphs, name)
    {
      var paras := doc.paragraphs;
      result := [];
      var i := 0;
      while i < |paras|
        invariant 0 <= i <= |paras|
        invariant result == MarkersUpTo(paras, name, i)
      {
        var p := paras[i];
        var j := 0;
        while j < |p|
          invariant 0 <= j <= |p|
          invariant result == MarkersUpTo(paras, name, i) + ParaMarkers(p, name, i, j)
        {
          if IsMarker(p[j], name) {
            result := result + [Pos(i, j)];
          }
          j := j + 1;
        }
        i := i + 1;
      }
    }

    /** The children of `p` that the range removal keeps. */
    static method RemoveRangeText(p: seq<Sibling>, name: string) returns (kept: seq<Sibling>)
      ensures kept == Survivors(p, name, |p|)
    {
      kept := [];
      var k := 0;
      while k < |p|
        invariant 0 <= k <= |p|
        invariant kept == Survivors(p, name, k)
      {
        if !(p[k].Chars? && Start(name) in p[..k] && End(name) in p[k + 1..]) {
          kept := kept + [p[k]];
        }
        k := k + 1;
      }
    }

    /** `bm.each { |b| b.remove }` over every paragraph. */
    static method RemoveRange(paras: seq<seq<Sibling>>, name: string) returns (r: seq<seq<Sibling>>)
      ensures r == RangeRemoved(paras, name)
    {
      r := paras;
      var i := 0;
      while i < |paras|
        invariant 0 <= i <= |paras| == |r|
        invariant forall k | 0 <= k < i :: r[k] == Survivors(paras[k], name, |paras[k]|)
        invariant forall k | i <= k < |paras| :: r[k] == paras[k]
      {
        var kept := RemoveRangeText(paras[i], name);
        r := r[i := kept];
        i := i + 1;
      }
    }

    /** `replace!`: the value is inserted after the last marker, a range
        losing its enclosed text first. */
    method Replace(doc: Document, value: string)
      modifies doc
      ensures doc.paragraphs == ReplaceSpec(old(doc.paragraphs), name, value)
    {
      var nodes := FindBookmarkNodes(doc);
      if nodes == [] {
        return;
      }
      var first := FirstMarker(doc.paragraphs, name);
      if doc.paragraphs[first.para][first.index].Point? {
        doc.paragraphs := InsertAfter(doc.paragraphs, LastMarker(doc.paragraphs, name), value);
      } else {
        ghost var before := doc.paragraphs;
        doc.paragraphs := RemoveRange(doc.paragraphs, name);
        RemovedKeepsMarkers(before, name);
        doc.paragraphs := InsertAfter(doc.paragraphs, LastMarker(doc.paragraphs, name), value);
      }
    }
  }
}
