/** Replacing a bookmark and reading it back gives the value: for a point
    bookmark ending its paragraph and for a single start/end pair. */
module BookmarkRoundTrip {
  import opened Html
  import opened Bookmarks
  import opened BookmarkReading
  import opened BookmarkProps

  lemma FirstTwoApart(s: seq<Pos>)
    requires forall a, b | 0 <= a < b < |s| :: Before(s[a], s[b])
    ensures |s| >= 2 ==> s[0] != s[1]
  {
    if |s| >= 2 {
      assert Before(s[0], s[1]);
    }
  }

  /** A document whose only marker of the name is at `q` has that marker
      alone. */
  lemma OnlyMarker(doc: seq<seq<Sibling>>, name: string, q: Pos)
    requires ValidPos(doc, q) && IsMarker(doc[q.para][q.index], name)
    requires forall i, j | 0 <= i < |doc| && 0 <= j < |doc[i]| && IsMarker(doc[i][j], name) :: Pos(i, j) == q
    ensures Markers(doc, name) == [q]
  {
    MarkersSpec(doc, name);
    var ms := Markers(doc, name);
    assert q in ms;
    FirstTwoApart(ms);
    assert forall a | 0 <= a < |ms| :: ms[a] in ms;
  }

  lemma NotInPrefix(s: seq<Sibling>, k: nat, x: Sibling)
    requires k <= |s| && x !in s
    ensures x !in s[..k]
  {
    forall i | 0 <= i < k
      ensures s[..k][i] != x
    {
      assert s[..k][i] == s[i];
    }
  }

  /** A query that selects exactly child `x` yields exactly its text. */
  lemma {:induction false} ParaTextsOne(q: Query, p: seq<Sibling>, name: string, k: nat, x: nat)
    requires k <= |p| && x < |p| && Selected(q, p, name, x)
    requires forall y | 0 <= y < |p| && y != x :: !Selected(q, p, name, y)
    ensures ParaTexts(q, p, name, k) == (if x < k then [p[x].text] else [])
  {
    if k > 0 {
      ParaTextsOne(q, p, name, k - 1, x);
    }
  }

  lemma SingleParagraph(q: Query, doc: seq<seq<Sibling>>, name: string)
    requires |doc| == 1
    ensures Texts(q, doc, name) == ParaTexts(q, doc[0], name, |doc[0]|)
  {
    assert TextsUpTo(q, doc, name, 1) == [] + ParaTexts(q, doc[0], name, |doc[0]|);
  }

  /** Reading a single-paragraph document where one query selects only the
      text `x` and the other query selects nothing. */
  lemma ReadOne(doc: seq<seq<Sibling>>, name: string, v: string, sel: Query, other: Query, x: nat)
    requires |doc| == 1 && x < |doc[0]| && doc[0][x] == Chars(v) && sel != other
    requires Selected(sel, doc[0], name, x)
    requires forall y | 0 <= y < |doc[0]| && y != x :: !Selected(sel, doc[0], name, y)
    requires forall y | 0 <= y < |doc[0]| :: !Selected(other, doc[0], name, y)
    ensures ReadSpec(doc, [name]) == [(name, v)]
  {
    ParaTextsOne(sel, doc[0], name, |doc[0]|, x);
    ParaTextsNonEmpty(other, doc[0], name, |doc[0]|);
    SingleParagraph(sel, doc, name);
    SingleParagraph(other, doc, name);
    assert Texts(sel, doc, name) == [v];
    assert Texts(other, doc, name) == [];
    assert [v][..0] == [];
    assert Join([v]) == Join([]) + v;
    assert Join([v]) == v;
    assert Pairs(doc, name) == [(name, v)] by {
      if sel.PointQuery? {
        assert other == RangeQuery;
      } else {
        assert other == PointQuery;
      }
    }
    ReadStep(doc, [], name);
    assert [] + [name] == [name];
  }

  /** The point case on a point bookmark followed only by markup: the value
      right after the bookmark. */
  lemma PointReplaced(pre: seq<Sibling>, post: seq<Sibling>, name: string, v: string)
    requires forall x | x in pre :: !IsMarker(x, name)
    requires forall x | x in post :: !IsMarker(x, name)
    ensures ReplaceSpec([pre + [Point(name)] + post], name, v) == [pre + [Point(name), Chars(v)] + post]
  {
    var p := pre + [Point(name)] + post;
    var doc := [p];
    var m := |pre|;
    forall j | 0 <= j < |p| && j != m
      ensures !IsMarker(p[j], name)
    {
      if j < m {
        assert p[j] == pre[j];
        assert pre[j] in pre;
      } else {
        assert p[j] == post[j - m - 1];
        assert post[j - m - 1] in post;
      }
    }
    OnlyMarker(doc, name, Pos(0, m));
    assert p[m] == Point(name);
    assert FirstMarker(doc, name) == Pos(0, m) == LastMarker(doc, name);
    assert p[..m + 1] == pre + [Point(name)] && p[m + 1..] == post;
    assert (pre + [Point(name)]) + [Chars(v)] + post == pre + [Point(name), Chars(v)] + post;
  }

  /** Reading the name back from the paragraph `PointReplaced` produces. */
  lemma PointReadBack(pre: seq<Sibling>, post: seq<Sibling>, name: string, v: string)
    requires forall x | x in pre :: !IsMarker(x, name)
    requires forall x | x in post :: !IsMarker(x, name) && !x.Chars?
    ensures ReadSpec([pre + [Point(name), Chars(v)] + post], [name]) == [(name, v)]
  {
    var r0 := pre + [Point(name), Chars(v)] + post;
    var m := |pre|;
    assert !IsMarker(Start(name), name) ==> Start(name) !in pre;
    assert Start(name) !in r0;
    forall y | 0 <= y < |r0|
      ensures !RangeText(r0, name, y)
    {
      NotInPrefix(r0, y, Start(name));
    }
    assert Point(name) in r0[..m + 1] by {
      assert r0[..m + 1][m] == Point(name);
    }
    assert Point(name) !in pre;
    forall y | 0 <= y < |r0| && y != m + 1
      ensures !PointText(r0, name, y)
    {
      if y < m {
        assert r0[..y] == pre[..y];
        NotInPrefix(pre, y, Point(name));
      } else if y > m + 1 {
        assert r0[y] == post[y - m - 2];
        assert post[y - m - 2] in post;
      }
    }
    ReadOne([r0], name, v, PointQuery, RangeQuery, m + 1);
  }

  /** Point case: a point bookmark followed only by markup gets the value,
      and reading the name afterwards gives exactly the value. */
  lemma PointRoundTrip(pre: seq<Sibling>, post: seq<Sibling>, name: string, v: string)
    requires forall x | x in pre :: !IsMarker(x, name)
    requires forall x | x in post :: !IsMarker(x, name) && !x.Chars?
    ensures ReadSpec(ReplaceSpec([pre + [Point(name)] + post], name, v), [name]) == [(name, v)]
  {
    PointReplaced(pre, post, name, v);
    PointReadBack(pre, post, name, v);
  }

  /** The range removal on a single pair keeps the start first, and keeps
      the markup. */
  lemma PairRemoved(mid: seq<Sibling>, name: string)
    ensures var p := [Start(name)] + mid + [End(name)];
      var s := Survivors(p, name, |p|);
      |s| >= 1 && s[0] == Start(name) && Markup(s) == Markup(p)
  {
    var p := [Start(name)] + mid + [End(name)];
    var s := Survivors(p, name, |p|);
    SurvivorsPrefix(p, name, 1, |p|);
    assert Survivors(p, name, 1) == [Start(name)];
    assert s[0] == Start(name) by {
      assert s[..1][0] == s[0];
    }
    SurvivorsMarkup(p, name, |p|);
    assert p[..|p|] == p;
  }

  /** The range case on a single pair: the text between is removed and the
      value follows the start. */
  lemma PairReplaced(mid: seq<Sibling>, name: string, v: string)
    requires forall x | x in mid :: !IsMarker(x, name)
    ensures var p := [Start(name)] + mid + [End(name)];
      |Survivors(p, name, |p|)| >= 1
    ensures var p := [Start(name)] + mid + [End(name)];
      var s := Survivors(p, name, |p|);
      ReplaceSpec([p], name, v) == [s[..1] + [Chars(v)] + s[1..]]
  {
    var p := [Start(name)] + mid + [End(name)];
    var doc := [p];
    forall j | 0 < j < |p|
      ensures !IsMarker(p[j], name)
    {
      if j < |p| - 1 {
        assert p[j] == mid[j - 1];
        assert mid[j - 1] in mid;
      }
    }
    OnlyMarker(doc, name, Pos(0, 0));
    assert FirstMarker(doc, name) == Pos(0, 0);
    var removed := RangeRemoved(doc, name);
    PairRemoved(mid, name);
    assert removed[0] == Survivors(p, name, |p|);
    RemovedKeepsMarkers(doc, name);
    MarkersSpec(removed, name);
    assert ValidPos(removed, Pos(0, 0)) && IsMarker(removed[0][0], name);
    var ms := Markers(removed, name);
    assert Pos(0, 0) in ms && |ms| == 1;
    assert LastMarker(removed, name) == Pos(0, 0);
  }

  /** After the value is put behind a leading start marker of a paragraph
      without range text, the value is its only range text. */
  lemma ValueOnlyRange(s: seq<Sibling>, name: string, v: string)
    requires |s| >= 1 && s[0] == Start(name) && End(name) in s[1..]
    requires forall y | 0 <= y < |s| :: !RangeText(s, name, y)
    ensures var r0 := s[..1] + [Chars(v)] + s[1..];
      RangeText(r0, name, 1) && forall y | 0 <= y < |r0| && y != 1 :: !RangeText(r0, name, y)
  {
    var r0 := s[..1] + [Chars(v)] + s[1..];
    forall y | 0 <= y < |r0| && y != 1
      ensures !RangeText(r0, name, y)
    {
      InsertSettledAt(s, 0, v, name, y);
    }
    assert r0[2..] == s[1..];
    assert r0[..1] == [Start(name)];
  }

  /** A paragraph without a point marker of the name has no point text. */
  lemma NoPointText(r0: seq<Sibling>, name: string)
    requires Point(name) !in r0
    ensures forall y | 0 <= y < |r0| :: !PointText(r0, name, y)
  {
    forall y | 0 <= y < |r0|
      ensures !PointText(r0, name, y)
    {
      NotInPrefix(r0, y, Point(name));
    }
  }

  /** Reading the name back from the paragraph `PairReplaced` produces. */
  lemma PairReadBack(mid: seq<Sibling>, name: string, v: string)
    requires forall x | x in mid :: !IsMarker(x, name) && x != End(name)
    ensures var p := [Start(name)] + mid + [End(name)];
      |Survivors(p, name, |p|)| >= 1
    ensures var p := [Start(name)] + mid + [End(name)];
      var s := Survivors(p, name, |p|);
      ReadSpec([s[..1] + [Chars(v)] + s[1..]], [name]) == [(name, v)]
  {
    var p := [Start(name)] + mid + [End(name)];
    var s := Survivors(p, name, |p|);
    PairRemoved(mid, name);
    var r0 := s[..1] + [Chars(v)] + s[1..];
    RemovedSettled([p], name);
    assert RangeRemoved([p], name)[0] == s;
    InMarkup(p, End(name));
    InMarkup(s, End(name));
    assert s == [s[0]] + s[1..];
    ValueOnlyRange(s, name, v);
    assert Point(name) !in p;
    InMarkup(p, Point(name));
    InMarkup(s, Point(name));
    InsertMarkup(s, 0, v);
    InMarkup(r0, Point(name));
    NoPointText(r0, name);
    ReadOne([r0], name, v, RangeQuery, PointQuery, 1);
  }

  /** Range case: a single start/end pair around any text and markup of other
      names holds only the value afterwards, and reading the name gives
      exactly the value. */
  lemma RangeRoundTrip(mid: seq<Sibling>, name: string, v: string)
    requires forall x | x in mid :: !IsMarker(x, name) && x != End(name)
    ensures ReadSpec(ReplaceSpec([[Start(name)] + mid + [End(name)]], name, v), [name]) == [(name, v)]
  {
    PairReplaced(mid, name, v);
    PairReadBack(mid, name, v);
  }
}
