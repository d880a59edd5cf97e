/** Properties of bookmark replacement and extraction, and the round trip
    between them. */
module BookmarkProps {
  import opened Html
  import opened Bookmarks
  import opened BookmarkReading

  // ---------------------------------------------------------------------------
  // Extraction

  lemma {:induction false} ParaTextsNonEmpty(q: Query, p: seq<Sibling>, name: string, k: nat)
    requires k <= |p|
    ensures ParaTexts(q, p, name, k) != [] <==> exists j | 0 <= j < k :: Selected(q, p, name, j)
  {
    if k > 0 {
      ParaTextsNonEmpty(q, p, name, k - 1);
    }
  }

  lemma {:induction false} TextsUpToNonEmpty(q: Query, doc: seq<seq<Sibling>>, name: string, m: nat)
    requires m <= |doc|
    ensures TextsUpTo(q, doc, name, m) != [] <==>
      exists i, j | 0 <= i < m && 0 <= j < |doc[i]| :: Selected(q, doc[i], name, j)
  {
    if m > 0 {
      TextsUpToNonEmpty(q, doc, name, m - 1);
      ParaTextsNonEmpty(q, doc[m - 1], name, |doc[m - 1]|);
    }
  }

  /** A query yields text exactly when some child of some paragraph is
      selected by it. */
  lemma TextsNonEmpty(q: Query, doc: seq<seq<Sibling>>, name: string)
    ensures Texts(q, doc, name) != [] <==>
      exists i, j | 0 <= i < |doc| && 0 <= j < |doc[i]| :: Selected(q, doc[i], name, j)
  {
    TextsUpToNonEmpty(q, doc, name, |doc|);
  }

  /** Each name yields at most two pairs, all carrying the name: the point
      pair when some text follows a point bookmark of the name, then the range
      pair when some text lies between a start and an end of the name. */
  lemma PairsShape(doc: seq<seq<Sibling>>, name: string)
    ensures |Pairs(doc, name)| ==
      (if Texts(PointQuery, doc, name) != [] then 1 else 0) + (if Texts(RangeQuery, doc, name) != [] then 1 else 0)
    ensures forall x | x in Pairs(doc, name) :: x.0 == name
    ensures Texts(PointQuery, doc, name) != [] ==>
      Pairs(doc, name)[0] == (name, Join(Texts(PointQuery, doc, name)))
    ensures Texts(RangeQuery, doc, name) != [] ==>
      Pairs(doc, name)[|Pairs(doc, name)| - 1] == (name, Join(Texts(RangeQuery, doc, name)))
  {
  }

  /** The names are processed in order: reading two lists of names is
      reading one after the other, so a repeated name repeats its pairs. */
  lemma {:induction false} ReadAppend(doc: seq<seq<Sibling>>, a: seq<string>, b: seq<string>)
    ensures ReadSpec(doc, a + b) == ReadSpec(doc, a) + ReadSpec(doc, b)
    decreases |b|
  {
    if b == [] {
      assert a + b == a;
    } else {
      var c := b[..|b| - 1];
      var n := b[|b| - 1];
      SplitLast(a, b);
      ReadStep(doc, a + c, n);
      ReadStep(doc, c, n);
      ReadAppend(doc, a, c);
    }
  }

  lemma SplitLast(a: seq<string>, b: seq<string>)
    requires b != []
    ensures b == b[..|b| - 1] + [b[|b| - 1]]
    ensures a + b == (a + b[..|b| - 1]) + [b[|b| - 1]]
  {
    assert b == b[..|b| - 1] + [b[|b| - 1]];
  }

  /** A reader with a name reads only that name's pairs. */
  lemma NamedRead(doc: seq<seq<Sibling>>, name: string)
    ensures ReadSpec(doc, Names(Some(name), doc)) == Pairs(doc, name)
    ensures forall x | x in ReadSpec(doc, Names(Some(name), doc)) :: x.0 == name
  {
    ReadStep(doc, [], name);
    assert [] + [name] == [name];
    PairsShape(doc, name);
  }

  lemma {:induction false} ParaNamesSpec(p: seq<Sibling>, k: nat, n: string)
    requires k <= |p|
    ensures n in ParaNames(p, k) <==> exists j | 0 <= j < k :: IsMarker(p[j], n)
  {
    if k > 0 {
      ParaNamesSpec(p, k - 1, n);
    }
  }

  lemma {:induction false} NamesUpToSpec(doc: seq<seq<Sibling>>, m: nat, n: string)
    requires m <= |doc|
    ensures n in NamesUpTo(doc, m) <==>
      exists i, j | 0 <= i < m && 0 <= j < |doc[i]| :: IsMarker(doc[i][j], n)
  {
    if m > 0 {
      NamesUpToSpec(doc, m - 1, n);
      ParaNamesSpec(doc[m - 1], |doc[m - 1]|, n);
    }
  }

  /** Without a name, the reader queries exactly the names that a bookmark
      replacement would find markers for. */
  lemma AllNamesSpec(doc: seq<seq<Sibling>>, n: string)
    ensures n in AllNames(doc) <==> Markers(doc, n) != []
  {
    NamesUpToSpec(doc, |doc|, n);
    MarkersSpec(doc, n);
    if n in AllNames(doc) {
      var i, j :| 0 <= i < |doc| && 0 <= j < |doc[i]| && IsMarker(doc[i][j], n);
      assert ValidPos(doc, Pos(i, j));
    }
    if Markers(doc, n) != [] {
      var q := Markers(doc, n)[0];
      assert q in Markers(doc, n);
      assert IsMarker(doc[q.para][q.index], n);
    }
  }

  // ---------------------------------------------------------------------------
  // Replacement keeps markup

  /** Markers and elements are never removed: only text differs. */
  lemma {:induction false} InMarkup(s: seq<Sibling>, x: Sibling)
    requires !x.Chars?
    ensures x in s <==> x in Markup(s)
  {
    if s != [] {
      assert s == [s[0]] + s[1..];
      InMarkup(s[1..], x);
    }
  }

  lemma MarkupText(v: string)
    ensures Markup([Chars(v)]) == []
  {
    assert [Chars(v)][1..] == [];
  }

  lemma MarkupSplice(a: seq<Sibling>, v: string, b: seq<Sibling>)
    ensures Markup(a + [Chars(v)] + b) == Markup(a + b)
  {
    MarkupAppend(a + [Chars(v)], b);
    MarkupAppend(a, [Chars(v)]);
    MarkupText(v);
    MarkupAppend(a, b);
  }

  /** Inserting a text after a position keeps the markup of the paragraph. */
  lemma InsertMarkup(p: seq<Sibling>, j: nat, v: string)
    requires j < |p|
    ensures Markup(p[..j + 1] + [Chars(v)] + p[j + 1..]) == Markup(p)
  {
    SplitAfter(p, j);
    MarkupInsertAt(p[..j + 1], p[j + 1..], p, v);
  }

  lemma SplitAfter(p: seq<Sibling>, j: nat)
    requires j < |p|
    ensures p[..j + 1] + p[j + 1..] == p
  {
  }

  lemma MarkupInsertAt(a: seq<Sibling>, b: seq<Sibling>, p: seq<Sibling>, v: string)
    requires a + b == p
    ensures Markup(a + [Chars(v)] + b) == Markup(p)
  {
    MarkupSplice(a, v, b);
  }

  lemma SurvivorsKeepMarkup(doc: seq<seq<Sibling>>, name: string)
    ensures forall i | 0 <= i < |doc| :: Markup(RangeRemoved(doc, name)[i]) == Markup(doc[i])
  {
    forall i | 0 <= i < |doc|
      ensures Markup(RangeRemoved(doc, name)[i]) == Markup(doc[i])
    {
      SurvivorsMarkup(doc[i], name, |doc[i]|);
      assert doc[i][..|doc[i]|] == doc[i];
    }
  }

  /** Whatever the case, `replace!` keeps every paragraph's markers and
      elements, in order. */
  lemma ReplaceKeepsMarkup(doc: seq<seq<Sibling>>, name: string, value: string)
    ensures |ReplaceSpec(doc, name, value)| == |doc|
    ensures forall i | 0 <= i < |doc| :: Markup(ReplaceSpec(doc, name, value)[i]) == Markup(doc[i])
  {
    if Markers(doc, name) != [] {
      var first := FirstMarker(doc, name);
      if doc[first.para][first.index].Point? {
        InsertAfterMarkup(doc, LastMarker(doc, name), value);
      } else {
        var removed := RangeRemoved(doc, name);
        RemovedKeepsMarkers(doc, name);
        InsertAfterMarkup(removed, LastMarker(removed, name), value);
        SurvivorsKeepMarkup(doc, name);
      }
    }
  }

  /** Inserting a text keeps every paragraph's markup. */
  lemma InsertAfterMarkup(doc: seq<seq<Sibling>>, q: Pos, v: string)
    requires ValidPos(doc, q)
    ensures |InsertAfter(doc, q, v)| == |doc|
    ensures forall i | 0 <= i < |doc| :: Markup(InsertAfter(doc, q, v)[i]) == Markup(doc[i])
  {
    InsertMarkup(doc[q.para], q.index, v);
  }

  /** The point case adds one text right after the last marker and moves
      nothing else. */
  lemma PointCase(doc: seq<seq<Sibling>>, name: string, value: string)
    requires Markers(doc, name) != []
    requires doc[FirstMarker(doc, name).para][FirstMarker(doc, name).index].Point?
    ensures var q := LastMarker(doc, name);
      var r := ReplaceSpec(doc, name, value);
      |r| == |doc| &&
      (forall i | 0 <= i < |doc| && i != q.para :: r[i] == doc[i]) &&
      |r[q.para]| == |doc[q.para]| + 1 &&
      r[q.para][..q.index + 1] == doc[q.para][..q.index + 1] &&
      r[q.para][q.index + 1] == Chars(value) &&
      r[q.para][q.index + 2..] == doc[q.para][q.index + 1..]
  {
    var q := LastMarker(doc, name);
    var p := doc[q.para];
    var np := p[..q.index + 1] + [Chars(value)] + p[q.index + 1..];
    assert np[..q.index + 1] == p[..q.index + 1];
    assert np[q.index + 2..] == p[q.index + 1..];
  }

  // ---------------------------------------------------------------------------
  // The range case leaves no range text but the value

  lemma {:induction false} SurvivorsPrefix(p: seq<Sibling>, name: string, k: nat, m: nat)
    requires k <= m <= |p|
    ensures |Survivors(p, name, k)| <= |Survivors(p, name, m)|
    ensures Survivors(p, name, m)[..|Survivors(p, name, k)|] == Survivors(p, name, k)
    decreases m
  {
    var sk := Survivors(p, name, k);
    if k < m {
      SurvivorsPrefix(p, name, k, m - 1);
      var s := Survivors(p, name, m - 1);
      var last := if RangeText(p, name, m - 1) then [] else [p[m - 1]];
      assert Survivors(p, name, m) == s + last;
      assert (s + last)[..|sk|] == s[..|sk|];
    } else {
      assert sk[..|sk|] == sk;
    }
  }

  /** Each survivor comes from a child the removal kept. */
  lemma {:induction false} SurvivorOrigin(p: seq<Sibling>, name: string, m: nat, j: nat) returns (k: nat)
    requires m <= |p| && j < |Survivors(p, name, m)|
    ensures k < m && !RangeText(p, name, k) && |Survivors(p, name, k)| == j
    ensures Survivors(p, name, k + 1) == Survivors(p, name, k) + [p[k]]
  {
    var s := Survivors(p, name, m - 1);
    if j < |s| {
      k := SurvivorOrigin(p, name, m - 1, j);
    } else {
      k := m - 1;
    }
  }

  lemma Cancel(a: seq<Sibling>, b: seq<Sibling>, c: seq<Sibling>)
    requires a + b == a + c
    ensures b == c
  {
    assert b == (a + b)[|a|..];
    assert c == (a + c)[|a|..];
  }

  /** Whether a text is range text depends only on the markup before and
      after it. */
  lemma RangeTextByMarkup(s: seq<Sibling>, x: nat, t: seq<Sibling>, y: nat, name: string)
    requires x < |s| && y < |t| && s[x] == t[y]
    requires Markup(s[..x]) == Markup(t[..y]) && Markup(s[x + 1..]) == Markup(t[y + 1..])
    ensures RangeText(s, name, x) == RangeText(t, name, y)
  {
    InMarkup(s[..x], Start(name));
    InMarkup(t[..y], Start(name));
    InMarkup(s[x + 1..], End(name));
    InMarkup(t[y + 1..], End(name));
  }

  /** The markup after child `x` is the markup of the whole minus the
      markup up to it. */
  lemma MarkupAround(s: seq<Sibling>, x: nat)
    requires x < |s| && s[x].Chars?
    ensures Markup(s) == Markup(s[..x]) + Markup(s[x + 1..])
  {
    MarkupSplice(s[..x], s[x].text, s[x + 1..]);
    assert s[..x] + [Chars(s[x].text)] + s[x + 1..] == s;
    MarkupAppend(s[..x], s[x + 1..]);
  }

  lemma SurvivorSettled(p: seq<Sibling>, name: string, j: nat)
    requires j < |Survivors(p, name, |p|)|
    ensures !RangeText(Survivors(p, name, |p|), name, j)
  {
    var s := Survivors(p, name, |p|);
    var k := SurvivorOrigin(p, name, |p|, j);
    var a := Survivors(p, name, k);
    SurvivorsPrefix(p, name, k, |p|);
    SurvivorsPrefix(p, name, k + 1, |p|);
    assert s[..j] == a;
    assert s[..j + 1] == a + [p[k]];
    assert s[j] == p[k] by {
      assert s[j] == s[..j + 1][j];
    }
    if s[j].Chars? {
      SurvivorsMarkup(p, name, k);
      SurvivorsMarkup(p, name, |p|);
      assert p[..|p|] == p;
      MarkupAround(s, j);
      MarkupAround(p, k);
      Cancel(Markup(a), Markup(s[j + 1..]), Markup(p[k + 1..]));
      RangeTextByMarkup(s, j, p, k, name);
    }
  }

  /** After the removal no paragraph has any range text of the name left. */
  lemma RemovedSettled(doc: seq<seq<Sibling>>, name: string)
    ensures forall i, j | 0 <= i < |doc| && 0 <= j < |RangeRemoved(doc, name)[i]| ::
      !RangeText(RangeRemoved(doc, name)[i], name, j)
  {
    forall i, j | 0 <= i < |doc| && 0 <= j < |RangeRemoved(doc, name)[i]|
      ensures !RangeText(RangeRemoved(doc, name)[i], name, j)
    {
      SurvivorSettled(doc[i], name, j);
    }
  }

  /** Inserting a text makes no other child range text. */
  lemma InsertSettledAt(s: seq<Sibling>, j: nat, v: string, name: string, x: nat)
    requires j < |s| && x < |s| + 1 && x != j + 1
    requires forall y | 0 <= y < |s| :: !RangeText(s, name, y)
    ensures !RangeText(s[..j + 1] + [Chars(v)] + s[j + 1..], name, x)
  {
    var r := s[..j + 1] + [Chars(v)] + s[j + 1..];
    if x <= j {
      assert r[..x] == s[..x];
      assert r[x] == s[x];
      assert r[x + 1..] == s[x + 1..j + 1] + [Chars(v)] + s[j + 1..];
      MarkupSplice(s[x + 1..j + 1], v, s[j + 1..]);
      assert s[x + 1..j + 1] + s[j + 1..] == s[x + 1..];
      RangeTextByMarkup(r, x, s, x, name);
    } else {
      assert r[..x] == s[..j + 1] + [Chars(v)] + s[j + 1..x - 1];
      assert r[x] == s[x - 1];
      assert r[x + 1..] == s[x..];
      MarkupSplice(s[..j + 1], v, s[j + 1..x - 1]);
      assert s[..j + 1] + s[j + 1..x - 1] == s[..x - 1];
      RangeTextByMarkup(r, x, s, x - 1, name);
    }
  }

  /** Inserting a text into a document without range text leaves the new
      text as its only possible range text. */
  lemma InsertSettled(doc: seq<seq<Sibling>>, q: Pos, value: string, name: string)
    requires ValidPos(doc, q)
    requires forall i, j | 0 <= i < |doc| && 0 <= j < |doc[i]| :: !RangeText(doc[i], name, j)
    ensures var r := InsertAfter(doc, q, value);
      forall i, x | 0 <= i < |r| && 0 <= x < |r[i]| && RangeText(r[i], name, x) :: r[i][x] == Chars(value)
  {
    var r := InsertAfter(doc, q, value);
    forall i, x | 0 <= i < |r| && 0 <= x < |r[i]| && RangeText(r[i], name, x)
      ensures r[i][x] == Chars(value)
    {
      if i == q.para && x != q.index + 1 {
        InsertSettledAt(doc[i], q.index, value, name, x);
      }
    }
  }

  // ---------------------------------------------------------------------------
  // What the removal keeps, and where the last marker goes

  /** A child that is not range text survives, at the place the survivors
      before it leave for it. */
  lemma SurvivorAt(p: seq<Sibling>, name: string, k: nat)
    requires k < |p| && !RangeText(p, name, k)
    ensures |Survivors(p, name, k)| < |Survivors(p, name, |p|)|
    ensures Survivors(p, name, |p|)[|Survivors(p, name, k)|] == p[k]
  {
    var a := Survivors(p, name, k);
    var b := a + [p[k]];
    var all := Survivors(p, name, |p|);
    assert Survivors(p, name, k + 1) == b;
    SurvivorsPrefix(p, name, k + 1, |p|);
    assert all[..|b|] == b;
    assert b[|a|] == p[k];
    assert all[|a|] == all[..|b|][|a|];
  }

  /** Kept children keep their order: a kept child has fewer survivors
      before it than any later child. */
  lemma SurvivorsGrow(p: seq<Sibling>, name: string, k: nat, m: nat)
    requires k < m <= |p| && !RangeText(p, name, k)
    ensures |Survivors(p, name, k)| < |Survivors(p, name, m)|
  {
    SurvivorsStep(p, name, k);
    SurvivorsLonger(p, name, k + 1, m);
  }

  lemma SurvivorsStep(p: seq<Sibling>, name: string, k: nat)
    requires k < |p| && !RangeText(p, name, k)
    ensures |Survivors(p, name, k + 1)| == |Survivors(p, name, k)| + 1
  {
  }

  lemma {:induction false} SurvivorsLonger(p: seq<Sibling>, name: string, k: nat, m: nat)
    requires k <= m <= |p|
    ensures |Survivors(p, name, k)| <= |Survivors(p, name, m)|
    decreases m
  {
    if k < m {
      SurvivorsLonger(p, name, k, m - 1);
    }
  }

  /** Every survivor is a child that is not range text. */
  lemma SurvivorFrom(p: seq<Sibling>, name: string, j: nat) returns (k: nat)
    requires j < |Survivors(p, name, |p|)|
    ensures k < |p| && !RangeText(p, name, k) && |Survivors(p, name, k)| == j
    ensures Survivors(p, name, |p|)[j] == p[k]
  {
    k := SurvivorOrigin(p, name, |p|, j);
    SurvivorAt(p, name, k);
  }

  /** The removal keeps every child that is not range text, at the place
      `Moved` gives (see `SurvivorsGrow` for their order and `RemovedFrom`
      for the converse). */
  lemma RemovedKeeps(doc: seq<seq<Sibling>>, name: string)
    ensures forall i, k | 0 <= i < |doc| && 0 <= k < |doc[i]| && !RangeText(doc[i], name, k) ::
      KeptAs(doc, name, i, k, |Survivors(doc[i], name, k)|)
  {
    forall i, k | 0 <= i < |doc| && 0 <= k < |doc[i]| && !RangeText(doc[i], name, k)
      ensures KeptAs(doc, name, i, k, |Survivors(doc[i], name, k)|)
    {
      assert RangeRemoved(doc, name)[i] == Survivors(doc[i], name, |doc[i]|);
      SurvivorAt(doc[i], name, k);
    }
  }

  /** Every child after the removal is a child that was not range text. */
  lemma RemovedFrom(doc: seq<seq<Sibling>>, name: string, i: nat, j: nat)
    requires i < |doc| && j < |RangeRemoved(doc, name)[i]|
    ensures exists k | 0 <= k < |doc[i]| :: KeptAs(doc, name, i, k, j)
  {
    assert RangeRemoved(doc, name)[i] == Survivors(doc[i], name, |doc[i]|);
    var k := SurvivorFrom(doc[i], name, j);
    assert KeptAs(doc, name, i, k, j);
  }

  /** Child `k` of paragraph `i` is kept by the removal as child `j`. */
  predicate KeptAs(doc: seq<seq<Sibling>>, name: string, i: nat, k: nat, j: nat)
    requires i < |doc| && k < |doc[i]|
  {
    !RangeText(doc[i], name, k) && |Survivors(doc[i], name, k)| == j
    && j < |RangeRemoved(doc, name)[i]| && RangeRemoved(doc, name)[i][j] == doc[i][k]
  }

  /** Every marker is the last one or comes before it. */
  lemma LastIsMax(doc: seq<seq<Sibling>>, name: string, y: Pos)
    requires Markers(doc, name) != []
    requires ValidPos(doc, y) && IsMarker(doc[y.para][y.index], name)
    ensures y == LastMarker(doc, name) || Before(y, LastMarker(doc, name))
  {
    MarkersSpec(doc, name);
    var ms := Markers(doc, name);
    var a :| 0 <= a < |ms| && ms[a] == y;
  }

  /** A marker every marker comes before (or is) is the last marker. */
  lemma LastUnique(doc: seq<seq<Sibling>>, name: string, x: Pos)
    requires Markers(doc, name) != []
    requires ValidPos(doc, x) && IsMarker(doc[x.para][x.index], name)
    requires forall y | ValidPos(doc, y) && IsMarker(doc[y.para][y.index], name) :: y == x || Before(y, x)
    ensures x == LastMarker(doc, name)
  {
    var q := LastMarker(doc, name);
    LastIsMax(doc, name, x);
    assert q == x || Before(q, x);
  }

  /** Where a kept child of the document sits after the removal. */
  function Moved(doc: seq<seq<Sibling>>, name: string, y: Pos): Pos
    requires ValidPos(doc, y)
  {
    Pos(y.para, |Survivors(doc[y.para], name, y.index)|)
  }

  /** The last marker after the removal is the original last marker at the
      place the removal moves it to. */
  lemma RemovedLastMarker(doc: seq<seq<Sibling>>, name: string)
    requires Markers(doc, name) != []
    ensures Markers(RangeRemoved(doc, name), name) != []
    ensures var q := LastMarker(doc, name);
      ValidPos(RangeRemoved(doc, name), Moved(doc, name, q))
      && RangeRemoved(doc, name)[q.para][Moved(doc, name, q).index] == doc[q.para][q.index]
      && LastMarker(RangeRemoved(doc, name), name) == Moved(doc, name, q)
  {
    var removed := RangeRemoved(doc, name);
    RemovedKeepsMarkers(doc, name);
    var q := LastMarker(doc, name);
    var x := Moved(doc, name, q);
    SurvivorAt(doc[q.para], name, q.index);
    forall y | ValidPos(removed, y) && IsMarker(removed[y.para][y.index], name)
      ensures y == x || Before(y, x)
    {
      var k := SurvivorFrom(doc[y.para], name, y.index);
      var z := Pos(y.para, k);
      LastIsMax(doc, name, z);
      if z != q && z.para == q.para {
        SurvivorsGrow(doc[q.para], name, k, q.index);
      }
    }
    LastUnique(removed, name, x);
  }

  /** In the range case the value is the only text between a start and an
      end of the name that any paragraph has afterwards, and it sits right
      after the original last marker in the document without range text;
      all else is that document. */
  lemma RangeCase(doc: seq<seq<Sibling>>, name: string, value: string)
    requires Markers(doc, name) != []
    requires !doc[FirstMarker(doc, name).para][FirstMarker(doc, name).index].Point?
    ensures var r := ReplaceSpec(doc, name, value);
      forall i, x | 0 <= i < |r| && 0 <= x < |r[i]| && RangeText(r[i], name, x) :: r[i][x] == Chars(value)
    ensures RangeInserted(doc, name, value)
  {
    var removed := RangeRemoved(doc, name);
    RemovedKeepsMarkers(doc, name);
    RemovedSettled(doc, name);
    InsertSettled(removed, LastMarker(removed, name), value, name);
    RangeInsert(doc, name, value);
  }

  /** The range replacement inserts the value right after the original last
      marker, at its place among the survivors, and changes nothing else of
      the document without range text. */
  predicate RangeInserted(doc: seq<seq<Sibling>>, name: string, value: string)
    requires Markers(doc, name) != []
  {
    var q := LastMarker(doc, name);
    var removed := RangeRemoved(doc, name);
    var j := Moved(doc, name, q).index;
    var r := ReplaceSpec(doc, name, value);
    j < |removed[q.para]| && removed[q.para][j] == doc[q.para][q.index] &&
    |r| == |doc| &&
    (forall i | 0 <= i < |doc| && i != q.para :: r[i] == removed[i]) &&
    |r[q.para]| == |removed[q.para]| + 1 &&
    r[q.para][..j + 1] == removed[q.para][..j + 1] &&
    r[q.para][j + 1] == Chars(value) &&
    r[q.para][j + 2..] == removed[q.para][j + 1..]
  }

  lemma RangeInsert(doc: seq<seq<Sibling>>, name: string, value: string)
    requires Markers(doc, name) != []
    requires !doc[FirstMarker(doc, name).para][FirstMarker(doc, name).index].Point?
    ensures RangeInserted(doc, name, value)
  {
    var removed := RangeRemoved(doc, name);
    RemovedKeepsMarkers(doc, name);
    RemovedLastMarker(doc, name);
    var q := LastMarker(doc, name);
    var j := Moved(doc, name, q).index;
    var p := removed[q.para];
    var np := p[..j + 1] + [Chars(value)] + p[j + 1..];
    assert np[..j + 1] == p[..j + 1];
    assert np[j + 2..] == p[j + 1..];
  }

  /** Where a kept child of the document sits after a range replacement:
      its place among the survivors, one further on when it comes after
      the inserted value. */
  function Placed(doc: seq<seq<Sibling>>, name: string, i: nat, k: nat): nat
    requires Markers(doc, name) != []
    requires i < |doc| && k <= |doc[i]|
  {
    var j := |Survivors(doc[i], name, k)|;
    var q := LastMarker(doc, name);
    if i == q.para && j > Moved(doc, name, q).index then j + 1 else j
  }

  /** A range replacement keeps every child that is not range text. */
  lemma RangeKeepsChild(doc: seq<seq<Sibling>>, name: string, value: string, i: nat, k: nat)
    requires Markers(doc, name) != []
    requires !doc[FirstMarker(doc, name).para][FirstMarker(doc, name).index].Point?
    requires i < |doc| && k < |doc[i]| && !RangeText(doc[i], name, k)
    ensures var r := ReplaceSpec(doc, name, value);
      i < |r| && Placed(doc, name, i, k) < |r[i]| && r[i][Placed(doc, name, i, k)] == doc[i][k]
  {
    RangeInsert(doc, name, value);
    var r := ReplaceSpec(doc, name, value);
    var removed := RangeRemoved(doc, name);
    assert removed[i] == Survivors(doc[i], name, |doc[i]|);
    SurvivorAt(doc[i], name, k);
    var j := |Survivors(doc[i], name, k)|;
    var q := LastMarker(doc, name);
    var at := Placed(doc, name, i, k);
    assert j < |removed[i]| && removed[i][j] == doc[i][k];
    if i != q.para {
      assert at == j && r[i] == removed[i];
    } else {
      var mj := Moved(doc, name, q).index;
      InsertedAt(removed[i], r[i], mj, j);
      assert at == if j > mj then j + 1 else j;
    }
  }

  /** A child of a paragraph after one insertion at mj + 1. */
  lemma InsertedAt(p: seq<Sibling>, rp: seq<Sibling>, mj: nat, j: nat)
    requires mj < |p| && j < |p| && |rp| == |p| + 1
    requires rp[..mj + 1] == p[..mj + 1] && rp[mj + 2..] == p[mj + 1..]
    ensures j > mj ==> rp[j + 1] == p[j]
    ensures j <= mj ==> rp[j] == p[j]
  {
    if j <= mj {
      assert rp[..mj + 1][j] == p[..mj + 1][j];
    } else {
      assert rp[mj + 2..][j - mj - 1] == p[mj + 1..][j - mj - 1];
    }
  }

  /** ... and keeps those children in their order. */
  lemma RangeKeepsOrder(doc: seq<seq<Sibling>>, name: string, i: nat, k: nat, m: nat)
    requires Markers(doc, name) != []
    requires i < |doc| && k < m < |doc[i]|
    requires !RangeText(doc[i], name, k)
    ensures Placed(doc, name, i, k) < Placed(doc, name, i, m)
  {
    SurvivorsGrow(doc[i], name, k, m);
  }
}
