/** The class-name strippers of the HTML parser (lib/odf-report/parser/default.rb,
    `remove_prefixes` and `remove_suffixes`): a `class` attribute is split on
    white space, each class loses a configured prefix or suffix, and the classes
    are joined again with single spaces. */
module ClassNames {
  import opened Html

  /** No character of `s` is a regular-expression space. */
  predicate NoSpace(s: string) {
    forall i :: 0 <= i < |s| ==> !IsRegexSpace(s[i])
  }

  /** The longest prefix of `s` without a space. */
  function TakeWord(s: string): (w: string)
    ensures |w| <= |s| && w == s[..|w|] && NoSpace(w)
    ensures |w| < |s| ==> IsRegexSpace(s[|w|])
  {
    if s == [] || IsRegexSpace(s[0]) then [] else [s[0]] + TakeWord(s[1..])
  }

  /** `s` without its leading run of spaces. */
  function DropSpaces(s: string): (r: string)
    ensures |r| <= |s|
    ensures r != [] ==> !IsRegexSpace(r[0])
    ensures s != [] && IsRegexSpace(s[0]) ==> |r| < |s|
  {
    if s != [] && IsRegexSpace(s[0]) then DropSpaces(s[1..]) else s
  }

  /** The fields between runs of spaces, trailing empty fields included. */
  function RawFields(s: string): (fs: seq<string>)
    ensures |fs| >= 1
    decreases |s|
  {
    var w := TakeWord(s);
    if |w| == |s| then [w] else [w] + RawFields(DropSpaces(s[|w|..]))
  }

  /** `fs` without its trailing empty strings. */
  function DropTrailingEmpty(fs: seq<string>): (r: seq<string>)
    ensures |r| <= |fs| && r == fs[..|r|]
    ensures r != [] ==> r[|r| - 1] != []
    ensures forall i :: |r| <= i < |fs| ==> fs[i] == []
  {
    if fs == [] || fs[|fs| - 1] != [] then fs else DropTrailingEmpty(fs[..|fs| - 1])
  }

  /** What Ruby's `split(/\s+/)` returns: the pieces contain no space, only the
      first may be empty (when the string starts with a space), and the last
      is not empty. */
  predicate WellSplit(ps: seq<string>) {
    (forall i :: 0 <= i < |ps| ==> NoSpace(ps[i]))
    && (forall i :: 0 < i < |ps| ==> ps[i] != [])
    && (ps != [] ==> ps[|ps| - 1] != [])
  }

  /** Ruby `String#split(/\s+/)`. */
  function Split(s: string): (ps: seq<string>)
    ensures WellSplit(ps)
  {
    var fs := RawFields(s);
    RawFieldsShape(s);
    var r := DropTrailingEmpty(fs);
    assert forall i :: 0 < i < |r| ==> r[i] != [] by {
      forall i | 0 < i < |r| ensures r[i] != [] {
        if i == |r| - 1 { } else { assert fs[i] == r[i]; }
      }
    }
    r
  }

  /** Every field is space-free and every field strictly between the first and
      the last is non-empty. */
  lemma {:induction false} RawFieldsShape(s: string)
    ensures forall i :: 0 <= i < |RawFields(s)| ==> NoSpace(RawFields(s)[i])
    ensures forall i :: 0 < i < |RawFields(s)| - 1 ==> RawFields(s)[i] != []
    decreases |s|
  {
    var w := TakeWord(s);
    var all := RawFields(s);
    if |w| < |s| {
      var rest := DropSpaces(s[|w|..]);
      var fs := RawFields(rest);
      assert all == [w] + fs;
      RawFieldsShape(rest);
      assert all[0] == w;
      assert forall i :: 0 < i < |all| ==> all[i] == fs[i - 1];
      if rest != [] {
        assert TakeWord(rest) != [];
        assert fs[0] == TakeWord(rest);
      }
    } else {
      assert all == [w];
    }
  }

  /** Ruby `Array#join(" ")`. */
  function Join(ps: seq<string>): (s: string)
    ensures ps == [] ==> s == []
  {
    if ps == [] then [] else if |ps| == 1 then ps[0] else ps[0] + " " + Join(ps[1..])
  }

  lemma {:induction false} TakeWordPrefix(a: string, b: string)
    requires NoSpace(a)
    requires b == [] || IsRegexSpace(b[0])
    ensures TakeWord(a + b) == a
  {
    if a != [] {
      assert (a + b)[1..] == a[1..] + b;
      TakeWordPrefix(a[1..], b);
    }
  }

  /** Splitting a joined well-formed list gives the list back. */
  lemma {:induction false} SplitJoin(ps: seq<string>)
    requires WellSplit(ps)
    ensures Split(Join(ps)) == ps
  {
    if ps != [] {
      RawFieldsJoin(ps);
    }
  }

  lemma {:induction false} RawFieldsJoin(ps: seq<string>)
    requires ps != []
    requires forall i :: 0 <= i < |ps| ==> NoSpace(ps[i])
    requires forall i :: 0 < i < |ps| ==> ps[i] != []
    ensures RawFields(Join(ps)) == ps
  {
    if |ps| == 1 {
      TakeWordPrefix(ps[0], []);
      assert ps[0] + [] == ps[0];
    } else {
      JoinHead(ps[1..]);
      RawFieldsCons(ps[0], Join(ps[1..]));
      RawFieldsJoin(ps[1..]);
      assert [ps[0]] + ps[1..] == ps;
    }
  }

  lemma JoinHead(ps: seq<string>)
    requires ps != [] && ps[0] != []
    ensures Join(ps) != [] && Join(ps)[0] == ps[0][0]
  {
  }

  lemma RawFieldsCons(w: string, t: string)
    requires NoSpace(w)
    requires t != [] && !IsRegexSpace(t[0])
    ensures RawFields(w + " " + t) == [w] + RawFields(t)
  {
    var u := " " + t;
    var s := w + u;
    assert s == w + " " + t;
    TakeWordPrefix(w, u);
    assert s[|w|..] == u;
    assert u[1..] == t;
    assert DropSpaces(u) == t;
    assert RawFields(s) == [w] + RawFields(DropSpaces(u));
  }

  /** Index of the first of `ps` that `c` starts with, or `|ps|`. */
  function FirstPrefix(ps: seq<string>, c: string): (k: nat)
    ensures k <= |ps|
    ensures k < |ps| ==> StartsWith(c, ps[k])
    ensures forall j :: 0 <= j < k ==> !StartsWith(c, ps[j])
  {
    if ps == [] then 0 else if StartsWith(c, ps[0]) then 0 else 1 + FirstPrefix(ps[1..], c)
  }

  /** Index of the first of `ps` that `c` ends with, or `|ps|`. */
  function FirstSuffix(ps: seq<string>, c: string): (k: nat)
    ensures k <= |ps|
    ensures k < |ps| ==> EndsWith(c, ps[k])
    ensures forall j :: 0 <= j < k ==> !EndsWith(c, ps[j])
  {
    if ps == [] then 0 else if EndsWith(c, ps[0]) then 0 else 1 + FirstSuffix(ps[1..], c)
  }

  /** The value of `$1 + $2 + $3` after a match of the alternation
      `\A<p0>(.*?)\z|\A<p1>(.*?)\z|...` against one class: the remainder after the
      first matching prefix, but only when that prefix is one of the first three
      (later alternatives capture into groups the block never reads). */
  function PrefixCapture(ps: seq<string>, c: string): string
    requires FirstPrefix(ps, c) < |ps|
  {
    var k := FirstPrefix(ps, c);
    if k < 3 then c[|ps[k]|..] else []
  }

  function SuffixCapture(ps: seq<string>, c: string): string
    requires FirstSuffix(ps, c) < |ps|
  {
    var k := FirstSuffix(ps, c);
    if k < 3 then c[..|c| - |ps[k]|] else []
  }

  /** One class through `remove_prefixes`' block: the captured remainder when it
      is present, otherwise the class unchanged. */
  function StripPrefix(ps: seq<string>, c: string): (r: string)
    ensures r == c || (exists k :: 0 <= k < |ps| && k < 3 && c == ps[k] + r && Present(r))
    ensures NoSpace(c) ==> NoSpace(r)
    ensures r == [] <==> c == []
  {
    var k := FirstPrefix(ps, c);
    if k < |ps| && Present(PrefixCapture(ps, c)) then
      assert c == ps[k] + c[|ps[k]|..];
      c[|ps[k]|..]
    else c
  }

  /** One class through `remove_suffixes`' block. */
  function StripSuffix(ps: seq<string>, c: string): (r: string)
    ensures r == c || (exists k :: 0 <= k < |ps| && k < 3 && c == r + ps[k] && Present(r))
    ensures NoSpace(c) ==> NoSpace(r)
    ensures r == [] <==> c == []
  {
    var k := FirstSuffix(ps, c);
    if k < |ps| && Present(SuffixCapture(ps, c)) then
      assert c == c[..|c| - |ps[k]|] + ps[k];
      c[..|c| - |ps[k]|]
    else c
  }

  function MapStripPrefix(ps: seq<string>, cs: seq<string>): (rs: seq<string>)
    ensures |rs| == |cs| && forall i :: 0 <= i < |cs| ==> rs[i] == StripPrefix(ps, cs[i])
  {
    if cs == [] then [] else [StripPrefix(ps, cs[0])] + MapStripPrefix(ps, cs[1..])
  }

  function MapStripSuffix(ps: seq<string>, cs: seq<string>): (rs: seq<string>)
    ensures |rs| == |cs| && forall i :: 0 <= i < |cs| ==> rs[i] == StripSuffix(ps, cs[i])
  {
    if cs == [] then [] else [StripSuffix(ps, cs[0])] + MapStripSuffix(ps, cs[1..])
  }

  /** `remove_prefixes(prefix_array, classes_string)`. */
  function RemovePrefixes(ps: seq<string>, classes: string): string {
    Join(MapStripPrefix(ps, Split(classes)))
  }

  /** `remove_suffixes(suffix_array, classes_string)`. */
  function RemoveSuffixes(ps: seq<string>, classes: string): string {
    Join(MapStripSuffix(ps, Split(classes)))
  }

  /** `remove_prefixes` maps the classes one for one and in order: splitting its
      result gives exactly the stripped classes of the input. */
  lemma RemovePrefixesPieces(ps: seq<string>, classes: string)
    ensures Split(RemovePrefixes(ps, classes)) == MapStripPrefix(ps, Split(classes))
  {
    var cs := Split(classes);
    var rs := MapStripPrefix(ps, cs);
    assert WellSplit(rs) by {
      forall i | 0 <= i < |rs| ensures NoSpace(rs[i]) {
        assert NoSpace(cs[i]);
      }
      forall i | 0 < i < |rs| ensures rs[i] != [] {
        assert cs[i] != [];
      }
    }
    SplitJoin(rs);
  }

  /** `remove_suffixes` maps the classes one for one and in order. */
  lemma RemoveSuffixesPieces(ps: seq<string>, classes: string)
    ensures Split(RemoveSuffixes(ps, classes)) == MapStripSuffix(ps, Split(classes))
  {
    var cs := Split(classes);
    var rs := MapStripSuffix(ps, cs);
    assert WellSplit(rs) by {
      forall i | 0 <= i < |rs| ensures NoSpace(rs[i]) {
        assert NoSpace(cs[i]);
      }
      forall i | 0 < i < |rs| ensures rs[i] != [] {
        assert cs[i] != [];
      }
    }
    SplitJoin(rs);
  }

  /** A class with no listed prefix among the first three comes back unchanged. */
  lemma StripPrefixUnmatched(ps: seq<string>, c: string)
    requires forall k :: 0 <= k < |ps| && k < 3 ==> !StartsWith(c, ps[k])
    ensures StripPrefix(ps, c) == c
  {
  }

  /** The first matching prefix wins: its remainder is the result when present. */
  lemma StripPrefixFirstWins(ps: seq<string>, c: string, k: nat)
    requires k < |ps| && k < 3 && StartsWith(c, ps[k])
    requires forall j :: 0 <= j < k ==> !StartsWith(c, ps[j])
    ensures StripPrefix(ps, c) == if Present(c[|ps[k]|..]) then c[|ps[k]|..] else c
  {
    assert FirstPrefix(ps, c) == k;
  }

  /** The first matching suffix wins: what precedes it is the result when present. */
  lemma StripSuffixFirstWins(ps: seq<string>, c: string, k: nat)
    requires k < |ps| && k < 3 && EndsWith(c, ps[k])
    requires forall j :: 0 <= j < k ==> !EndsWith(c, ps[j])
    ensures StripSuffix(ps, c) == if Present(c[..|c| - |ps[k]|]) then c[..|c| - |ps[k]|] else c
  {
    assert FirstSuffix(ps, c) == k;
  }

  /** A fourth or later prefix never strips: only `$1`, `$2` and `$3` are read. */
  lemma StripPrefixBeyondThird(ps: seq<string>, c: string)
    requires FirstPrefix(ps, c) >= 3
    ensures StripPrefix(ps, c) == c
  {
  }

  lemma {:induction false} PresentPiece(s: string)
    requires Present(s)
    ensures exists i :: 0 <= i < |Split(s)| && Present(Split(s)[i])
  {
    RawFieldsPresent(s);
    var fs := RawFields(s);
    var i :| 0 <= i < |fs| && Present(fs[i]);
    var r := DropTrailingEmpty(fs);
    assert r == Split(s);
    assert fs[i] != [];
    assert i < |r|;
    assert r[i] == fs[i];
  }

  lemma {:induction false} RawFieldsPresent(s: string)
    requires Present(s)
    ensures exists i :: 0 <= i < |RawFields(s)| && Present(RawFields(s)[i])
    decreases |s|
  {
    var w := TakeWord(s);
    if Present(w) {
      assert RawFields(s)[0] == w;
    } else {
      var t := s[|w|..];
      assert s == w + t;
      AppendPresent(w, t);
      assert |w| < |s|;
      var rest := DropSpaces(t);
      DropSpacesPresent(t);
      RawFieldsPresent(rest);
      RawFieldsTail(s, w, rest);
    }
  }

  lemma RawFieldsTail(s: string, w: string, rest: string)
    requires w == TakeWord(s) && |w| < |s| && rest == DropSpaces(s[|w|..])
    requires exists i :: 0 <= i < |RawFields(rest)| && Present(RawFields(rest)[i])
    ensures exists i :: 0 <= i < |RawFields(s)| && Present(RawFields(s)[i])
  {
    var fs := RawFields(rest);
    var all := RawFields(s);
    assert all == [w] + fs;
    var i :| 0 <= i < |fs| && Present(fs[i]);
    assert all[i + 1] == fs[i];
  }

  lemma AppendPresent(w: string, t: string)
    requires Present(w + t) && !Present(w)
    ensures Present(t)
  {
    var j :| 0 <= j < |w + t| && !IsBlankSpace((w + t)[j]);
    assert j >= |w|;
    assert t[j - |w|] == (w + t)[j];
  }

  lemma {:induction false} DropSpacesPresent(t: string)
    requires Present(t)
    ensures Present(DropSpaces(t))
  {
    if t != [] && IsRegexSpace(t[0]) {
      assert t == [t[0]] + t[1..];
      assert !Present([t[0]]);
      AppendPresent([t[0]], t[1..]);
      DropSpacesPresent(t[1..]);
    }
  }

  lemma {:induction false} JoinPresent(ps: seq<string>, i: nat)
    requires i < |ps| && Present(ps[i])
    ensures Present(Join(ps))
  {
    var c :| 0 <= c < |ps[i]| && !IsBlankSpace(ps[i][c]);
    if |ps| > 1 {
      var j := Join(ps[1..]);
      assert Join(ps) == ps[0] + " " + j;
      if i == 0 {
        assert Join(ps)[c] == ps[0][c];
      } else {
        JoinPresent(ps[1..], i - 1);
        var d :| 0 <= d < |j| && !IsBlankSpace(j[d]);
        assert Join(ps)[|ps[0]| + 1 + d] == j[d];
      }
    }
  }

  /** Every class of a list occurs in the joined list. */
  lemma {:induction false} JoinContains(ps: seq<string>, i: nat)
    requires i < |ps|
    ensures IsSubstring(ps[i], Join(ps))
  {
    if |ps| == 1 {
      assert OccursAt(ps[0], Join(ps), 0);
    } else {
      var j := Join(ps[1..]);
      assert Join(ps) == ps[0] + " " + j;
      if i == 0 {
        assert Join(ps)[0..|ps[0]|] == ps[0];
        assert OccursAt(ps[0], Join(ps), 0);
      } else {
        JoinContains(ps[1..], i - 1);
        var k :| 0 <= k <= |j| - |ps[i]| && OccursAt(ps[i], j, k);
        var at := |ps[0]| + 1 + k;
        assert Join(ps)[at..at + |ps[i]|] == j[k..k + |ps[i]|];
        assert OccursAt(ps[i], Join(ps), at);
      }
    }
  }

  /** Stripping never blanks a present class list, so a non-blank `class`
      always yields a non-blank style name. */
  lemma RemovePrefixesPresent(ps: seq<string>, classes: string)
    requires Present(classes)
    ensures Present(RemovePrefixes(ps, classes))
  {
    PresentPiece(classes);
    var cs := Split(classes);
    var i :| 0 <= i < |cs| && Present(cs[i]);
    var rs := MapStripPrefix(ps, cs);
    assert Present(rs[i]);
    JoinPresent(rs, i);
  }

  lemma RemoveSuffixesPresent(ps: seq<string>, classes: string)
    requires Present(classes)
    ensures Present(RemoveSuffixes(ps, classes))
  {
    PresentPiece(classes);
    var cs := Split(classes);
    var i :| 0 <= i < |cs| && Present(cs[i]);
    var rs := MapStripSuffix(ps, cs);
    assert Present(rs[i]);
    JoinPresent(rs, i);
  }
}
