/** Measures over markup trees: size, the set of element names, and the text a
    tree carries in document order. */
module Trees {
  import opened Html

  function Size(n: Node): nat
    ensures Size(n) >= 1
  {
    match n
    case Text(_) => 1
    case Element(_, _, cs) => 1 + SizeAll(cs)
  }

  /** One more than the sizes of the nodes of `cs`, so that a list is larger
      than each of its members. */
  function SizeAll(cs: seq<Node>): nat
    ensures SizeAll(cs) >= 1
  {
    if cs == [] then 1 else Size(cs[0]) + SizeAll(cs[1..])
  }

  /** The names of all elements of `n`, `n` included. */
  function Names(n: Node): set<string> {
    match n
    case Text(_) => {}
    case Element(name, _, cs) => {name} + NamesAll(cs)
  }

  function NamesAll(cs: seq<Node>): set<string> {
    if cs == [] then {} else Names(cs[0]) + NamesAll(cs[1..])
  }

  /** The text of `n` in document order (Nokogiri's `Node#text`). */
  function TextOf(n: Node): string {
    match n
    case Text(t) => t
    case Element(_, _, cs) => TextOfAll(cs)
  }

  function TextOfAll(cs: seq<Node>): string {
    if cs == [] then [] else TextOf(cs[0]) + TextOfAll(cs[1..])
  }

  lemma NamesAllCons(x: Node, rest: seq<Node>)
    ensures NamesAll([x] + rest) == Names(x) + NamesAll(rest)
  {
    assert ([x] + rest)[1..] == rest;
  }

  lemma {:induction false} NamesAllAppend(a: seq<Node>, b: seq<Node>)
    ensures NamesAll(a + b) == NamesAll(a) + NamesAll(b)
  {
    if a == [] {
      assert a + b == b;
    } else {
      assert (a + b)[1..] == a[1..] + b;
      NamesAllAppend(a[1..], b);
    }
  }

  lemma {:induction false} TextOfAllAppend(a: seq<Node>, b: seq<Node>)
    ensures TextOfAll(a + b) == TextOfAll(a) + TextOfAll(b)
  {
    if a == [] {
      assert a + b == b;
    } else {
      assert (a + b)[1..] == a[1..] + b;
      TextOfAllAppend(a[1..], b);
    }
  }

  /** Every child's names are among its parent list's names. */
  lemma {:induction false} NamesAllMember(cs: seq<Node>, i: nat)
    requires i < |cs|
    ensures Names(cs[i]) <= NamesAll(cs)
  {
    if i > 0 {
      NamesAllMember(cs[1..], i - 1);
    }
  }

  /** `m` is `n` or a node below it. */
  predicate Contains(n: Node, m: Node) {
    n == m || (n.Element? && exists i | 0 <= i < |n.children| :: Contains(n.children[i], m))
  }
}
