/**
 * The slice of ElementTree the GPX code uses, on immutable trees.
 *
 * An element has a namespaced tag, an attribute dict, optional text and an
 * ordered list of children (tails are not modelled). `e.findall('.//t')`
 * is every proper descendant of `e` with tag `t`, in document (pre-)order;
 * `e.find('t')` is the first direct child with tag `t`; `e.find('.//t')`
 * the first proper descendant with tag `t`, reached here through a path of
 * child indices.
 */
module Xml {
  import opened Wrappers

  /** A tag in Clark notation `{ns}local`. */
  datatype Name = Name(ns: string, local: string)

  datatype Element = Element(tag: Name, attrs: map<string, string>, text: Option<string>, children: seq<Element>)

  /** `ElementTree.Element(tag)` and `SubElement(parent, tag)`'s new child: no attributes, no text, no children. */
  function NewElement(tag: Name): Element
  {
    Element(tag, map[], None, [])
  }

  // ---------------------------------------------------------------------
  // Descendants and findall
  // ---------------------------------------------------------------------

  /** Every proper descendant of `e`, in document order. */
  function Descendants(e: Element): seq<Element>
    decreases e, 1
  {
    DescendantsOf(e.children)
  }

  /** Every element of the forest `cs`, each followed by its descendants. */
  function DescendantsOf(cs: seq<Element>): seq<Element>
    decreases cs, 0
  {
    if cs == [] then [] else [cs[0]] + Descendants(cs[0]) + DescendantsOf(cs[1..])
  }

  /** The elements of `es` that carry tag `n`, in their order. */
  function WithTag(es: seq<Element>, n: Name): (r: seq<Element>)
    ensures |r| <= |es|
    ensures forall i :: 0 <= i < |r| ==> r[i].tag == n
    ensures forall x :: x in r <==> x in es && x.tag == n
  {
    if es == [] then []
    else if es[0].tag == n then [es[0]] + WithTag(es[1..], n)
    else WithTag(es[1..], n)
  }

  /** `e.findall('.//n')`. */
  function FindAll(e: Element, n: Name): seq<Element>
  {
    WithTag(Descendants(e), n)
  }

  /** `e.find('n')`: the index of the first direct child with tag `n`. */
  function FirstChild(cs: seq<Element>, n: Name): (r: Option<nat>)
    ensures r.Some? ==> r.value < |cs| && cs[r.value].tag == n
    ensures r.Some? ==> forall j :: 0 <= j < r.value ==> cs[j].tag != n
    ensures r.None? <==> forall j :: 0 <= j < |cs| ==> cs[j].tag != n
  {
    if cs == [] then None
    else if cs[0].tag == n then Some(0)
    else match FirstChild(cs[1..], n)
      case None => None
      case Some(i) => Some(i + 1)
  }

  lemma {:induction false} WithTagConcat(a: seq<Element>, b: seq<Element>, n: Name)
    ensures WithTag(a + b, n) == WithTag(a, n) + WithTag(b, n)
  {
    if a != [] {
      assert (a + b)[1..] == a[1..] + b;
      WithTagConcat(a[1..], b, n);
    } else {
      assert a + b == b;
    }
  }

  lemma {:induction false} DescendantsOfConcat(a: seq<Element>, b: seq<Element>)
    ensures DescendantsOf(a + b) == DescendantsOf(a) + DescendantsOf(b)
  {
    if a != [] {
      assert (a + b)[1..] == a[1..] + b;
      assert (a + b)[0] == a[0];
      DescendantsOfConcat(a[1..], b);
    } else {
      assert a + b == b;
    }
  }

  lemma DescendantsOfOne(e: Element)
    ensures DescendantsOf([e]) == [e] + Descendants(e)
  {
    assert [e][1..] == [];
  }

  // ---------------------------------------------------------------------
  // Counting tags
  // ---------------------------------------------------------------------

  /** How many elements of the subtree at `e`, `e` included, carry tag `n`. */
  function Occurrences(e: Element, n: Name): nat
    decreases e, 1
  {
    (if e.tag == n then 1 else 0) + OccurrencesOf(e.children, n)
  }

  function OccurrencesOf(cs: seq<Element>, n: Name): nat
    decreases cs, 0
  {
    if cs == [] then 0 else Occurrences(cs[0], n) + OccurrencesOf(cs[1..], n)
  }

  lemma {:induction false} OccurrencesOfConcat(a: seq<Element>, b: seq<Element>, n: Name)
    ensures OccurrencesOf(a + b, n) == OccurrencesOf(a, n) + OccurrencesOf(b, n)
  {
    if a != [] {
      assert (a + b)[1..] == a[1..] + b;
      assert (a + b)[0] == a[0];
      OccurrencesOfConcat(a[1..], b, n);
    } else {
      assert a + b == b;
    }
  }

  lemma OccurrencesOfOne(e: Element, n: Name)
    ensures OccurrencesOf([e], n) == Occurrences(e, n)
  {
    assert [e][1..] == [];
  }

  /** `len(findall)` over a forest counts the tag in every subtree of it. */
  lemma {:induction false} FindAllCountOf(cs: seq<Element>, n: Name)
    ensures |WithTag(DescendantsOf(cs), n)| == OccurrencesOf(cs, n)
    decreases cs, 0
  {
    if cs != [] {
      FindAllCountOf(cs[0].children, n);
      FindAllCountOf(cs[1..], n);
      WithTagConcat([cs[0]] + Descendants(cs[0]), DescendantsOf(cs[1..]), n);
      WithTagConcat([cs[0]], Descendants(cs[0]), n);
      assert WithTag([cs[0]], n) == (if cs[0].tag == n then [cs[0]] else []) by {
        assert [cs[0]][1..] == [];
      }
    }
  }

  /** `len(e.findall('.//n'))` is the number of proper descendants tagged `n`. */
  lemma FindAllCount(e: Element, n: Name)
    ensures |FindAll(e, n)| == OccurrencesOf(e.children, n)
  {
    FindAllCountOf(e.children, n);
  }

  // ---------------------------------------------------------------------
  // Paths, and find('.//n')
  // ---------------------------------------------------------------------

  /** A path of child indices leading from `e` to one of its subtrees. */
  predicate ValidPath(e: Element, p: seq<nat>)
    decreases |p|
  {
    p == [] || (p[0] < |e.children| && ValidPath(e.children[p[0]], p[1..]))
  }

  /** The subtree the path leads to. */
  function At(e: Element, p: seq<nat>): Element
    requires ValidPath(e, p)
    decreases |p|
  {
    if p == [] then e else At(e.children[p[0]], p[1..])
  }

  /** The tree with the subtree at `p` replaced by `x`. */
  function ReplaceAt(e: Element, p: seq<nat>, x: Element): Element
    requires ValidPath(e, p)
    decreases |p|
  {
    if p == [] then x
    else e.(children := e.children[p[0] := ReplaceAt(e.children[p[0]], p[1..], x)])
  }

  /** After the replacement the path still leads somewhere, to `x`. */
  lemma {:induction false} AtReplaceAt(e: Element, p: seq<nat>, x: Element)
    requires ValidPath(e, p)
    ensures ValidPath(ReplaceAt(e, p, x), p) && At(ReplaceAt(e, p, x), p) == x
    decreases |p|
  {
    if p != [] {
      AtReplaceAt(e.children[p[0]], p[1..], x);
    }
  }

  /** Every subtree off the path is left as it was. */
  lemma {:induction false} ReplaceAtElsewhere(e: Element, p: seq<nat>, q: seq<nat>, x: Element)
    requires ValidPath(e, p) && ValidPath(e, q)
    requires exists k :: 0 <= k < |p| && k < |q| && p[k] != q[k]
    ensures ValidPath(ReplaceAt(e, p, x), q) && At(ReplaceAt(e, p, x), q) == At(e, q)
    decreases |p|
  {
    var k :| 0 <= k < |p| && k < |q| && p[k] != q[k];
    if p[0] == q[0] {
      assert p[1..][k - 1] != q[1..][k - 1];
      ReplaceAtElsewhere(e.children[p[0]], p[1..], q[1..], x);
    } else {
      assert ReplaceAt(e, p, x).children[q[0]] == e.children[q[0]];
    }
  }

  /** Replacing below the root keeps the root's own tag, attributes, text and number of children. */
  lemma ReplaceAtKeepsRoot(e: Element, p: seq<nat>, x: Element)
    requires ValidPath(e, p) && p != []
    ensures var r := ReplaceAt(e, p, x);
      r.tag == e.tag && r.attrs == e.attrs && r.text == e.text && |r.children| == |e.children|
  {
  }

  /** A prefix of a path is a path, and the rest of it leads on from there to the same subtree. */
  lemma {:induction false} AtPrefix(e: Element, p: seq<nat>, k: nat)
    requires ValidPath(e, p) && k <= |p|
    ensures ValidPath(e, p[..k]) && ValidPath(At(e, p[..k]), p[k..]) && At(At(e, p[..k]), p[k..]) == At(e, p)
    decreases k
  {
    if k > 0 {
      AtPrefix(e.children[p[0]], p[1..], k - 1);
      assert p[..k][1..] == p[1..][..k - 1];
      assert p[k..] == p[1..][k - 1..];
    }
  }

  /**
   * Every element strictly above the replaced one is the same element with
   * the replacement made below it.
   */
  lemma {:induction false} ReplaceAtAbove(e: Element, p: seq<nat>, x: Element, k: nat)
    requires ValidPath(e, p) && k < |p|
    ensures ValidPath(e, p[..k]) && ValidPath(At(e, p[..k]), p[k..])
    ensures ValidPath(ReplaceAt(e, p, x), p[..k]) &&
      At(ReplaceAt(e, p, x), p[..k]) == ReplaceAt(At(e, p[..k]), p[k..], x)
    decreases k
  {
    AtPrefix(e, p, k);
    if k > 0 {
      ReplaceAtAbove(e.children[p[0]], p[1..], x, k - 1);
      assert p[..k][1..] == p[1..][..k - 1];
      assert p[k..] == p[1..][k - 1..];
    }
  }

  /** `e.find('.//n')`: the path to the first proper descendant tagged `n`. */
  function FirstPath(e: Element, n: Name): Option<seq<nat>>
    decreases e, 1
  {
    FirstPathFrom(e.children, n, 0)
  }

  /** The first match in the subtrees `cs[i..]`, as a path from their parent. */
  function FirstPathFrom(cs: seq<Element>, n: Name, i: nat): Option<seq<nat>>
    decreases cs, |cs| - i
  {
    if i >= |cs| then None
    else if cs[i].tag == n then Some([i])
    else match FirstPath(cs[i], n)
      case Some(p) => Some([i] + p)
      case None => FirstPathFrom(cs, n, i + 1)
  }

  lemma {:induction false} FirstPathFromFinds(parent: Element, n: Name, i: nat)
    requires i <= |parent.children|
    ensures var r := FirstPathFrom(parent.children, n, i);
      var found := WithTag(DescendantsOf(parent.children[i..]), n);
      (r.None? <==> found == []) &&
      (r.Some? ==> ValidPath(parent, r.value) && |r.value| > 0 && At(parent, r.value) == found[0])
    decreases parent, |parent.children| - i
  {
    var cs := parent.children;
    if i < |cs| {
      var c := cs[i];
      WithTagFrom(cs, n, i);
      if c.tag != n {
        FirstPathFromFinds(c, n, 0);
        assert c.children[0..] == c.children;
        if FirstPath(c, n).None? {
          FirstPathFromFinds(parent, n, i + 1);
        } else {
          var p := FirstPath(c, n).value;
          assert ([i] + p)[1..] == p;
        }
      }
    } else {
      assert cs[i..] == [];
    }
  }

  /** What `findall` over the subtrees `cs[i..]` lists: `cs[i]` if it matches, then its matches, then the rest. */
  lemma WithTagFrom(cs: seq<Element>, n: Name, i: nat)
    requires i < |cs|
    ensures WithTag(DescendantsOf(cs[i..]), n) ==
      (if cs[i].tag == n then [cs[i]] else []) + FindAll(cs[i], n) + WithTag(DescendantsOf(cs[i + 1..]), n)
  {
    var c := cs[i];
    assert cs[i..][1..] == cs[i + 1..];
    assert DescendantsOf(cs[i..]) == [c] + Descendants(c) + DescendantsOf(cs[i + 1..]);
    WithTagConcat([c] + Descendants(c), DescendantsOf(cs[i + 1..]), n);
    WithTagConcat([c], Descendants(c), n);
    assert WithTag([c], n) == (if c.tag == n then [c] else []) by {
      assert [c][1..] == [];
    }
  }

  /** `find('.//n')` finds exactly the first element `findall('.//n')` lists, and finds nothing only when that list is empty. */
  lemma FirstPathFinds(e: Element, n: Name)
    ensures FirstPath(e, n).None? <==> FindAll(e, n) == []
    ensures FirstPath(e, n).Some? ==>
      var p := FirstPath(e, n).value;
      ValidPath(e, p) && |p| > 0 && At(e, p) == FindAll(e, n)[0]
  {
    FirstPathFromFinds(e, n, 0);
    assert e.children[0..] == e.children;
  }
}
