// The parsed XML document as the feed normalisers see it, and the
// ElementTree lookups they use:
//   e.find("t")         first direct child tagged t             (FindChild)
//   e.findall("t")      all direct children tagged t            (FindAllChildren)
//   e.find(".//t")      first descendant tagged t, pre-order    (FindDescendant)
//   e.findall(".//t")   all descendants tagged t, pre-order     (FindAllDescendants)
//   e.find("*//t")      first element tagged t at depth >= 2    (FindDeep)
// A namespaced tag is written with its namespace URI in braces, as
// ElementTree does: "{http://purl.org/dc/elements/1.1/}creator".
module Xml {
  import opened Text

  /** One element: its tag, its attribute map, its leading text (`None` when
      the element has no character data before its first child) and its
      children in document order. */
  datatype Element = Element(tag: string, attrs: map<string, string>, text: Option<string>, children: seq<Element>)

  /** The outcome of `ET.fromstring(content)`: a tree, an `ET.ParseError`
      (malformed XML), or any other exception. Messages are `str(e)`, opaque. */
  datatype Document = Parsed(root: Element) | ParseError(message: string) | OtherError(message: string)

  const DC_CREATOR := "{http://purl.org/dc/elements/1.1/}creator"
  const DC_SUBJECT := "{http://purl.org/dc/elements/1.1/}subject"
  const MEDIA_CONTENT := "{http://search.yahoo.com/mrss/}content"
  const MEDIA_THUMBNAIL := "{http://search.yahoo.com/mrss/}thumbnail"
  const CONTENT_ENCODED := "{http://purl.org/rss/1.0/modules/content/}encoded"

  /** The elements of a forest in document order: each tree's root, then its
      subtree, then the following trees. */
  function Preorder(forest: seq<Element>): seq<Element>
    decreases forest
  {
    if forest == [] then []
    else [forest[0]] + Preorder(forest[0].children) + Preorder(forest[1..])
  }

  /** Every element strictly below `e`, in document order. */
  function Descendants(e: Element): seq<Element> {
    Preorder(e.children)
  }

  /** The elements of a forest that lie below one of its roots. */
  function BelowRoots(forest: seq<Element>): seq<Element>
    decreases forest
  {
    if forest == [] then []
    else Preorder(forest[0].children) + BelowRoots(forest[1..])
  }

  /** Every element at depth two or more below `e` (grandchildren and deeper),
      in document order: what the path `*` + `//t` ranges over. */
  function DeepDescendants(e: Element): seq<Element> {
    BelowRoots(e.children)
  }

  /** The elements of `xs` tagged `tag`, in their original order. */
  function WithTag(xs: seq<Element>, tag: string): (r: seq<Element>)
    ensures |r| <= |xs|
    ensures forall i :: 0 <= i < |r| ==> r[i].tag == tag && r[i] in xs
    ensures forall i :: 0 <= i < |xs| && xs[i].tag == tag ==> xs[i] in r
  {
    if xs == [] then []
    else if xs[0].tag == tag then [xs[0]] + WithTag(xs[1..], tag)
    else WithTag(xs[1..], tag)
  }

  /** The first element of `xs` tagged `tag`. */
  function FirstWithTag(xs: seq<Element>, tag: string): (r: Option<Element>)
    ensures r.None? <==> forall i :: 0 <= i < |xs| ==> xs[i].tag != tag
    ensures r.Some? ==> exists i :: 0 <= i < |xs| && xs[i] == r.value && xs[i].tag == tag
                          && forall j :: 0 <= j < i ==> xs[j].tag != tag
  {
    if xs == [] then None
    else if xs[0].tag == tag then Some(xs[0])
    else
      var r := FirstWithTag(xs[1..], tag);
      assert forall j :: 1 <= j < |xs| ==> xs[j] == xs[1..][j - 1];
      r
  }

  /** `find` is the head of `findall`: the first match is the first of all
      matches, and there is none exactly when there are no matches. */
  lemma {:induction false} FirstIsHeadOfAll(xs: seq<Element>, tag: string)
    ensures FirstWithTag(xs, tag) == if WithTag(xs, tag) == [] then None else Some(WithTag(xs, tag)[0])
  {
    if xs != [] && xs[0].tag != tag {
      FirstIsHeadOfAll(xs[1..], tag);
    }
  }

  /** `e.find(tag)`: the first direct child tagged `tag`. */
  function FindChild(e: Element, tag: string): (r: Option<Element>)
    ensures r.None? <==> forall i :: 0 <= i < |e.children| ==> e.children[i].tag != tag
    ensures r.Some? ==> r.value.tag == tag && r.value in e.children
  {
    FirstWithTag(e.children, tag)
  }

  /** `e.findall(tag)`: every direct child tagged `tag`, and nothing else. */
  function FindAllChildren(e: Element, tag: string): (r: seq<Element>)
    ensures forall x :: x in r ==> x.tag == tag && x in e.children
    ensures forall x :: x in e.children && x.tag == tag ==> x in r
  {
    WithTag(e.children, tag)
  }

  /** `e.find(".//" + tag)`: the first element below `e` tagged `tag`. */
  function FindDescendant(e: Element, tag: string): (r: Option<Element>)
    ensures r.None? <==> forall x :: x in Descendants(e) ==> x.tag != tag
    ensures r.Some? ==> r.value.tag == tag && r.value in Descendants(e)
  {
    FirstWithTag(Descendants(e), tag)
  }

  /** `e.findall(".//" + tag)`: every element below `e` tagged `tag`. */
  function FindAllDescendants(e: Element, tag: string): (r: seq<Element>)
    ensures forall x :: x in r ==> x.tag == tag && x in Descendants(e)
    ensures forall x :: x in Descendants(e) && x.tag == tag ==> x in r
  {
    WithTag(Descendants(e), tag)
  }

  /** `find` with a wildcard-then-descendant path: the first element at
      least two levels below `e` tagged `tag`. */
  function FindDeep(e: Element, tag: string): (r: Option<Element>)
    ensures r.None? <==> forall x :: x in DeepDescendants(e) ==> x.tag != tag
    ensures r.Some? ==> r.value.tag == tag && r.value in DeepDescendants(e)
  {
    FirstWithTag(DeepDescendants(e), tag)
  }

  /** Each `find` returns the first match, in document order, of the
      elements its `findall` counterpart searches. */
  lemma FindIsFirst(e: Element, tag: string)
    ensures FindChild(e, tag).Some? ==>
              exists i :: 0 <= i < |e.children| && e.children[i] == FindChild(e, tag).value
                          && forall j :: 0 <= j < i ==> e.children[j].tag != tag
    ensures FindDescendant(e, tag).Some? ==>
              exists i :: 0 <= i < |Descendants(e)| && Descendants(e)[i] == FindDescendant(e, tag).value
                          && forall j :: 0 <= j < i ==> Descendants(e)[j].tag != tag
    ensures FindDeep(e, tag).Some? ==>
              exists i :: 0 <= i < |DeepDescendants(e)| && DeepDescendants(e)[i] == FindDeep(e, tag).value
                          && forall j :: 0 <= j < i ==> DeepDescendants(e)[j].tag != tag
  {
  }

  /** `findall` distributes over a split of the searched sequence. */
  lemma {:induction false} WithTagAppend(xs: seq<Element>, ys: seq<Element>, tag: string)
    ensures WithTag(xs + ys, tag) == WithTag(xs, tag) + WithTag(ys, tag)
  {
    if xs == [] {
      assert xs + ys == ys;
    } else {
      assert (xs + ys)[1..] == xs[1..] + ys;
      WithTagAppend(xs[1..], ys, tag);
    }
  }

  /** One element is kept exactly when it carries the tag: with the append
      law this pins down `WithTag` as the order-preserving filter. */
  lemma WithTagSingle(x: Element, tag: string)
    ensures WithTag([x], tag) == if x.tag == tag then [x] else []
  {
    assert [x][1..] == [];
  }

  /** The pre-order of two forests side by side is the first's, then the
      second's. */
  lemma {:induction false} PreorderAppend(xs: seq<Element>, ys: seq<Element>)
    ensures Preorder(xs + ys) == Preorder(xs) + Preorder(ys)
    decreases xs
  {
    if xs == [] {
      assert xs + ys == ys;
    } else {
      assert (xs + ys)[1..] == xs[1..] + ys;
      PreorderAppend(xs[1..], ys);
    }
  }

  /** Once a match is found, nothing after it is looked at. */
  lemma {:induction false} FirstWithTagAppend(xs: seq<Element>, ys: seq<Element>, tag: string)
    requires FirstWithTag(xs, tag).Some?
    ensures FirstWithTag(xs + ys, tag) == FirstWithTag(xs, tag)
  {
    if xs[0].tag != tag {
      assert (xs + ys)[1..] == xs[1..] + ys;
      FirstWithTagAppend(xs[1..], ys, tag);
    }
  }

  /** Elements without the tag, appended after the others, are never found. */
  lemma {:induction false} FirstWithTagSkipsTail(xs: seq<Element>, ys: seq<Element>, tag: string)
    requires forall i :: 0 <= i < |ys| ==> ys[i].tag != tag
    ensures FirstWithTag(xs + ys, tag) == FirstWithTag(xs, tag)
  {
    if xs == [] {
      assert xs + ys == ys;
    } else {
      assert (xs + ys)[1..] == xs[1..] + ys;
      FirstWithTagSkipsTail(xs[1..], ys, tag);
    }
  }

  /** Every root of a forest, and every element below a root, is in the
      forest's pre-order. */
  lemma {:induction false} PreorderContains(forest: seq<Element>)
    ensures forall i :: 0 <= i < |forest| ==> forest[i] in Preorder(forest)
    ensures forall x :: x in BelowRoots(forest) ==> x in Preorder(forest)
    decreases forest
  {
    if forest != [] {
      PreorderContains(forest[1..]);
      forall i | 1 <= i < |forest| ensures forest[i] in Preorder(forest) {
        assert forest[i] == forest[1..][i - 1];
      }
    }
  }

  // The depth-two-or-more elements are descendants: "*//t" only ever finds
  // what ".//t" could find, and a direct child is found by ".//t".
  lemma DeepIsDescendant(e: Element, tag: string)
    ensures forall x :: x in DeepDescendants(e) ==> x in Descendants(e)
    ensures forall i :: 0 <= i < |e.children| ==> e.children[i] in Descendants(e)
    ensures FindDeep(e, tag).Some? ==> FindDescendant(e, tag).Some?
    ensures FindChild(e, tag).Some? ==> FindDescendant(e, tag).Some?
  {
    PreorderContains(e.children);
    var ds := Descendants(e);
    if FindDeep(e, tag).Some? {
      var d := FindDeep(e, tag).value;
      assert d in ds && d.tag == tag;
      var k :| 0 <= k < |ds| && ds[k] == d;
      assert ds[k].tag == tag;
    }
    if FindChild(e, tag).Some? {
      var i :| 0 <= i < |e.children| && e.children[i] == FindChild(e, tag).value && e.children[i].tag == tag;
      var k :| 0 <= k < |ds| && ds[k] == e.children[i];
      assert ds[k].tag == tag;
    }
  }
}
