/**
  An abstract view of a parsed document, as ElementTree presents it to the
  validator: every element has a tag, an attribute map, a text that may be
  None, and its children in document order.
*/
module Xml {
  import opened Options

  datatype Element = Element(tag: string, attrs: map<string, string>, text: Option<string>, children: seq<Element>)

  /** `element.get(name)`: the attribute value, or None when the attribute is absent. */
  function Attr(e: Element, name: string): Option<string>
  {
    if name in e.attrs then Some(e.attrs[name]) else None
  }

  /** Python's truthiness of an element text: `not x.text` holds for None and for "". */
  predicate HasText(t: Option<string>)
  {
    t.Some? && t.value != ""
  }

  /** The first element of `cs` with tag `tag`. */
  function FirstWithTag(cs: seq<Element>, tag: string): (r: Option<Element>)
    ensures r.Some? ==> r.value in cs && r.value.tag == tag
    ensures r.None? <==> forall c :: c in cs ==> c.tag != tag
    ensures r.Some? ==> exists k :: 0 <= k < |cs| && cs[k] == r.value && forall j :: 0 <= j < k ==> cs[j].tag != tag
  {
    if cs == [] then None
    else if cs[0].tag == tag then Some(cs[0])
    else FirstWithTag(cs[1..], tag)
  }

  /** The elements of `cs` with tag `tag`, in their order in `cs`. */
  function AllWithTag(cs: seq<Element>, tag: string): (r: seq<Element>)
    ensures |r| <= |cs|
    ensures forall c :: c in r <==> c in cs && c.tag == tag
  {
    if cs == [] then []
    else (if cs[0].tag == tag then [cs[0]] else []) + AllWithTag(cs[1..], tag)
  }

  /** `element.find(tag)`: the first direct child with that tag. */
  function Find(e: Element, tag: string): (r: Option<Element>)
    ensures r.None? <==> forall c :: c in e.children ==> c.tag != tag
    ensures r.Some? ==> r.value in e.children && r.value.tag == tag
  {
    FirstWithTag(e.children, tag)
  }

  /** `element.findall(tag)`: every direct child with that tag, in document order. */
  function FindAll(e: Element, tag: string): (r: seq<Element>)
    ensures |r| <= |e.children|
    ensures forall c :: c in r <==> c in e.children && c.tag == tag
  {
    AllWithTag(e.children, tag)
  }

  /** Filtering by tag distributes over concatenation, so document order is kept. */
  lemma {:induction false} AllWithTagAppend(a: seq<Element>, b: seq<Element>, tag: string)
    ensures AllWithTag(a + b, tag) == AllWithTag(a, tag) + AllWithTag(b, tag)
  {
    if a == [] {
      assert a + b == b;
    } else {
      assert (a + b)[1..] == a[1..] + b;
      AllWithTagAppend(a[1..], b, tag);
    }
  }

  /** `find` returns exactly the head of what `findall` returns, and None when that is empty. */
  lemma {:induction false} FindIsFirstOfFindAll(cs: seq<Element>, tag: string)
    ensures FirstWithTag(cs, tag) == if AllWithTag(cs, tag) == [] then None else Some(AllWithTag(cs, tag)[0])
  {
    if cs != [] && cs[0].tag != tag {
      FindIsFirstOfFindAll(cs[1..], tag);
    }
  }
}
