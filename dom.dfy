/**
 * The parsed HTML fragment that `extractTitles` queries: the children of a
 * detached `div` whose `innerHTML` was set to the editor content.
 * Only the two facts the pipeline uses are modelled: each element's tag name,
 * and its text (`innerText` of an element that is not rendered is its
 * descendant text content).
 */
module Dom {
  import opened Decimal

  datatype Node =
    | Text(data: string)
    | Element(tagName: string, children: seq<Node>)

  /** Descendant text content of a sequence of sibling nodes, in document order. */
  function ForestText(f: seq<Node>): string {
    if f == [] then []
    else
      (match f[0]
       case Text(d) => d
       case Element(_, c) => ForestText(c))
      + ForestText(f[1..])
  }

  /** `innerText` of an element of the detached fragment. */
  function InnerText(n: Node): string {
    match n
    case Text(d) => d
    case Element(_, c) => ForestText(c)
  }

  /** The tag names the selector "h1, h2, h3, h4, h5, h6" matches, in lower case. */
  const HeadingTags: set<string> := {"h1", "h2", "h3", "h4", "h5", "h6"}

  /** Selector matching on HTML elements ignores the case of the tag name. */
  predicate IsHeading(n: Node) {
    n.Element? && Lower(n.tagName) in HeadingTags
  }

  /** The tag name a browser reports for a heading is upper case ("H1".."H6"); it is
      matched by the selector, and its lower-cased form is the heading level. */
  lemma UpperCaseHeading(d: char, c: seq<Node>)
    requires '1' <= d <= '6'
    ensures Lower(['H', d]) == ['h', d]
    ensures IsHeading(Element(['H', d], c))
  {
  }

  /** Every element of a fragment in document order: an element comes before its
      descendants, and those before the element's later siblings. */
  function Elements(f: seq<Node>): (es: seq<Node>)
    ensures forall i :: 0 <= i < |es| ==> es[i].Element?
  {
    if f == [] then []
    else
      (match f[0]
       case Text(_) => []
       case Element(_, c) => [f[0]] + Elements(c))
      + Elements(f[1..])
  }

  /** The headings among a sequence of elements, keeping their order. */
  function FilterHeadings(es: seq<Node>): (hs: seq<Node>)
    ensures |hs| <= |es|
    ensures forall i :: 0 <= i < |hs| ==> IsHeading(hs[i])
  {
    if es == [] then []
    else (if IsHeading(es[0]) then [es[0]] else []) + FilterHeadings(es[1..])
  }

  /** `querySelectorAll("h1, h2, h3, h4, h5, h6")` on the fragment's container. */
  function Headings(f: seq<Node>): (hs: seq<Node>)
    ensures |hs| <= |Elements(f)|
    ensures forall i :: 0 <= i < |hs| ==> IsHeading(hs[i])
  {
    FilterHeadings(Elements(f))
  }

  lemma {:induction false} ElementsAppend(f: seq<Node>, g: seq<Node>)
    ensures Elements(f + g) == Elements(f) + Elements(g)
  {
    if f != [] {
      assert (f + g)[0] == f[0];
      assert (f + g)[1..] == f[1..] + g;
      ElementsAppend(f[1..], g);
    } else {
      assert f + g == g;
    }
  }

  lemma {:induction false} FilterHeadingsAppend(a: seq<Node>, b: seq<Node>)
    ensures FilterHeadings(a + b) == FilterHeadings(a) + FilterHeadings(b)
  {
    if a != [] {
      assert (a + b)[0] == a[0];
      assert (a + b)[1..] == a[1..] + b;
      FilterHeadingsAppend(a[1..], b);
    } else {
      assert a + b == b;
    }
  }

  /** The headings of consecutive siblings are those of the first group, then those
      of the second: document order is kept across siblings. */
  lemma HeadingsAppend(f: seq<Node>, g: seq<Node>)
    ensures Headings(f + g) == Headings(f) + Headings(g)
  {
    ElementsAppend(f, g);
    FilterHeadingsAppend(Elements(f), Elements(g));
  }

  /** A single element contributes itself when it is a heading, before the headings
      nested inside it; a text node contributes nothing. */
  lemma HeadingsOfOne(n: Node)
    ensures Headings([n]) == match n
      case Text(_) => []
      case Element(_, c) => (if IsHeading(n) then [n] else []) + Headings(c)
  {
    assert [n][0] == n && [n][1..] == [];
    match n
    case Text(_) =>
      assert Elements([n]) == [];
    case Element(_, c) =>
      var es := Elements(c);
      assert Elements([n]) == [n] + es;
      FilterHeadingsAppend([n], es);
      assert FilterHeadings([n]) == (if IsHeading(n) then [n] else []) + FilterHeadings([]);
  }

  lemma {:induction false} FilterHeadingsMembers(es: seq<Node>, x: Node)
    ensures x in FilterHeadings(es) <==> x in es && IsHeading(x)
  {
    if es != [] {
      FilterHeadingsMembers(es[1..], x);
      assert es == [es[0]] + es[1..];
    }
  }

  /** The headings found are exactly the heading elements of the fragment. */
  lemma HeadingsMembers(f: seq<Node>, x: Node)
    ensures x in Headings(f) <==> x in Elements(f) && IsHeading(x)
  {
    FilterHeadingsMembers(Elements(f), x);
  }

  /** A fragment without heading elements has no headings, and only such a fragment. */
  lemma NoHeadings(f: seq<Node>)
    ensures Headings(f) == [] <==> forall x :: x in Elements(f) ==> !IsHeading(x)
  {
    if Headings(f) != [] {
      HeadingsMembers(f, Headings(f)[0]);
    }
    forall x | x in Elements(f) && IsHeading(x) ensures Headings(f) != [] {
      HeadingsMembers(f, x);
    }
  }
}
