/**
 * `extractTitles`: the numbered outline of the editor content. Every heading of
 * the parsed fragment, in document order, becomes an entry whose text is its
 * 1-based position, ". " and the heading's text, and whose level is the
 * heading's tag name in lower case.
 */
module Titles {
  import opened Wrappers
  import opened Decimal
  import opened Dom

  datatype Title = Title(text: string, level: string)

  /** The entry for the heading numbered `ordinal`. */
  function Numbered(ordinal: nat, heading: Node): (t: Title)
    requires IsHeading(heading)
    ensures t.level in HeadingTags
  {
    Title(FromNat(ordinal) + ". " + InnerText(heading), Lower(heading.tagName))
  }

  /** Numbers the headings hs consecutively, the first one with k. */
  function NumberFrom(k: nat, hs: seq<Node>): seq<Title>
    requires forall i :: 0 <= i < |hs| ==> IsHeading(hs[i])
    decreases |hs|
  {
    if hs == [] then [] else [Numbered(k, hs[0])] + NumberFrom(k + 1, hs[1..])
  }

  /** The outline `extractTitles` returns for a parsed fragment. */
  function Outline(fragment: seq<Node>): (titles: seq<Title>)
    ensures |titles| == |Headings(fragment)|
  {
    NumberFromLength(1, Headings(fragment));
    NumberFrom(1, Headings(fragment))
  }

  lemma {:induction false} NumberFromAt(k: nat, hs: seq<Node>, i: nat)
    requires forall j :: 0 <= j < |hs| ==> IsHeading(hs[j])
    requires i < |hs|
    ensures |NumberFrom(k, hs)| == |hs|
    decreases |hs|
    ensures NumberFrom(k, hs)[i] == Numbered(k + i, hs[i])
  {
    if i > 0 {
      NumberFromAt(k + 1, hs[1..], i - 1);
    } else if |hs| > 1 {
      NumberFromAt(k + 1, hs[1..], 0);
    } else {
      assert hs[1..] == [];
    }
  }

  lemma {:induction false} NumberFromLength(k: nat, hs: seq<Node>)
    requires forall j :: 0 <= j < |hs| ==> IsHeading(hs[j])
    ensures |NumberFrom(k, hs)| == |hs|
    decreases |hs|
  {
    if hs != [] {
      NumberFromLength(k + 1, hs[1..]);
    }
  }

  /** One entry per heading; the entry at index i is the (i+1)-th heading, numbered i + 1. */
  lemma TitleAt(fragment: seq<Node>, i: nat)
    requires i < |Headings(fragment)|
    ensures |Outline(fragment)| == |Headings(fragment)|
    ensures Outline(fragment)[i] == Numbered(i + 1, Headings(fragment)[i])
  {
    NumberFromAt(1, Headings(fragment), i);
  }

  /** An outline has as many entries as the fragment has headings; none when there are none. */
  lemma OutlineLength(fragment: seq<Node>)
    ensures |Outline(fragment)| == |Headings(fragment)|
    ensures Outline(fragment) == [] <==> forall x :: x in Elements(fragment) ==> !IsHeading(x)
  {
    NumberFromLength(1, Headings(fragment));
    NoHeadings(fragment);
  }

  /** Reads back the number at the front of an entry's text ("12. Intro" gives 12). */
  function OrdinalOf(text: string): Option<nat> {
    var k := DigitPrefixLength(text);
    if 0 < k && text[k..] != [] && text[k] == '.' then Some(ToNat(text[..k])) else None
  }

  lemma OrdinalOfNumbered(n: nat, rest: string)
    ensures OrdinalOf(FromNat(n) + ". " + rest) == Some(n)
  {
    var d := FromNat(n);
    var text := d + ". " + rest;
    assert text == d + (". " + rest);
    DigitPrefixOf(d, ". " + rest);
    assert text[..|d|] == d;
    assert text[|d|] == '.';
    ToNatFromNat(n);
  }

  /** The entry at 0-based index i carries the ordinal i + 1, the text of the (i+1)-th
      heading and a level among "h1".."h6": the ordinals of an outline are exactly 1..N. */
  lemma TitleEntry(fragment: seq<Node>, i: nat)
    requires i < |Headings(fragment)|
    ensures |Outline(fragment)| == |Headings(fragment)|
    ensures OrdinalOf(Outline(fragment)[i].text) == Some(i + 1)
    ensures Outline(fragment)[i].text == FromNat(i + 1) + ". " + InnerText(Headings(fragment)[i])
    ensures Outline(fragment)[i].level in HeadingTags
  {
    OutlineLength(fragment);
    TitleAt(fragment, i);
    OrdinalOfNumbered(i + 1, InnerText(Headings(fragment)[i]));
  }

  /** `extractTitles` (src/App.js): builds the outline by pushing one entry per
      heading inside a loop over the query result. */
  method ExtractTitles(htmlContent: string, parse: string -> seq<Node>) returns (titles: seq<Title>)
    ensures titles == Outline(parse(htmlContent))
  {
    var fragment := parse(htmlContent);
    var headings := Headings(fragment);
    titles := [];
    var index := 0;
    while index < |headings|
      invariant index <= |headings|
      invariant |titles| == index
      invariant forall j :: 0 <= j < index ==> titles[j] == Numbered(j + 1, headings[j])
    {
      titles := titles + [Numbered(index + 1, headings[index])];
      index := index + 1;
    }
    OutlineLength(fragment);
    forall j | 0 <= j < |titles| ensures titles[j] == Outline(fragment)[j] {
      TitleAt(fragment, j);
    }
  }
}
