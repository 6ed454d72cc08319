/**
 * The pdfmake document definition `downloadPdf` assembles: a centred header,
 * the outline as an ordered list, a page break, then the patched content
 * nodes; A4 pages with margins 40/60/40/60; a footer "Page n" for page n.
 * The pdfmake meaning of styles and margins is not modelled: they are data.
 */
module DocumentDefinition {
  import opened Wrappers
  import opened Decimal
  import opened Titles
  import opened PdfContent

  /** An entry of `content`: the object literals written in `downloadPdf`, or one
      of the content nodes of the conversion (the same object, not a copy). */
  datatype Block =
    | TextBlock(text: string, style: Option<string>, alignment: Option<string>,
                margin: Option<seq<int>>, pageBreak: Option<string>)
    | OrderedList(ol: seq<Block>, listMargin: seq<int>)
    | Converted(node: ContentNode)

  datatype Style = Style(fontSize: nat, bold: bool, margin: seq<int>)

  datatype Definition = Definition(
    content: seq<Block>,
    pageSize: string,
    pageMargins: seq<int>,
    footer: nat -> Block,
    styles: map<string, Style>)

  const HeaderText: string := "Table of Contents and Indexing"

  /** The header block above the outline. */
  const Header: Block := TextBlock(HeaderText, Some("header"), Some("center"), Some([0, 20]), None)

  /** `{ text: "", pageBreak: "before" }`: the body starts on a new page. */
  const PageBreak: Block := TextBlock("", None, None, None, Some("before"))

  /** The style registry: only "header". */
  const Styles: map<string, Style> := map["header" := Style(20, true, [0, 20, 0, 10])]

  /** A block holding only a text. */
  function Plain(text: string): Block {
    TextBlock(text, None, None, None, None)
  }

  /** `titles.map(title => ({ text: title.text }))`. */
  function OutlineItems(titles: seq<Title>): (items: seq<Block>)
    ensures |items| == |titles|
    decreases |titles|
  {
    if titles == [] then [] else [Plain(titles[0].text)] + OutlineItems(titles[1..])
  }

  /** `adjustedPdfContent` spread into the content array. */
  function Body(nodes: seq<ContentNode>): (blocks: seq<Block>)
    ensures |blocks| == |nodes|
    decreases |nodes|
  {
    if nodes == [] then [] else [Converted(nodes[0])] + Body(nodes[1..])
  }

  /** The footer callback: the text of the footer of page `currentPage`. */
  function Footer(currentPage: nat): Block {
    TextBlock("Page " + FromNat(currentPage), None, Some("center"), Some([0, 10]), None)
  }

  /** `documentDefinition` for an outline and the adjusted content. */
  function Assemble(titles: seq<Title>, adjusted: seq<ContentNode>): Definition {
    Definition(
      [Header, OrderedList(OutlineItems(titles), [0, 10]), PageBreak] + Body(adjusted),
      "A4",
      [40, 60, 40, 60],
      Footer,
      Styles)
  }

  // Reading a definition back.

  /** The texts of the items of the ordered list, the second entry of `content`. */
  function TableOfContents(d: Definition): seq<string> {
    if |d.content| >= 2 && d.content[1].OrderedList? then ItemTexts(d.content[1].ol) else []
  }

  function ItemTexts(items: seq<Block>): seq<string>
    decreases |items|
  {
    if items == [] then []
    else (if items[0].TextBlock? then [items[0].text] else []) + ItemTexts(items[1..])
  }

  /** The content nodes of the conversion that `content` holds, in order. */
  function ConvertedNodes(blocks: seq<Block>): seq<ContentNode>
    decreases |blocks|
  {
    if blocks == [] then []
    else (if blocks[0].Converted? then [blocks[0].node] else []) + ConvertedNodes(blocks[1..])
  }

  /** The page number a footer text "Page <digits>" shows. */
  function PageNumberOf(text: string): Option<nat> {
    if |text| > 5 && text[..5] == "Page " && AllDigits(text[5..]) then Some(ToNat(text[5..])) else None
  }

  // Properties of the assembly.

  /** The ordered list has one item `{ text: title.text }` per title, in order. */
  lemma {:induction false} OutlineItemsTexts(titles: seq<Title>)
    ensures |OutlineItems(titles)| == |titles|
    ensures forall i :: 0 <= i < |titles| ==> OutlineItems(titles)[i] == Plain(titles[i].text)
    ensures ItemTexts(OutlineItems(titles)) == seq(|titles|, i requires 0 <= i < |titles| => titles[i].text)
    decreases |titles|
  {
    if titles != [] {
      OutlineItemsTexts(titles[1..]);
      assert OutlineItems(titles)[1..] == OutlineItems(titles[1..]);
    }
  }

  lemma {:induction false} BodyNodes(nodes: seq<ContentNode>)
    ensures |Body(nodes)| == |nodes|
    ensures forall i :: 0 <= i < |nodes| ==> Body(nodes)[i] == Converted(nodes[i])
    ensures ConvertedNodes(Body(nodes)) == nodes
    decreases |nodes|
  {
    if nodes != [] {
      BodyNodes(nodes[1..]);
      assert Body(nodes)[1..] == Body(nodes[1..]);
    }
  }

  /** The content of a definition: header, the outline, the page break, then exactly the
      adjusted nodes in their order; the outline lists the title texts in their order. */
  lemma AssembleContent(titles: seq<Title>, adjusted: seq<ContentNode>)
    ensures |Assemble(titles, adjusted).content| == 3 + |adjusted|
    ensures Assemble(titles, adjusted).content[0] == Header
    ensures Assemble(titles, adjusted).content[1] ==
      OrderedList(seq(|titles|, i requires 0 <= i < |titles| => Plain(titles[i].text)), [0, 10])
    ensures Assemble(titles, adjusted).content[2] == PageBreak
    ensures TableOfContents(Assemble(titles, adjusted)) == seq(|titles|, i requires 0 <= i < |titles| => titles[i].text)
    ensures forall i :: 0 <= i < |adjusted| ==> Assemble(titles, adjusted).content[3 + i] == Converted(adjusted[i])
    ensures ConvertedNodes(Assemble(titles, adjusted).content) == adjusted
  {
    var d := Assemble(titles, adjusted);
    OutlineItemsTexts(titles);
    assert OutlineItems(titles) == seq(|titles|, i requires 0 <= i < |titles| => Plain(titles[i].text));
    BodyNodes(adjusted);
    var front := [Header, OrderedList(OutlineItems(titles), [0, 10]), PageBreak];
    assert d.content == front + Body(adjusted);
    assert ConvertedNodes(front) == [] by {
      assert [PageBreak][1..] == [];
      assert ConvertedNodes([PageBreak]) == [];
      assert [front[1], PageBreak][1..] == [PageBreak];
      assert ConvertedNodes([front[1], PageBreak]) == [];
      assert front[1..] == [front[1], PageBreak];
    }
    ConvertedNodesAppend(front, Body(adjusted));
  }

  lemma {:induction false} ConvertedNodesAppend(a: seq<Block>, b: seq<Block>)
    ensures ConvertedNodes(a + b) == ConvertedNodes(a) + ConvertedNodes(b)
    decreases |a|
  {
    if a == [] {
      assert a + b == b;
    } else {
      assert (a + b)[0] == a[0];
      assert (a + b)[1..] == a[1..] + b;
      ConvertedNodesAppend(a[1..], b);
    }
  }

  /** Page geometry and footer: A4, margins 40, 60, 40, 60, and a centred footer
      whose text is "Page " followed by the page number. */
  lemma AssemblePage(titles: seq<Title>, adjusted: seq<ContentNode>, page: nat)
    ensures Assemble(titles, adjusted).pageSize == "A4"
    ensures Assemble(titles, adjusted).pageMargins == [40, 60, 40, 60]
    ensures Assemble(titles, adjusted).footer(page) == Footer(page)
    ensures Assemble(titles, adjusted).styles["header"] == Style(20, true, [0, 20, 0, 10])
  {
  }

  /** The footer of page n is centred and shows n. */
  lemma FooterShowsPage(n: nat)
    ensures Footer(n).text == "Page " + FromNat(n)
    ensures Footer(n).alignment == Some("center")
    ensures Footer(n).margin == Some([0, 10])
    ensures PageNumberOf(Footer(n).text) == Some(n)
  {
    var text := Footer(n).text;
    assert text[..5] == "Page ";
    assert text[5..] == FromNat(n);
    ToNatFromNat(n);
  }
}
