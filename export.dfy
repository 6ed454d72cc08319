/**
 * `downloadPdf`: the click handler of the "Download PDF" button. With empty
 * editor content it only logs an error. Otherwise it numbers the headings,
 * patches the tables of the converted content in place, assembles the
 * document definition and hands it to pdfmake to download as "document.pdf".
 * The HTML parser behind `innerHTML` is the parameter `parse`; the result of
 * `htmlToPdfmake(editorContent)` is the parameter `pdfContent`; creating and
 * downloading the PDF is recorded as the `Downloaded` outcome.
 */
module Export {
  import opened Wrappers
  import opened Dom
  import opened Titles
  import opened PdfContent
  import opened DocumentDefinition

  datatype Outcome =
    | Downloaded(definition: Definition, fileName: string)
    | Logged(message: string)
    | Threw(error: string)

  const EmptyContentMessage: string := "Editor content is empty"
  const FileName: string := "document.pdf"

  /** The click handler (src/App.js:30-98). */
  method DownloadPdf(editorContent: string, parse: string -> seq<Node>, pdfContent: seq<ContentNode>)
    returns (outcome: Outcome)
    modifies pdfContent, TablesOf(pdfContent)
    ensures editorContent == [] ==> outcome == Logged(EmptyContentMessage)
    ensures editorContent == [] ==>
      LayoutsOf(pdfContent) == old(LayoutsOf(pdfContent)) && WidthsOf(pdfContent) == old(WidthsOf(pdfContent))
    ensures editorContent != [] ==>
      && outcome == (if FirstFailure(pdfContent) == |pdfContent|
                     then Downloaded(Assemble(Outline(parse(editorContent)), pdfContent), FileName)
                     else Threw("TypeError"))
      && LayoutsOf(pdfContent) ==
           PatchLayouts(pdfContent, FirstFailure(pdfContent), old(LayoutsOf(pdfContent)))
      && WidthsOf(pdfContent) ==
           PatchWidths(pdfContent, FirstFailure(pdfContent), old(WidthsOf(pdfContent)))
  {
    if editorContent != [] {
      var titles := ExtractTitles(editorContent, parse);
      var mapped := AdjustContent(pdfContent);
      match mapped
      case Mapped(adjusted) =>
        outcome := Downloaded(Assemble(titles, adjusted), FileName);
      case TypeError(_) =>
        outcome := Threw("TypeError");
    } else {
      outcome := Logged(EmptyContentMessage);
    }
  }

  /** The outline in an exported document lists one item per heading of the content,
      and the item at 0-based index i carries the ordinal i + 1 and the text of the
      (i+1)-th heading. */
  lemma ExportedOutline(html: string, parse: string -> seq<Node>, adjusted: seq<ContentNode>, i: nat)
    requires i < |Headings(parse(html))|
    ensures |TableOfContents(Assemble(Outline(parse(html)), adjusted))| == |Headings(parse(html))|
    ensures OrdinalOf(TableOfContents(Assemble(Outline(parse(html)), adjusted))[i]) == Some(i + 1)
    ensures TableOfContents(Assemble(Outline(parse(html)), adjusted))[i] ==
      Decimal.FromNat(i + 1) + ". " + InnerText(Headings(parse(html))[i])
  {
    var fragment := parse(html);
    AssembleContent(Outline(fragment), adjusted);
    TitleEntry(fragment, i);
  }

  /** A fragment without headings still gets the header, the ordered list with no
      items, and the page break before its content. */
  lemma ExportWithoutHeadings(fragment: seq<Node>, adjusted: seq<ContentNode>)
    requires forall x :: x in Elements(fragment) ==> !IsHeading(x)
    ensures Assemble(Outline(fragment), adjusted).content[0] == Header
    ensures Assemble(Outline(fragment), adjusted).content[1] == OrderedList([], [0, 10])
    ensures TableOfContents(Assemble(Outline(fragment), adjusted)) == []
    ensures Assemble(Outline(fragment), adjusted).content[2] == PageBreak
    ensures |Assemble(Outline(fragment), adjusted).content| == 3 + |adjusted|
  {
    OutlineLength(fragment);
    AssembleContent(Outline(fragment), adjusted);
  }
}
