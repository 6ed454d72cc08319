# Export pipeline of the rich-text editor demo, in Dafny

The application is a single React component (`src/App.js`). It hosts a rich-text
editor and a "Download PDF" button. The button's handler `downloadPdf` does four things:

1. It refuses to export empty editor content.
2. It builds a numbered outline of the headings (`extractTitles`).
3. It patches every top-level node of the HTML-to-pdfmake output that carries a table,
   so the table uses the full width and has thin grey lines.
4. It assembles a pdfmake document definition, with a header, the outline as an
   ordered list, a page break, the content, A4 pages and a "Page n" footer, and
   downloads it as `document.pdf`.

The project models these steps and proves what each of them promises.

| file | module | models |
|---|---|---|
| `wrappers.dfy` | `Wrappers` | `Option` |
| `decimal.dfy` | `Decimal` | decimal text of a number (`${n}`), its read-back, ASCII `toLowerCase` |
| `dom.dfy` | `Dom` | the parsed fragment as a tree of elements and text nodes, `innerText`, `querySelectorAll("h1, …, h6")` as a pre-order traversal |
| `titles.dfy` | `Titles` | `extractTitles`: a loop that pushes one entry per heading, proved against the function `Outline` |
| `pdf_content.dfy` | `PdfContent` | content nodes and tables as objects, and the in-place `pdfContent.map` that patches tables |
| `document.dfy` | `DocumentDefinition` | the pure `documentDefinition` literal and the `footer` callback |
| `export.dfy` | `Export` | `downloadPdf` with its empty-content guard |

`extractTitles` and the table pass are imperative in the source, so they are methods with loops.
- `ExtractTitles` builds the outline with a loop and is proved equal to the
  function `Titles.Outline`, whose properties are lemmas.
- `ContentNode` and `Table` are classes with mutable `layout` and `widths` fields, and
  `AdjustContent` updates them in place.
- Its contract describes the nodes' layouts and the tables' widths after the pass as
  maps built from the snapshots taken before the pass (`LayoutsOf`, `WidthsOf`), so
  two entries may be the same object.
- `body[0].length` on a table without rows throws a `TypeError` in JavaScript. The model
  keeps that behaviour: the pass stops at the first such node (`FirstFailure`). Earlier
  nodes stay patched, and `downloadPdf` ends in the `Threw` outcome without a download.
- The document definition and the footer are pure expressions, so they are functions
  (`Assemble`, `Footer`). Their properties are stated through read-back functions:
  `TableOfContents` for the outline texts, `ConvertedNodes` for the content nodes,
  and `PageNumberOf` for the footer's page number.

## Model

| member | source | states |
|---|---|---|
| Decimal.FromNat | src/App.js:23 | the decimal text of a number is a non-empty string of digits, with a leading zero only for 0 |
| Decimal.ToNatFromNat | src/App.js:23 | reading the decimal text of n back gives n |
| Decimal.FromNatInjective | src/App.js:23 | different ordinals get different texts |
| Decimal.Lower | src/App.js:24 | `toLowerCase` of a tag name keeps its length |
| Decimal.LowerAt | src/App.js:24 | each character of the result is the input character lower-cased: an ASCII capital moves up by 32, every other character is kept |
| Dom.UpperCaseHeading | src/App.js:19-24 | the upper-case tag names "H1".."H6" that browsers report are matched by the selector and lower-case to "h1".."h6" |
| Dom.Elements | src/App.js:19 | the traversal visits only elements, never text nodes |
| Dom.InnerText | src/App.js:23 | `innerText` of a detached element: the text of its descendants, in document order (a definition; used in the entry texts of `Titles.TitleEntry`) |
| Dom.FilterHeadings | src/App.js:19 | the filter keeps only `h1`..`h6` elements and is no longer than its input |
| Dom.FilterHeadingsMembers | src/App.js:19 | a node is kept iff it is in the input and is a heading |
| Dom.Headings | src/App.js:19 | the query result holds only heading elements and is no longer than the element list |
| Dom.HeadingsAppend | src/App.js:19 | the headings of sibling groups come in document order: those of the first, then those of the second |
| Dom.HeadingsOfOne | src/App.js:19 | an element contributes itself if it is a heading, before the headings nested in it; a text node contributes nothing |
| Dom.HeadingsMembers | src/App.js:19 | a node is found iff it is a heading element of the fragment |
| Dom.NoHeadings | src/App.js:19 | the query result is empty iff the fragment has no heading element |
| Titles.Numbered | src/App.js:22-25 | an entry's level, the lower-cased tag name, is one of "h1".."h6" |
| Titles.Outline | src/App.js:19-27 | the outline of a fragment has exactly one entry per heading |
| Titles.NumberFromAt | src/App.js:21-26 | numbering from k gives one entry per heading, and entry i is numbered k + i |
| Titles.TitleAt | src/App.js:21-25 | the outline has one entry per heading, and entry i is the (i+1)-th heading numbered i + 1 |
| Titles.OutlineLength | src/App.js:19-27 | the outline is as long as the heading list, and empty iff the fragment has no headings |
| Titles.OrdinalOfNumbered | src/App.js:23 | the number in front of "n. text" reads back as n |
| Titles.TitleEntry | src/App.js:19-24 | entry i has ordinal i + 1, text "(i+1). " + innerText of the i-th heading, and a level among "h1".."h6" |
| Titles.ExtractTitles | src/App.js:16-28 | the loop returns exactly the outline `Outline` of the parsed content |
| PdfContent.StarWidths | src/App.js:42 | `new Array(n).fill("*")` has length n and only "*" entries |
| PdfContent.PatchLayouts | src/App.js:39-55 | the layouts after the pass are defined for exactly the nodes they were defined for before |
| PdfContent.PatchWidths | src/App.js:39-55 | the widths after the pass are defined for exactly the tables they were defined for before |
| PdfContent.ContentNode.Adjust | src/App.js:40-54 | for a table with rows: widths = one "*" per first-row cell and the fixed layout; throws on a table without rows; a node without a table is left as it was |
| PdfContent.FirstFailure | src/App.js:39-55 | the stop index: every earlier callback returns, and the callback at that index throws |
| PdfContent.FirstFailureUnique | src/App.js:39-55 | the stop index is the only index with that property |
| PdfContent.PatchedTables | src/App.js:40-52 | every table node reached has the layout 0.5/0.5/"#aaa"/"#aaa"/4/4, a non-empty body, and widths of "*" as long as its first row |
| PdfContent.UntouchedNodes | src/App.js:39-55 | a node without a table, and any node or table not reached, keeps its old value |
| PdfContent.PatchStep | src/App.js:39-55 | one more callback updates exactly the current node's layout and its table's widths |
| PdfContent.AdjustEntry | src/App.js:40-54 | the callback on entry i changes the layout map and the widths map at that entry only |
| PdfContent.AdjustContent | src/App.js:39-55 | the map returns the very same sequence iff no callback throws, else the TypeError index; layouts and widths after it are the patch up to the stop index |
| DocumentDefinition.OutlineItems | src/App.js:67-69 | one list item per title |
| DocumentDefinition.OutlineItemsTexts | src/App.js:67-69 | item i is exactly `{ text: title.text }` of title i, and the item texts are the title texts in order |
| DocumentDefinition.Body | src/App.js:73 | one content entry per adjusted node |
| DocumentDefinition.BodyNodes | src/App.js:73 | spreading the adjusted content keeps every node, in order, the same object |
| DocumentDefinition.Assemble | src/App.js:58-91 | the `documentDefinition` literal (a definition; its properties are stated by `AssembleContent` and `AssemblePage`) |
| DocumentDefinition.AssembleContent | src/App.js:58-74 | content = header, the ordered list of `{ text }` items of the titles with margin [0,10], page break, then the adjusted nodes; length 3 + number of nodes |
| DocumentDefinition.AssemblePage | src/App.js:75-90 | page size "A4", margins [40,60,40,60], the footer callback, and the header style (20, bold, [0,20,0,10]) |
| DocumentDefinition.Footer | src/App.js:77-83 | the footer callback (a definition; its properties are stated by `FooterShowsPage`) |
| DocumentDefinition.FooterShowsPage | src/App.js:77-83 | the footer of page n has exactly the text "Page " + the decimal text of n, centred, with margin [0,10], and its number reads back as n |
| Export.DownloadPdf | src/App.js:30-98 | empty content: only the logged error, no node or table changed; otherwise the assembled definition is downloaded as "document.pdf" iff no table lacks rows, else a TypeError; the patch up to the stop index in both cases |
| Export.ExportedOutline | src/App.js:58-71 | the exported outline lists one item per heading; item i reads back ordinal i + 1 and carries that heading's text |
| Export.ExportWithoutHeadings | src/App.js:58-74 | content without headings still gets the header, the ordered list with no items and margin [0,10], and the page break |

## Left out

- HTML parsing (`document.createElement`, `innerHTML`) is the parameter `parse` of `ExtractTitles`
  and `DownloadPdf`. `innerText` is the descendant text content of the parsed tree; the
  whitespace and CSS rules that a rendered element's `innerText` follows are not modelled.
- `htmlToPdfmake` is a foreign library. Its output is the arbitrary node sequence `pdfContent`,
  and the third-party conversion is not part of this model.
- Fonts and vfs registration, `pdfMake.createPdf(...).download(...)` and `console.error` are
  I/O. They appear only as the `Downloaded` and `Logged` outcomes of `DownloadPdf`.
- The React state hook, CKEditor, its toolbar configuration and the markup are UI. They carry no
  logic beyond replacing the content string, which `DownloadPdf` takes as its argument.
- The pdfmake layout callbacks are constant functions, recorded as their constant values in
  `Layout.Lines`. Styles, margins and alignment are data; how pdfmake renders them is not modelled.
- Decimal.LowerChar: `toLowerCase` is modelled for ASCII letters only. HTML tag names that
  match the heading selector are ASCII.
- Nested tables: `pdfContent.map` visits only the top-level nodes. A table that sits inside a
  stack, a list item or a table cell is never patched by the source, and the model does not
  represent nested content at all: it is part of a node's untouched `properties`.
- PdfContent.Cell: the cells of a table are abstracted to a text; only the number of cells
  in the first body row matters to the pass.
- PdfContent.ContentNode: `node.table`, `table.body` and the rest of a node are never reassigned
  by the pipeline and are modelled as constant fields. Only `layout` and `widths` are mutable.
- DocumentDefinition.Footer: pdfmake calls the footer with positive page numbers. The model takes
  any `nat` and formats it the same way.
