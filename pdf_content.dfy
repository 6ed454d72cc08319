/**
 * The content nodes the HTML-to-pdfmake conversion returns, and the pass of
 * `downloadPdf` that patches every table among them in place: equal flexible
 * column widths ("*" per cell of the first body row) and a fixed thin grey
 * border layout with padding 4. The conversion itself is not modelled; its
 * output is an arbitrary sequence of nodes. Nodes and tables are objects, so a
 * patched node is the very object of the input sequence, and two entries of
 * the sequence may be the same object.
 */
module PdfContent {
  import opened Wrappers

  /** A table cell; only the number of cells of the first row matters here. */
  datatype Cell = Cell(text: string)

  /** A pdfmake layout: a predefined one by name, or the line and padding callbacks,
      each of them a constant function kept here as its constant. */
  datatype Layout =
    | Named(name: string)
    | Lines(hLineWidth: real, vLineWidth: real, hLineColor: string, vLineColor: string,
            paddingLeft: int, paddingRight: int)

  /** The layout attached to every table. */
  const TableLayout: Layout := Lines(0.5, 0.5, "#aaa", "#aaa", 4, 4)

  /** `new Array(n).fill("*")`: one flexible share per column. */
  function StarWidths(n: nat): (w: seq<string>)
    ensures |w| == n && forall i :: 0 <= i < n ==> w[i] == "*"
  {
    seq(n, _ => "*")
  }

  class Table {
    const body: seq<seq<Cell>>
    var widths: Option<seq<string>>

    constructor (body: seq<seq<Cell>>, widths: Option<seq<string>>)
      ensures this.body == body && this.widths == widths
    {
      this.body := body;
      this.widths := widths;
    }
  }

  class ContentNode {
    /** The rest of the node (text, style, list items, ...), which the pass never touches. */
    const properties: map<string, string>
    /** The `table` member, null when the node is not a table. */
    const table: Table?
    var layout: Option<Layout>

    constructor (properties: map<string, string>, table: Table?, layout: Option<Layout>)
      ensures this.properties == properties && this.table == table && this.layout == layout
    {
      this.properties := properties;
      this.table := table;
      this.layout := layout;
    }

    /** The map callback for this node (src/App.js:40-54). `ok` is false when it
        throws: a table with no body row has no `body[0].length`. */
    method Adjust() returns (ok: bool)
      modifies this, if table != null then {table} else {}
      ensures ok <==> Patchable(this)
      ensures table != null && ok ==> layout == Some(TableLayout)
      ensures table != null && ok ==> table.widths == Some(StarWidths(|table.body[0]|))
      ensures table == null || !ok ==> layout == old(layout)
      ensures table != null && !ok ==> table.widths == old(table.widths)
    {
      if table != null {
        if |table.body| == 0 {
          return false;
        }
        table.widths := Some(StarWidths(|table.body[0]|));
        layout := Some(TableLayout);
      }
      return true;
    }
  }

  /** The callback returns normally on n: n is no table, or a table with a first row. */
  predicate Patchable(n: ContentNode) {
    n.table == null || |n.table.body| > 0
  }

  /** The tables of the nodes of s. */
  function TablesOf(s: seq<ContentNode>): set<Table> {
    set n | n in s && n.table != null :: n.table
  }

  lemma TablesOfSnoc(s: seq<ContentNode>, x: ContentNode)
    ensures TablesOf(s + [x]) == TablesOf(s) + if x.table != null then {x.table} else {}
  {
  }

  /** The index of the first node on which the callback throws; |s| when there is none. */
  function FirstFailure(s: seq<ContentNode>): (k: nat)
    ensures k <= |s|
    ensures forall j :: 0 <= j < k ==> Patchable(s[j])
    ensures k < |s| ==> !Patchable(s[k])
    decreases |s|
  {
    if s == [] || !Patchable(s[0]) then 0 else 1 + FirstFailure(s[1..])
  }

  /** The first failure is the only index before which every callback returns and at
      which (unless it is |s|) the callback throws. */
  lemma {:induction false} FirstFailureUnique(s: seq<ContentNode>, k: nat)
    requires k <= |s|
    requires forall j :: 0 <= j < k ==> Patchable(s[j])
    requires k < |s| ==> !Patchable(s[k])
    ensures k == FirstFailure(s)
    decreases |s|
  {
    if k > 0 {
      FirstFailureUnique(s[1..], k - 1);
    }
  }

  /** The result of `pdfContent.map(...)`: the adjusted sequence, or the index of the
      node whose callback threw the TypeError that ends `downloadPdf`. */
  datatype MapResult = Mapped(adjusted: seq<ContentNode>) | TypeError(index: nat)

  /** The layouts of the nodes of s, as a map from node to layout. */
  ghost function LayoutsOf(s: seq<ContentNode>): (m: map<ContentNode, Option<Layout>>)
    reads s
    ensures m.Keys == set n | n in s
  {
    map n | n in s :: n.layout
  }

  /** The widths of the tables of the nodes of s, as a map from table to widths. */
  ghost function WidthsOf(s: seq<ContentNode>): (m: map<Table, Option<seq<string>>>)
    reads TablesOf(s)
    ensures m.Keys == TablesOf(s)
  {
    map t | t in TablesOf(s) :: t.widths
  }

  /** The layouts after the callbacks for the first `done` entries of s have run, from
      the layouts `before` the pass: a table node reached gets the table layout. */
  function PatchLayouts(s: seq<ContentNode>, done: nat, before: map<ContentNode, Option<Layout>>)
    : (after: map<ContentNode, Option<Layout>>)
    requires done <= |s|
    ensures after.Keys == before.Keys
  {
    map n | n in before :: if n.table != null && n in s[..done] then Some(TableLayout) else before[n]
  }

  /** The widths after the callbacks for the first `done` entries of s have run, from
      the widths `before` the pass: a table reached gets one "*" per cell of its first row. */
  function PatchWidths(s: seq<ContentNode>, done: nat, before: map<Table, Option<seq<string>>>)
    : (after: map<Table, Option<seq<string>>>)
    requires done <= |s|
    ensures after.Keys == before.Keys
  {
    map t | t in before :: if t in TablesOf(s[..done]) then Some(StarWidths(FirstRowLength(t))) else before[t]
  }

  /** `body[0].length`, for a table with a body row. */
  function FirstRowLength(t: Table): nat {
    if |t.body| == 0 then 0 else |t.body[0]|
  }

  /** Every table node among the first `done` entries ends with the table layout and
      with one "*" width per cell of its first body row. */
  lemma PatchedTables(s: seq<ContentNode>, done: nat, layouts: map<ContentNode, Option<Layout>>,
                      widths: map<Table, Option<seq<string>>>, j: nat)
    requires j < done <= |s|
    requires forall k :: 0 <= k < done ==> Patchable(s[k])
    requires s[j] in layouts && s[j].table != null && s[j].table in widths
    ensures PatchLayouts(s, done, layouts)[s[j]] == Some(TableLayout)
    ensures |s[j].table.body| > 0
    ensures PatchWidths(s, done, widths)[s[j].table] == Some(StarWidths(|s[j].table.body[0]|))
  {
  }

  /** A node that is no table keeps its layout; so do nodes and tables not reached. */
  lemma UntouchedNodes(s: seq<ContentNode>, done: nat, layouts: map<ContentNode, Option<Layout>>,
                       widths: map<Table, Option<seq<string>>>, n: ContentNode)
    requires done <= |s|
    requires forall k :: 0 <= k < done ==> Patchable(s[k])
    requires n in layouts
    ensures n.table == null || n !in s[..done] ==> PatchLayouts(s, done, layouts)[n] == layouts[n]
    ensures n.table != null && n.table in widths && n.table !in TablesOf(s[..done]) ==>
      PatchWidths(s, done, widths)[n.table] == widths[n.table]
  {
  }

  /** Running the callback on entry i extends the patched prefix by one entry. */
  lemma PatchStep(s: seq<ContentNode>, i: nat, layouts: map<ContentNode, Option<Layout>>,
                  widths: map<Table, Option<seq<string>>>)
    requires i < |s|
    requires forall k :: 0 <= k <= i ==> Patchable(s[k])
    ensures PatchLayouts(s, i + 1, layouts) ==
      if s[i].table != null && s[i] in layouts then PatchLayouts(s, i, layouts)[s[i] := Some(TableLayout)]
      else PatchLayouts(s, i, layouts)
    ensures PatchWidths(s, i + 1, widths) ==
      if s[i].table != null && s[i].table in widths
      then PatchWidths(s, i, widths)[s[i].table := Some(StarWidths(FirstRowLength(s[i].table)))]
      else PatchWidths(s, i, widths)
  {
    assert s[..i + 1] == s[..i] + [s[i]];
    TablesOfSnoc(s[..i], s[i]);
  }

  /** The callback on entry i, with its effect on the layouts and widths maps. */
  method AdjustEntry(s: seq<ContentNode>, i: nat) returns (ok: bool)
    requires i < |s|
    modifies s[i], if s[i].table != null then {s[i].table} else {}
    ensures ok == Patchable(s[i])
    ensures LayoutsOf(s) ==
      if ok && s[i].table != null then old(LayoutsOf(s))[s[i] := Some(TableLayout)] else old(LayoutsOf(s))
    ensures WidthsOf(s) ==
      if ok && s[i].table != null
      then old(WidthsOf(s))[s[i].table := Some(StarWidths(|s[i].table.body[0]|))]
      else old(WidthsOf(s))
  {
    ok := s[i].Adjust();
  }

  /** The `pdfContent.map` of `downloadPdf` (src/App.js:39-55). */
  method AdjustContent(pdfContent: seq<ContentNode>) returns (r: MapResult)
    modifies pdfContent, TablesOf(pdfContent)
    ensures r == if FirstFailure(pdfContent) == |pdfContent| then Mapped(pdfContent)
                 else TypeError(FirstFailure(pdfContent))
    ensures r.Mapped? <==> forall i :: 0 <= i < |pdfContent| ==> Patchable(pdfContent[i])
    ensures LayoutsOf(pdfContent) ==
      PatchLayouts(pdfContent, FirstFailure(pdfContent), old(LayoutsOf(pdfContent)))
    ensures WidthsOf(pdfContent) ==
      PatchWidths(pdfContent, FirstFailure(pdfContent), old(WidthsOf(pdfContent)))
  {
    ghost var layouts := LayoutsOf(pdfContent);
    ghost var widths := WidthsOf(pdfContent);
    var i := 0;
    while i < |pdfContent|
      invariant i <= |pdfContent|
      invariant forall j :: 0 <= j < i ==> Patchable(pdfContent[j])
      invariant LayoutsOf(pdfContent) == PatchLayouts(pdfContent, i, layouts)
      invariant WidthsOf(pdfContent) == PatchWidths(pdfContent, i, widths)
    {
      var ok := AdjustEntry(pdfContent, i);
      if !ok {
        r := TypeError(i);
        break;
      }
      PatchStep(pdfContent, i, layouts, widths);
      i := i + 1;
    }
    if i == |pdfContent| {
      r := Mapped(pdfContent);
    }
    FirstFailureUnique(pdfContent, i);
  }
}
