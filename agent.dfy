/** `PDFExtractionAgent`: a fixed four-stage workflow over a shared state record.
    The text, table and image tools each fill one field; the last stage asks the
    agent's model to merge them into one document, whose reply is the result. */
module Agent {
  import opened Wrappers
  import opened PyText
  import opened Oracles
  import PdfReader
  import TableExtractor
  import ImageExtractor

  type TableRecord = TableExtractor.TableRecord
  type ImageRecord = ImageExtractor.ImageRecord

  // ---------------------------------------------------------------------------
  // The workflow state and the graph
  // ---------------------------------------------------------------------------

  /** `PDFExtractionState`, a dictionary whose keys may be absent: `None` is an
      absent key. */
  datatype ExtractionState = ExtractionState(
    pdfPath: string,
    text: Option<string>,
    tables: Option<seq<TableRecord>>,
    images: Option<seq<ImageRecord>>,
    finalContent: Option<string>)

  /** The state `aprocess` starts the workflow with: only the document's path. */
  function Initial(pdfPath: string): ExtractionState {
    ExtractionState(pdfPath, None, None, None, None)
  }

  /** How the graph applies the dictionary a node returns: every key the node
      returns replaces that key, every other key is kept. */
  function Merge(s: ExtractionState, update: ExtractionState): (m: ExtractionState)
    ensures m.pdfPath == update.pdfPath
    ensures update.text.Some? ==> m.text == update.text
    ensures update.text.None? ==> m.text == s.text
    ensures update.tables.Some? ==> m.tables == update.tables
    ensures update.tables.None? ==> m.tables == s.tables
    ensures update.images.Some? ==> m.images == update.images
    ensures update.images.None? ==> m.images == s.images
    ensures update.finalContent.Some? ==> m.finalContent == update.finalContent
    ensures update.finalContent.None? ==> m.finalContent == s.finalContent
  {
    ExtractionState(
      update.pdfPath,
      if update.text.Some? then update.text else s.text,
      if update.tables.Some? then update.tables else s.tables,
      if update.images.Some? then update.images else s.images,
      if update.finalContent.Some? then update.finalContent else s.finalContent)
  }

  datatype Node = TextNode | TablesNode | ImagesNode | CombineNode

  datatype Target = To(node: Node) | End

  /** The edges `_create_workflow` adds, in order, and its entry point. */
  const Edges: seq<(Node, Target)> :=
    [(TextNode, To(TablesNode)), (TablesNode, To(ImagesNode)),
     (ImagesNode, To(CombineNode)), (CombineNode, End)]

  const EntryPoint: Node := TextNode

  /** Where the first edge leaving `n` goes, if any edge does. */
  function Successor(edges: seq<(Node, Target)>, n: Node): (t: Option<Target>)
    ensures t.Some? <==> exists k :: 0 <= k < |edges| && edges[k].0 == n
  {
    if edges == [] then None
    else if edges[0].0 == n then Some(edges[0].1)
    else
      var t := Successor(edges[1..], n);
      assert forall k :: 1 <= k < |edges| ==> edges[k] == edges[1..][k - 1];
      t
  }

  /** The nodes a run starting at `n` visits, in order, when it reaches `End`
      within `fuel` steps; `None` when it does not. */
  function Route(edges: seq<(Node, Target)>, n: Node, fuel: nat): (r: Option<seq<Node>>)
    ensures r.Some? ==> 0 < |r.value| <= fuel && r.value[0] == n
    decreases fuel
  {
    if fuel == 0 then None
    else match Successor(edges, n)
      case None => None
      case Some(End) => Some([n])
      case Some(To(m)) =>
        match Route(edges, m, fuel - 1)
        case None => None
        case Some(rest) => Some([n] + rest)
  }

  /** Every node has exactly one outgoing edge and no two edges leave the same node. */
  lemma {:induction false} EachNodeHasOneEdge()
    ensures forall n: Node :: Successor(Edges, n).Some?
    ensures forall i, j :: 0 <= i < j < |Edges| ==> Edges[i].0 != Edges[j].0
  {
    assert Edges[0].0 == TextNode && Edges[1].0 == TablesNode;
    assert Edges[2].0 == ImagesNode && Edges[3].0 == CombineNode;
  }

  /** The workflow is linear: text, tables, images, combination, then the end. */
  lemma {:induction false} WorkflowIsLinear()
    ensures Route(Edges, EntryPoint, |Edges|) == Some([TextNode, TablesNode, ImagesNode, CombineNode])
  {
    assert Successor(Edges, CombineNode) == Some(End);
    assert Route(Edges, CombineNode, 1) == Some([CombineNode]);
    assert Successor(Edges, ImagesNode) == Some(To(CombineNode));
    assert Route(Edges, ImagesNode, 2) == Some([ImagesNode] + [CombineNode]);
    assert [ImagesNode] + [CombineNode] == [ImagesNode, CombineNode];
    assert Successor(Edges, TablesNode) == Some(To(ImagesNode));
    assert Route(Edges, TablesNode, 3) == Some([TablesNode] + [ImagesNode, CombineNode]);
    assert [TablesNode] + [ImagesNode, CombineNode] == [TablesNode, ImagesNode, CombineNode];
    assert [TextNode] + [TablesNode, ImagesNode, CombineNode] == [TextNode, TablesNode, ImagesNode, CombineNode];
    assert Successor(Edges, TextNode) == Some(To(TablesNode));
  }

  // ---------------------------------------------------------------------------
  // Formatting the extracted elements
  // ---------------------------------------------------------------------------

  const NoTextExtracted := "No text extracted"
  const NoTablesExtracted := "No tables extracted"
  const NoImagesExtracted := "No images extracted"

  const TableLabel := "Table "
  const TableSep := ":\n"
  const ImageLabel := "Image "
  const ImageSep := ": "

  /** The n-th entry of a numbered list: `tag + str(n) + sep + body + "\n\n"`. */
  function Block(tag: string, sep: string, n: nat, body: string): string {
    tag + NatStr(n) + sep + body + "\n\n"
  }

  /** The blocks of `bodies`, numbered from 1, accumulated entry by entry. */
  function Blocks(tag: string, sep: string, bodies: seq<string>): string {
    if bodies == [] then ""
    else Blocks(tag, sep, bodies[..|bodies| - 1]) + Block(tag, sep, |bodies|, bodies[|bodies| - 1])
  }

  function Markdowns(tables: seq<TableRecord>): (ms: seq<string>)
    ensures |ms| == |tables| && forall k :: 0 <= k < |tables| ==> ms[k] == tables[k].markdown
  {
    seq(|tables|, k requires 0 <= k < |tables| => tables[k].markdown)
  }

  function Descriptions(images: seq<ImageRecord>): (ds: seq<string>)
    ensures |ds| == |images| && forall k :: 0 <= k < |images| ==> ds[k] == images[k].description
  {
    seq(|images|, k requires 0 <= k < |images| => images[k].description)
  }

  /** What `_format_tables` returns. */
  function TablesSection(tables: seq<TableRecord>): string {
    if tables == [] then NoTablesExtracted else Blocks(TableLabel, TableSep, Markdowns(tables))
  }

  /** What `_format_images` returns. */
  function ImagesSection(images: seq<ImageRecord>): string {
    if images == [] then NoImagesExtracted else Blocks(ImageLabel, ImageSep, Descriptions(images))
  }

  /** `_format_tables`: the sentinel for an empty list, otherwise
      `"Table {i+1}:\n{markdown}\n\n"` for each table in order. */
  method FormatTables(tables: seq<TableRecord>) returns (result: string)
    ensures result == TablesSection(tables)
  {
    if tables == [] {
      return NoTablesExtracted;
    }
    result := "";
    for i := 0 to |tables|
      invariant result == Blocks(TableLabel, TableSep, Markdowns(tables[..i]))
    {
      assert Markdowns(tables[..i + 1])[..i] == Markdowns(tables[..i]);
      result := result + Block(TableLabel, TableSep, i + 1, tables[i].markdown);
    }
    assert tables[..|tables|] == tables;
  }

  /** `_format_images`: the sentinel for an empty list, otherwise
      `"Image {i+1}: {description}\n\n"` for each image in order. */
  method FormatImages(images: seq<ImageRecord>) returns (result: string)
    ensures result == ImagesSection(images)
  {
    if images == [] {
      return NoImagesExtracted;
    }
    result := "";
    for i := 0 to |images|
      invariant result == Blocks(ImageLabel, ImageSep, Descriptions(images[..i]))
    {
      assert Descriptions(images[..i + 1])[..i] == Descriptions(images[..i]);
      result := result + Block(ImageLabel, ImageSep, i + 1, images[i].description);
    }
    assert images[..|images|] == images;
  }

  /** A non-empty list starts with its tag: block 1 comes first. */
  lemma {:induction false} BlocksHead(tag: string, sep: string, bodies: seq<string>)
    requires bodies != [] && tag != []
    ensures |Blocks(tag, sep, bodies)| > 0 && Blocks(tag, sep, bodies)[0] == tag[0]
  {
    var init := bodies[..|bodies| - 1];
    if init != [] {
      BlocksHead(tag, sep, init);
    } else {
      assert Blocks(tag, sep, bodies) == "" + Block(tag, sep, 1, bodies[0]);
    }
  }

  /** The sentinels appear exactly for empty lists: a list with entries starts
      with "Table " or "Image ", never with "No". */
  lemma {:induction false} SectionSentinelIff(tables: seq<TableRecord>, images: seq<ImageRecord>)
    ensures TablesSection(tables) == NoTablesExtracted <==> tables == []
    ensures ImagesSection(images) == NoImagesExtracted <==> images == []
  {
    if tables != [] {
      BlocksHead(TableLabel, TableSep, Markdowns(tables));
      assert NoTablesExtracted[0] != TableLabel[0];
    }
    if images != [] {
      BlocksHead(ImageLabel, ImageSep, Descriptions(images));
      assert NoImagesExtracted[0] != ImageLabel[0];
    }
  }

  /** Reference definition: block `first`, then the rest numbered on. */
  function ConcatBlocks(tag: string, sep: string, bodies: seq<string>, first: nat): string
    decreases |bodies|
  {
    if bodies == [] then "" else Block(tag, sep, first, bodies[0]) + ConcatBlocks(tag, sep, bodies[1..], first + 1)
  }

  lemma {:induction false} ConcatBlocksSnoc(tag: string, sep: string, bodies: seq<string>, b: string, first: nat)
    ensures ConcatBlocks(tag, sep, bodies + [b], first)
         == ConcatBlocks(tag, sep, bodies, first) + Block(tag, sep, first + |bodies|, b)
    decreases |bodies|
  {
    if bodies != [] {
      var t := bodies[1..];
      assert (bodies + [b])[0] == bodies[0] && (bodies + [b])[1..] == t + [b];
      ConcatBlocksSnoc(tag, sep, t, b, first + 1);
      var h := Block(tag, sep, first, bodies[0]);
      var x := ConcatBlocks(tag, sep, t, first + 1);
      var tail := Block(tag, sep, first + |bodies|, b);
      assert ConcatBlocks(tag, sep, bodies + [b], first) == h + (x + tail);
      ConcatAssoc(h, x, tail);
    } else {
      assert [] + [b] == [b];
    }
  }

  /** The accumulated list is block 1, then block 2, and so on. */
  lemma {:induction false} BlocksInOrder(tag: string, sep: string, bodies: seq<string>)
    ensures Blocks(tag, sep, bodies) == ConcatBlocks(tag, sep, bodies, 1)
  {
    if bodies != [] {
      var init := bodies[..|bodies| - 1];
      BlocksInOrder(tag, sep, init);
      ConcatBlocksSnoc(tag, sep, init, bodies[|bodies| - 1], 1);
      assert init + [bodies[|bodies| - 1]] == bodies;
    }
  }

  /** The list of the first n entries is a prefix of the whole list. */
  lemma {:induction false} BlocksPrefix(tag: string, sep: string, bodies: seq<string>, n: nat)
    requires n <= |bodies|
    ensures Blocks(tag, sep, bodies[..n]) <= Blocks(tag, sep, bodies)
    decreases |bodies| - n
  {
    if n < |bodies| {
      var init := bodies[..|bodies| - 1];
      BlocksPrefix(tag, sep, init, n);
      assert init[..n] == bodies[..n];
    } else {
      assert bodies[..n] == bodies;
    }
  }

  /** Every entry's body stands verbatim in the list, right after its number. */
  lemma {:induction false} BodyPosition(tag: string, sep: string, bodies: seq<string>, k: nat) returns (i: nat)
    requires k < |bodies|
    ensures i + |bodies[k]| <= |Blocks(tag, sep, bodies)|
    ensures Blocks(tag, sep, bodies)[i..i + |bodies[k]|] == bodies[k]
  {
    var pre := Blocks(tag, sep, bodies[..k]);
    var head := tag + NatStr(k + 1) + sep;
    var upto := bodies[..k + 1];
    assert upto[..|upto| - 1] == bodies[..k];
    assert Blocks(tag, sep, upto) == pre + (head + bodies[k] + "\n\n");
    BlocksPrefix(tag, sep, bodies, k + 1);
    i := |pre| + |head|;
    assert Blocks(tag, sep, upto)[i..i + |bodies[k]|] == bodies[k];
  }

  // ---------------------------------------------------------------------------
  // The combination prompt
  // ---------------------------------------------------------------------------

  const PromptIntro := "I have extracted the following elements from a PDF:\n\nTEXT:\n"
  const TablesHeading := "\n\nTABLES:\n"
  const ImagesHeading := "\n\nIMAGES:\n"
  const PromptClosing :=
    "\n\nPlease combine these elements into a well-structured document, maintaining the logical flow.\n"
    + "Place tables and images near related text. Use markdown formatting.\n"

  /** `state.get('text', 'No text extracted')`. */
  function TextSlot(s: ExtractionState): string {
    s.text.GetOr(NoTextExtracted)
  }

  /** What `_create_combination_prompt` returns; an absent tables or images key
      formats like an empty list. */
  function CombinationPrompt(s: ExtractionState): (p: string)
    ensures |PromptIntro| + |TextSlot(s)| <= |p|
    ensures p[..|PromptIntro| + |TextSlot(s)|] == PromptIntro + TextSlot(s)
  {
    var tsec := TablesSection(s.tables.GetOr([]));
    var isec := ImagesSection(s.images.GetOr([]));
    Layout(PromptIntro, TextSlot(s), TablesHeading, tsec, ImagesHeading, isec, PromptClosing);
    PromptIntro + TextSlot(s) + TablesHeading + tsec + ImagesHeading + isec + PromptClosing
  }

  /** Where the seven parts of a concatenation stand in it. */
  lemma {:induction false} Layout(a: string, b: string, c: string, d: string, e: string, f: string, g: string)
    ensures var w := a + b + c + d + e + f + g;
      var od := |a| + |b| + |c|;
      var of := od + |d| + |e|;
      |w| == of + |f| + |g| &&
      w[..|a| + |b|] == a + b &&
      w[od..od + |d|] == d &&
      w[of..of + |f|] == f
  {
    var w := a + b + c + d + e + f + g;
    var od := |a| + |b| + |c|;
    var of := od + |d| + |e|;
    assert forall k :: 0 <= k < |a| + |b| ==> w[k] == (a + b)[k];
    assert forall k :: od <= k < od + |d| ==> w[k] == d[k - od];
    assert forall k :: of <= k < of + |f| ==> w[k] == f[k - of];
  }

  /** A piece of a piece of `w` is a piece of `w`. */
  lemma {:induction false} SliceOfSlice(w: string, o: nat, n: nat, i: nat, j: nat)
    requires o + n <= |w| && i <= j <= n
    ensures w[o..o + n][i..j] == w[o + i..o + j]
  {
    var v := w[o..o + n][i..j];
    assert forall k :: 0 <= k < |v| ==> v[k] == w[o + i + k];
  }

  /** `sub`, standing at offset `i` of the part that starts at offset `o`, is in `w`. */
  lemma {:induction false} ContainedInPart(w: string, o: nat, part: string, sub: string, i: nat)
    requires o + |part| <= |w| && w[o..o + |part|] == part
    requires i + |sub| <= |part| && part[i..i + |sub|] == sub
    ensures Contains(w, sub)
  {
    var at := o + i;
    assert at + |sub| <= |w| && w[at..at + |sub|] == sub by {
      SliceOfSlice(w, o, |part|, i, i + |sub|);
    }
    ContainsAt(w, sub, at);
  }

  /** The prompt's text slot, tables section and images section, and where they stand. */
  lemma {:induction false} PromptLayout(s: ExtractionState) returns (ot: nat, oi: nat)
    ensures var p := CombinationPrompt(s);
      var tsec := TablesSection(s.tables.GetOr([]));
      var isec := ImagesSection(s.images.GetOr([]));
      p[..|PromptIntro| + |TextSlot(s)|] == PromptIntro + TextSlot(s) &&
      ot + |tsec| <= |p| && p[ot..ot + |tsec|] == tsec &&
      oi + |isec| <= |p| && p[oi..oi + |isec|] == isec
  {
    var tsec := TablesSection(s.tables.GetOr([]));
    var isec := ImagesSection(s.images.GetOr([]));
    Layout(PromptIntro, TextSlot(s), TablesHeading, tsec, ImagesHeading, isec, PromptClosing);
    ot := |PromptIntro| + |TextSlot(s)| + |TablesHeading|;
    oi := ot + |tsec| + |ImagesHeading|;
  }

  /** The extracted text stands verbatim right after the intro; the sentinel
      stands there only when the text key is absent. */
  lemma {:induction false} TextInPrompt(s: ExtractionState)
    ensures var slot := if s.text.Some? then s.text.value else NoTextExtracted;
      CombinationPrompt(s)[..|PromptIntro| + |slot|] == PromptIntro + slot
  {
    var _, _ := PromptLayout(s);
  }

  /** An extracted empty text is not the missing text: the two prompts differ. */
  lemma {:induction false} EmptyTextIsNotMissing(s: ExtractionState)
    ensures CombinationPrompt(s.(text := Some(""))) != CombinationPrompt(s.(text := None))
  {
    var a := s.(text := Some(""));
    var b := s.(text := None);
    var tsec := TablesSection(s.tables.GetOr([]));
    var isec := ImagesSection(s.images.GetOr([]));
    Layout(PromptIntro, TextSlot(a), TablesHeading, tsec, ImagesHeading, isec, PromptClosing);
    Layout(PromptIntro, TextSlot(b), TablesHeading, tsec, ImagesHeading, isec, PromptClosing);
    assert |TextSlot(b)| == |TextSlot(a)| + |NoTextExtracted|;
  }

  /** Every extracted table's markdown appears verbatim in the prompt. */
  lemma {:induction false} EveryTableInPrompt(s: ExtractionState, k: nat)
    requires s.tables.Some? && k < |s.tables.value|
    ensures Contains(CombinationPrompt(s), s.tables.value[k].markdown)
  {
    var ms := Markdowns(s.tables.value);
    var i := BodyPosition(TableLabel, TableSep, ms, k);
    var ot, _ := PromptLayout(s);
    ContainedInPart(CombinationPrompt(s), ot, TablesSection(s.tables.value), ms[k], i);
  }

  /** Every extracted image's description appears verbatim in the prompt. */
  lemma {:induction false} EveryImageInPrompt(s: ExtractionState, k: nat)
    requires s.images.Some? && k < |s.images.value|
    ensures Contains(CombinationPrompt(s), s.images.value[k].description)
  {
    var ds := Descriptions(s.images.value);
    var i := BodyPosition(ImageLabel, ImageSep, ds, k);
    var _, oi := PromptLayout(s);
    ContainedInPart(CombinationPrompt(s), oi, ImagesSection(s.images.value), ds[k], i);
  }

  /** No tables, or no tables key, puts the table sentinel in the prompt; likewise for images. */
  lemma {:induction false} SentinelsInPrompt(s: ExtractionState)
    ensures s.tables.GetOr([]) == [] ==> Contains(CombinationPrompt(s), NoTablesExtracted)
    ensures s.images.GetOr([]) == [] ==> Contains(CombinationPrompt(s), NoImagesExtracted)
  {
    var tsec := TablesSection(s.tables.GetOr([]));
    var isec := ImagesSection(s.images.GetOr([]));
    var ot, oi := PromptLayout(s);
    assert tsec[0..|tsec|] == tsec && isec[0..|isec|] == isec;
    ContainedInPart(CombinationPrompt(s), ot, tsec, tsec, 0);
    ContainedInPart(CombinationPrompt(s), oi, isec, isec, 0);
  }

  // ---------------------------------------------------------------------------
  // What the stages compute
  // ---------------------------------------------------------------------------

  /** What the third-party libraries read from the file at a path: its text
      layer, its rendered pages and the table detector's answers. */
  datatype Document = Document(layer: PdfReader.TextLayer, raster: Raster, detect: TableExtractor.Detector)

  /** `extract_text(pdf_path)`: fallback on, and a model the tool builds itself. */
  function TextOf(doc: Document, toolReply: Reply): string {
    PdfReader.TextResult(doc.layer, doc.raster, toolReply, 0, true)
  }

  /** `extract_tables(pdf_path)`: pages `"all"`, and a model the tool builds itself. */
  function TablesOf(doc: Document, toolReply: Reply): seq<TableRecord> {
    TableExtractor.TablesResult("all", doc.detect, doc.raster, toolReply, 0)
  }

  /** `extract_images(pdf_path, self.llm)`: nothing saved, so a record per page. */
  function ImagesOf(doc: Document, reply: Reply, base: nat): seq<ImageRecord> {
    ImageExtractor.ImageRecords(None, ImageExtractor.PageImages(doc.raster), reply, base)
  }

  /** How many requests the image stage sends to the agent's model. */
  function ImageRequestCount(doc: Document): nat {
    |ImageExtractor.PageImages(doc.raster)|
  }

  /** The state after the three extraction stages, when the agent's model has
      answered `base` requests before. */
  function Extracted(pdfPath: string, doc: Document, toolReply: Reply, reply: Reply, base: nat): ExtractionState {
    ExtractionState(pdfPath, Some(TextOf(doc, toolReply)), Some(TablesOf(doc, toolReply)),
                    Some(ImagesOf(doc, reply, base)), None)
  }

  /** The combination stage's update: the reply becomes `final_content`; a
      failing call raises out of the workflow. */
  function Combined(s: ExtractionState, answer: Result<string>): Result<ExtractionState> {
    match answer
    case Err => Err
    case Ok(content) => Ok(s.(finalContent := Some(content)))
  }

  /** The image stage never saves, so every record keeps its image and has no file name. */
  lemma {:induction false} AgentImagesAreNotSaved(doc: Document, reply: Reply, base: nat)
    ensures forall r :: r in ImagesOf(doc, reply, base) ==> r.filename.None? && r.image.Some?
    ensures |ImagesOf(doc, reply, base)| == ImageRequestCount(doc)
  {
    var rs := ImagesOf(doc, reply, base);
    forall k | 0 <= k < |rs|
      ensures rs[k].filename.None? && rs[k].image.Some?
    {
    }
  }

  /** A document with no pages whose detector finds nothing yields no tables and
      no images, and the prompt carries both sentinels. */
  lemma {:induction false} PagelessDocument(pdfPath: string, doc: Document, toolReply: Reply, reply: Reply, base: nat)
    requires doc.raster == Ok([]) && doc.detect(TableExtractor.CamelotPages("all")) == Ok([])
    ensures Extracted(pdfPath, doc, toolReply, reply, base).tables == Some([])
    ensures Extracted(pdfPath, doc, toolReply, reply, base).images == Some([])
    ensures Contains(CombinationPrompt(Extracted(pdfPath, doc, toolReply, reply, base)), NoTablesExtracted)
    ensures Contains(CombinationPrompt(Extracted(pdfPath, doc, toolReply, reply, base)), NoImagesExtracted)
  {
    TableExtractor.CamelotEmptyIff("all", doc.detect);
    TableExtractor.AllSelectsEveryPage([]);
    assert TableExtractor.LlmTables("all", doc.raster, toolReply, 0) == [];
    SentinelsInPrompt(Extracted(pdfPath, doc, toolReply, reply, base));
  }

  // ---------------------------------------------------------------------------
  // The agent
  // ---------------------------------------------------------------------------

  class PdfExtractionAgent {
    /** The agent's own model: it describes the images and combines the results. */
    const llm: ChatModel
    /** The behaviour of a model the text and table tools build for themselves. */
    const toolReply: Reply
    /** The content of the file at each path, as the libraries read it. */
    const library: string -> Document
    /** The compiled workflow: its edges and its entry point. */
    const workflow: seq<(Node, Target)> := Edges
    const entry: Node := EntryPoint

    /** `__init__`: a fresh model with no requests sent, and the compiled workflow. */
    constructor (reply: Reply, toolReply: Reply, library: string -> Document)
      ensures fresh(llm) && llm.reply == reply && llm.log == []
      ensures this.toolReply == toolReply && this.library == library
    {
      llm := new ChatModel(reply);
      this.toolReply := toolReply;
      this.library := library;
    }

    /** `_extract_text`: returns only the path and the text; merged, it adds
        the text and changes nothing else. */
    method ExtractText(state: ExtractionState) returns (update: ExtractionState)
      ensures update == ExtractionState(state.pdfPath, Some(TextOf(library(state.pdfPath), toolReply)), None, None, None)
      ensures Merge(state, update) == state.(text := Some(TextOf(library(state.pdfPath), toolReply)))
    {
      var doc := library(state.pdfPath);
      var text := PdfReader.ExtractText(doc.layer, doc.raster, null, toolReply, true);
      update := ExtractionState(state.pdfPath, Some(text), None, None, None);
    }

    /** `_extract_tables`: the state with the tables added. */
    method ExtractTables(state: ExtractionState) returns (update: ExtractionState)
      ensures update == state.(tables := Some(TablesOf(library(state.pdfPath), toolReply)))
      ensures Merge(state, update) == update
    {
      var doc := library(state.pdfPath);
      var tables := TableExtractor.ExtractTables("all", doc.detect, doc.raster, null, toolReply);
      update := state.(tables := Some(tables));
    }

    /** `_extract_images`: the state with the images added; the agent's model
        receives one description request per page. */
    method ExtractImages(state: ExtractionState) returns (update: ExtractionState)
      modifies llm
      ensures update == state.(images := Some(ImagesOf(library(state.pdfPath), llm.reply, |old(llm.log)|)))
      ensures llm.log == old(llm.log) + ImageExtractor.DescribeRequests(ImageExtractor.PageImages(library(state.pdfPath).raster))
      ensures Merge(state, update) == update
    {
      var doc := library(state.pdfPath);
      var disk := new ImageExtractor.Storage(p => false);
      var r := ImageExtractor.ExtractImages(state.pdfPath, doc.raster, llm, toolReply, false, None, disk);
      var pages := ImageExtractor.PageImages(doc.raster);
      assert ImageExtractor.DescribeRequests(pages)[..|pages|] == ImageExtractor.DescribeRequests(pages);
      update := state.(images := Some(r.value));
    }

    /** `_combine_results`: one request carrying the combination prompt; its
        reply becomes `final_content` unchanged. */
    method CombineResults(state: ExtractionState) returns (update: Result<ExtractionState>)
      modifies llm
      ensures llm.log == old(llm.log) + [Organize(CombinationPrompt(state))]
      ensures update == Combined(state, llm.reply(|old(llm.log)|, Organize(CombinationPrompt(state))))
    {
      var prompt := CombinationPrompt(state);
      var response := llm.Invoke(Organize(prompt));
      if response.Err? {
        return Err;
      }
      update := Ok(state.(finalContent := Some(response.value)));
    }

    /** `aprocess`: runs the stages in the order the workflow's edges give and
        returns the model's combination reply verbatim; a failing combination
        call is a failure of the whole run. */
    method AProcess(pdfPath: string) returns (content: Result<string>)
      modifies llm
      ensures var doc := library(pdfPath);
        var s := Extracted(pdfPath, doc, toolReply, llm.reply, |old(llm.log)|);
        content == llm.reply(|old(llm.log)| + ImageRequestCount(doc), Organize(CombinationPrompt(s)))
        && llm.log == old(llm.log) + ImageExtractor.DescribeRequests(ImageExtractor.PageImages(doc.raster))
                      + [Organize(CombinationPrompt(s))]
    {
      var route := Route(workflow, entry, |workflow|);
      assert route == Some([TextNode, TablesNode, ImagesNode, CombineNode]) by {
        WorkflowIsLinear();
      }
      ghost var doc := library(pdfPath);
      ghost var base := |llm.log|;
      var state := Initial(pdfPath);
      var update := ExtractText(state);
      state := Merge(state, update);
      assert state == ExtractionState(pdfPath, Some(TextOf(doc, toolReply)), None, None, None);
      update := ExtractTables(state);
      state := Merge(state, update);
      assert state == ExtractionState(pdfPath, Some(TextOf(doc, toolReply)), Some(TablesOf(doc, toolReply)), None, None);
      update := ExtractImages(state);
      state := Merge(state, update);
      assert state == Extracted(pdfPath, doc, toolReply, llm.reply, base);
      assert |llm.log| == base + ImageRequestCount(doc);
      var combined := CombineResults(state);
      if combined.Err? {
        return Err;
      }
      state := Merge(state, combined.value);
      content := Ok(state.finalContent.value);
    }
  }
}
