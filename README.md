# PDF extraction agent — a Dafny model

This project models the decision and assembly logic of `pdf-agent`. That program
pulls the text, tables and images out of a PDF and asks a chat model to merge them
into one markdown document. It models four parts:

- **`PDFReaderTool`** (`PdfReader`). It takes the native text first: every non-empty
  page text followed by `"\n\n"`. The transcribing model takes over when the native
  text is empty, or when the fallback is on and the text has fewer than 100 words. A
  transcript is `"Page {n}:\n" + reply + "\n\n"` per page. Any failure gives `""`.
- **`TableExtractorTool`** (`TableExtractor`). The table detector runs first. Only
  when it yields nothing does the vision path run. That path parses the page selector
  `"1,3,5-7"` the way `split`/`int`/`range` do, converts to 0-based indices, filters
  `i < len(images)` (Python negative indexing included), and drops any reply containing
  `"No tables found"`. A failing call discards every record.
- **`ImageExtractorTool`** (`ImageExtractor`). There is one whole-page image per
  page, numbered from 1. Each record gets the model's description, or
  `"Image description unavailable"`. With saving, the output directory is created
  first (by default `extracted_images` beside the document). Each image is then saved
  as `page_{p}_image_{i+1}.png`, and the record carries the file name instead of the
  image.
- **`PDFExtractionAgent`** (`Agent`). A linear four-node workflow. Each node adds one
  field to the state record: text, tables, images, then `final_content`. The last node
  sends the combination prompt to the agent's model and keeps its reply verbatim.

The third-party libraries are inputs:

- the pypdf text layer is a `Result` of per-page `Result<string>`;
- the pdf2image raster is a `Result` of page images;
- the camelot detector is a function from the page string to detected tables, whose
  markdown and row conversions may each fail;
- `Agent.Document` bundles what these read from one file.

The chat model is `Oracles.ChatModel`. Its reply depends only on the request and on
how many requests it has already answered. It keeps the log of requests sent, so
"the model was not called" means "the log is unchanged". The file system the image
tool writes to is `ImageExtractor.Storage`: a set of directories and a log of saved
files, and a predicate saying which paths raise.

`PyText` models the Python builtins the code relies on: `str.split()`, `str.split(sep)`,
`str.strip()`, `int()`, `str(n)`, the `in` substring test and negative sequence
indexing. `Wrappers` holds `Option` (Python `None` or an absent key) and `Result` (a
value, or an exception the code catches or lets through).

Where a source file is cited below, the path is relative to the repository root.

## Model

| member | source | states |
|---|---|---|
| PdfReader.ExtractWithPypdf | pdf_extraction_agent/tools/pdf_reader.py:40-53 | loop result equals `NativeText`: every non-empty page text plus `"\n\n"`, in order; an unreadable file or any page that raises gives `""` |
| PdfReader.JoinPageTextsAppend | pdf_extraction_agent/tools/pdf_reader.py:46-49 | the native text of two page runs is the concatenation of their native texts |
| PdfReader.EmptyPageContributesNothing | pdf_extraction_agent/tools/pdf_reader.py:48-49 | an empty page adds nothing to the native text |
| PdfReader.JoinPageTextsEmpty | pdf_extraction_agent/tools/pdf_reader.py:43-50 | the concatenation is empty iff every page text is empty |
| PdfReader.NativeTextEmptyIff | pdf_extraction_agent/tools/pdf_reader.py:42-53 | native text is `""` iff opening fails, some page raises, or all pages are empty |
| PdfReader.NativeWordCount | pdf_extraction_agent/tools/pdf_reader.py:49-62 | the word count of the native text is the sum of the pages' word counts (the separators never join or split a word) |
| PdfReader.JoinEndsWithNewline | pdf_extraction_agent/tools/pdf_reader.py:49 | non-empty native text ends with a newline |
| PdfReader.IsTextIncomplete | pdf_extraction_agent/tools/pdf_reader.py:55-66 | incomplete iff fewer than 100 whitespace-separated words (so `""` is incomplete) |
| PdfReader.ShortTextIsIncomplete | pdf_extraction_agent/tools/pdf_reader.py:62-64 | a text with fewer than 100 non-space characters is incomplete |
| PdfReader.ExtractWithLlmOcr | pdf_extraction_agent/tools/pdf_reader.py:68-109 | loop result equals `OcrText` and the log grows by exactly the requests sent: one per page until the first failure; rasterization failure or any failing call gives `""` |
| PdfReader.OcrChunksInOrder | pdf_extraction_agent/tools/pdf_reader.py:75-104 | the transcript is `"Page 1:\n"+c1+"\n\n"` then `"Page 2:\n"+c2+"\n\n"` and so on (front-recursive reference definition) |
| PdfReader.OcrTextEmptyIff | pdf_extraction_agent/tools/pdf_reader.py:72-109 | the transcript is `""` iff rasterization fails, there are no pages, or some page's call fails |
| PdfReader.ExtractText | pdf_extraction_agent/tools/pdf_reader.py:13-38 | result and requests sent equal `TextResult`/`TextSent` for a given model; without one, the tool's own fresh model answers |
| PdfReader.NoFallbackKeepsNativeText | pdf_extraction_agent/tools/pdf_reader.py:30-38 | non-empty native text with the fallback off is returned unchanged and nothing is sent |
| PdfReader.EmptyNativeAlwaysEscalates | pdf_extraction_agent/tools/pdf_reader.py:30-36 | empty native text always yields the transcript, whatever the fallback flag |
| PdfReader.FallbackDecidedByPageWords | pdf_extraction_agent/tools/pdf_reader.py:30-66 | with the fallback on, at least 100 words in total keeps the native text and sends nothing; fewer yields exactly the transcript and sends exactly the transcription's requests |
| TableExtractor.DetectedRecordsShape | pdf_extraction_agent/tools/table_extractor.py:52-68 | conversion succeeds iff every table converts; then one record per detected table, in order, with its page, markdown and rows |
| TableExtractor.ExtractWithCamelot | pdf_extraction_agent/tools/table_extractor.py:40-73 | loop result equals `CamelotTables`: `"all"` is passed as `"1-end"`, and any exception gives `[]` |
| TableExtractor.CamelotEmptyIff | pdf_extraction_agent/tools/table_extractor.py:42-73 | the detector path is empty iff the detector raises, finds nothing, or a conversion raises |
| TableExtractor.TokenPages | pdf_extraction_agent/tools/table_extractor.py:88-92 | a token parses only to one number when it has no dash, and only when it has exactly two dash-separated ends when it has one |
| TableExtractor.PageNums | pdf_extraction_agent/tools/table_extractor.py:86-92 | the selector parses iff every comma-separated token parses |
| TableExtractor.CollectSomeIff | pdf_extraction_agent/tools/table_extractor.py:87-92 | the token loop completes iff no token raises |
| TableExtractor.ParsePageNums | pdf_extraction_agent/tools/table_extractor.py:86-92 | the token loop's result equals `PageNums`; `None` when a token raises |
| TableExtractor.CollectAppend | pdf_extraction_agent/tools/table_extractor.py:87-92 | collecting two token runs is collecting each and concatenating; `None` remains `None` |
| TableExtractor.CollectNone | pdf_extraction_agent/tools/table_extractor.py:89-92 | once a token fails, the whole selector fails |
| TableExtractor.PageNumsConcat | pdf_extraction_agent/tools/table_extractor.py:87 | `PageNums(x + "," + y)` is the pages of `x` followed by the pages of `y` (order and duplicates kept) |
| TableExtractor.PageNumsToken | pdf_extraction_agent/tools/table_extractor.py:87-92 | a comma-free selector is one token |
| TableExtractor.PageNumsNumber | pdf_extraction_agent/tools/table_extractor.py:92 | a decimal token selects exactly its number |
| TableExtractor.PageNumsRange | pdf_extraction_agent/tools/table_extractor.py:88-90 | `"a-b"` with decimal ends selects `a..b` inclusive, empty when a > b |
| TableExtractor.TokenPagesRange | pdf_extraction_agent/tools/table_extractor.py:88-90 | a single-dash token is the range of its two parsed ends |
| TableExtractor.DecimalNoSeparators | pdf_extraction_agent/tools/table_extractor.py:87-88 | a decimal token contains neither separator |
| TableExtractor.TwoDashesFail | pdf_extraction_agent/tools/table_extractor.py:89 | `"a-b-c"` fails: three parts do not unpack into two |
| TableExtractor.MissingStartFails | pdf_extraction_agent/tools/table_extractor.py:89 | `"-b"` fails: `int("")` raises |
| TableExtractor.WordIsNotANumber | pdf_extraction_agent/tools/table_extractor.py:92 | `int()` of a word starting with a letter raises |
| TableExtractor.WordSelectorFails | pdf_extraction_agent/tools/table_extractor.py:86-92 | a word selector fails as a whole |
| TableExtractor.RangeToWordFails | pdf_extraction_agent/tools/table_extractor.py:86-92 | `"a-word"` (such as `"1-end"`) fails on the vision path |
| TableExtractor.SelectImages | pdf_extraction_agent/tools/table_extractor.py:95 | selects at most one image per index |
| TableExtractor.AllIndices | pdf_extraction_agent/tools/table_extractor.py:83 | `list(range(n))` |
| TableExtractor.PageIndices | pdf_extraction_agent/tools/table_extractor.py:93 | each index is the page number minus one |
| TableExtractor.PlanVision | pdf_extraction_agent/tools/table_extractor.py:81-95 | never more images than page indices (so the label lookup at line 100 is in range) |
| TableExtractor.ResolvePages | pdf_extraction_agent/tools/table_extractor.py:80-95 | the page indices and images equal `PlanVision`; parse or rasterization failures give `Err` |
| TableExtractor.VisionRecordsShape | pdf_extraction_agent/tools/table_extractor.py:127-143 | records exist iff every call succeeds; none has rows and none contains `"No tables found"` |
| TableExtractor.VisionRecordsAllTables | pdf_extraction_agent/tools/table_extractor.py:99-138 | when no reply contains the sentinel, record k is `{page: indices[k]+1, markdown: reply k, data: None}` |
| TableExtractor.VisionRecords | pdf_extraction_agent/tools/table_extractor.py:97-140 | the record loop over the replies yields at most one record per reply |
| TableExtractor.KeptSnoc | pdf_extraction_agent/tools/table_extractor.py:131-138 | one more reply adds its record, or nothing when it contains `"No tables found"`, at the end of the front-recursive filter |
| TableExtractor.KeptAppend | pdf_extraction_agent/tools/table_extractor.py:99-138 | filtering two runs of replies is filtering each and concatenating |
| TableExtractor.KeptIncludes | pdf_extraction_agent/tools/table_extractor.py:131-138 | every reply without the sentinel has its record in the filter |
| TableExtractor.KeptIncludesAt | pdf_extraction_agent/tools/table_extractor.py:131-138 | a single reply without the sentinel has its record in the filter |
| TableExtractor.KeptOnly | pdf_extraction_agent/tools/table_extractor.py:131-138 | every record of the filter is the record of a reply without the sentinel |
| TableExtractor.VisionRecordsKept | pdf_extraction_agent/tools/table_extractor.py:99-140 | when every call succeeds, the record loop equals the independent front-recursive filter of the replies, in reply order |
| TableExtractor.VisionRecordsKeepsReply | pdf_extraction_agent/tools/table_extractor.py:99-138 | when every call succeeds, reply k without `"No tables found"` yields the record `{page: indices[k]+1, markdown: reply k, data: None}` |
| TableExtractor.VisionRecordsOnlyReplies | pdf_extraction_agent/tools/table_extractor.py:99-138 | every record is `{page: indices[k]+1, markdown: reply k, data: None}` for some reply k without the sentinel |
| TableExtractor.AskForTables | pdf_extraction_agent/tools/table_extractor.py:97-140 | loop result equals `AskedTables`, and the log grows by the requests up to the first failure |
| TableExtractor.ExtractWithLlm | pdf_extraction_agent/tools/table_extractor.py:75-143 | result and requests sent equal `LlmTables`/`LlmTablesSent` |
| TableExtractor.AllSelectsEveryPage | pdf_extraction_agent/tools/table_extractor.py:81-83 | `"all"` asks about every page in order, page k labelled k+1 |
| TableExtractor.SelectInRange | pdf_extraction_agent/tools/table_extractor.py:95 | in-range indices select exactly the images at those indices |
| TableExtractor.LabelsFollowSelector | pdf_extraction_agent/tools/table_extractor.py:93-100 | when every selected page lies in 1..n, request k shows page `nums[k]` and is labelled `nums[k]` |
| TableExtractor.PageZeroSelectsLastPage | pdf_extraction_agent/tools/table_extractor.py:93-95 | page 0 becomes index -1, passes the filter and selects the last page |
| TableExtractor.FilteredPageShiftsLabels | pdf_extraction_agent/tools/table_extractor.py:93-100 | an out-of-range page that is dropped still occupies a label, so the next image is labelled with the dropped page's number |
| TableExtractor.ExtractTables | pdf_extraction_agent/tools/table_extractor.py:13-38 | result and requests equal `TablesResult`/`TablesSent`: the detector result when non-empty, otherwise the vision path |
| TableExtractor.MalformedSelectorSendsNothing | pdf_extraction_agent/tools/table_extractor.py:86-143 | a selector that fails to parse gives `[]` and sends no request |
| TableExtractor.RowsOnlyFromDetector | pdf_extraction_agent/tools/table_extractor.py:66-136 | detector records carry rows, vision records never do |
| ImageExtractor.Storage.MakeDirs | pdf_extraction_agent/tools/image_extractor.py:47 | creates the directory unless the path raises; files untouched |
| ImageExtractor.Storage.Save | pdf_extraction_agent/tools/image_extractor.py:63 | appends the file unless the path raises; directories untouched |
| ImageExtractor.AfterLastSlash | pdf_extraction_agent/tools/image_extractor.py:46 | the start of the last path component: no `/` after it |
| ImageExtractor.TrimSlashes | pdf_extraction_agent/tools/image_extractor.py:46 | `rstrip("/")` keeps a prefix of its argument |
| ImageExtractor.Dirname | pdf_extraction_agent/tools/image_extractor.py:46 | `os.path.dirname` is a prefix of the path, and `""` for a path without `/` |
| ImageExtractor.JoinPath | pdf_extraction_agent/tools/image_extractor.py:46 | `os.path.join(a, b)` ends with `b`; an absolute `b` is the result; otherwise `a` or `a + "/"` precedes it |
| ImageExtractor.OutputDir | pdf_extraction_agent/tools/image_extractor.py:44-46 | the given `output_dir`, or a path ending in `extracted_images` |
| ImageExtractor.DefaultDirForBareName | pdf_extraction_agent/tools/image_extractor.py:45-46 | a bare file name gives `extracted_images` |
| ImageExtractor.DefaultDirBesideDocument | pdf_extraction_agent/tools/image_extractor.py:45-46 | `d/name` gives `d/extracted_images` |
| ImageExtractor.AfterLastSlashOfSuffix | pdf_extraction_agent/tools/image_extractor.py:46 | the file name after a directory prefix starts right after that prefix |
| ImageExtractor.NumberPagesShape | pdf_extraction_agent/tools/image_extractor.py:90-95 | one entry per page, numbered 1..n in page order |
| ImageExtractor.ExtractImagesFromPdf | pdf_extraction_agent/tools/image_extractor.py:76-103 | loop result equals `PageImages`; rasterization failure gives `[]` |
| ImageExtractor.DescriptionOf | pdf_extraction_agent/tools/image_extractor.py:105-154 | the reply verbatim, or `"Image description unavailable"` when the call raises |
| ImageExtractor.ImageRecords | pdf_extraction_agent/tools/image_extractor.py:53-72 | one record per entry |
| ImageExtractor.FirstRefusedFrom | pdf_extraction_agent/tools/image_extractor.py:60-63 | the first entry whose save raises, with every earlier save succeeding |
| ImageExtractor.ExtractImages | pdf_extraction_agent/tools/image_extractor.py:19-74 | result, requests, saved files and created directories equal `ImagesResult`/`ImagesSent`/`ImagesWritten`; a directory or save failure raises (`Err`) |
| ImageExtractor.ProcessImage | pdf_extraction_agent/tools/image_extractor.py:55-72 | one pass of the loop: one description request; when saving, the image is written to `output_dir/page_{p}_image_{i+1}.png`, and a refused write yields no record and writes nothing; otherwise the record for entry i |
| ImageExtractor.DescribeAll | pdf_extraction_agent/tools/image_extractor.py:53-74 | the record loop: describe first, then save; stops at the first save that raises |
| ImageExtractor.RecordsFollowPages | pdf_extraction_agent/tools/image_extractor.py:53-72 | record k has page k+1 and description k |
| ImageExtractor.FilenameOrImage | pdf_extraction_agent/tools/image_extractor.py:59-70 | with saving, record k is named `page_{k+1}_image_{k+1}.png` and holds no image; without it, it holds image k and no name |
| ImageExtractor.NoSaveTouchesNothing | pdf_extraction_agent/tools/image_extractor.py:44-60 | without saving nothing is written or created, and the call cannot fail even if every model call does |
| ImageExtractor.DescriptionFailureIsLocal | pdf_extraction_agent/tools/image_extractor.py:53-72 | for two model behaviours that differ only at one description request, the second failing there: the call succeeds for both or for neither, that record is the first behaviour's with `"Image description unavailable"` as its description, and every other record is the same |
| ImageExtractor.EveryPageDescribed | pdf_extraction_agent/tools/image_extractor.py:54-56 | without saving, every page gets a description request |
| ImageExtractor.SaveFailureAborts | pdf_extraction_agent/tools/image_extractor.py:60-63 | a save that raises aborts the whole call, after at most its predecessors were written |
| ImageExtractor.NatStrInjective | pdf_extraction_agent/tools/image_extractor.py:61 | distinct numbers print differently |
| ImageExtractor.DecimalPrefix | pdf_extraction_agent/tools/image_extractor.py:61 | two digit runs each followed by a non-digit split a string the same way |
| ImageExtractor.FilenamesDistinct | pdf_extraction_agent/tools/image_extractor.py:61 | distinct (page, index) pairs give distinct file names |
| Agent.Merge | pdf_extraction_agent/agent.py:68-97 | every key a node returns replaces that key in the state, every key it leaves out is kept, and the path is the returned one |
| Agent.Successor | pdf_extraction_agent/agent.py:58-61 | a successor exists iff some edge leaves the node |
| Agent.Route | pdf_extraction_agent/agent.py:58-64 | a route that reaches the end is non-empty and starts at its first node |
| Agent.EachNodeHasOneEdge | pdf_extraction_agent/agent.py:58-61 | every node has exactly one outgoing edge |
| Agent.WorkflowIsLinear | pdf_extraction_agent/agent.py:52-64 | from the entry point the run visits text, tables, images, combine, then ends |
| Agent.FormatTables | pdf_extraction_agent/agent.py:117-125 | loop result equals `TablesSection`: the sentinel for no tables, else the numbered blocks |
| Agent.FormatImages | pdf_extraction_agent/agent.py:127-135 | loop result equals `ImagesSection`: the sentinel for no images, else the numbered blocks |
| Agent.SectionSentinelIff | pdf_extraction_agent/agent.py:117-135 | a section is exactly `"No tables extracted"` / `"No images extracted"` iff the list is empty |
| Agent.BlocksHead | pdf_extraction_agent/agent.py:123-124 | a non-empty list starts with `"Table "`/`"Image "` |
| Agent.BlocksInOrder | pdf_extraction_agent/agent.py:122-125 | the accumulated section is block 1, block 2, … (front-recursive reference definition) |
| Agent.BlocksPrefix | pdf_extraction_agent/agent.py:123-124 | the blocks of the first n entries are a prefix of the section |
| Agent.BodyPosition | pdf_extraction_agent/agent.py:122-134 | every markdown or description stands verbatim in its section |
| Agent.CombinationPrompt | pdf_extraction_agent/agent.py:99-115 | the prompt opens with the fixed introduction followed by the text slot verbatim |
| Agent.TextInPrompt | pdf_extraction_agent/agent.py:101-104 | the prompt starts with the intro followed by the text verbatim, or by the sentinel when the key is absent |
| Agent.EmptyTextIsNotMissing | pdf_extraction_agent/agent.py:104 | an extracted `""` is not replaced by `"No text extracted"` |
| Agent.EveryTableInPrompt | pdf_extraction_agent/agent.py:106-124 | every table's markdown appears verbatim in the prompt |
| Agent.EveryImageInPrompt | pdf_extraction_agent/agent.py:109-134 | every image description appears verbatim in the prompt |
| Agent.SentinelsInPrompt | pdf_extraction_agent/agent.py:106-130 | an empty or absent tables (images) list puts its sentinel in the prompt |
| Agent.AgentImagesAreNotSaved | pdf_extraction_agent/agent.py:83 | the image stage uses the default `save_images=False`: every record keeps its image and has no file name |
| Agent.PagelessDocument | pdf_extraction_agent/agent.py:77-115 | a document without pages whose detector finds nothing yields no tables and no images, and the prompt carries both sentinels |
| Agent.PdfExtractionAgent.constructor | pdf_extraction_agent/agent.py:24-45 | a fresh model with nothing sent, holding the given behaviours; the workflow's edges and entry point are fixed at declaration |
| Agent.PdfExtractionAgent.ExtractText | pdf_extraction_agent/agent.py:68-72 | returns only path and text (fallback on, the tool's own model); merged, it adds the text and keeps every other field |
| Agent.PdfExtractionAgent.ExtractTables | pdf_extraction_agent/agent.py:74-78 | the state with the tables (pages `"all"`) added |
| Agent.PdfExtractionAgent.ExtractImages | pdf_extraction_agent/agent.py:80-84 | the state with the images added; the agent's model receives one description request per page |
| Agent.PdfExtractionAgent.CombineResults | pdf_extraction_agent/agent.py:86-97 | one request with the combination prompt; its reply becomes `final_content` unchanged, and a failing call fails |
| Agent.PdfExtractionAgent.AProcess | pdf_extraction_agent/agent.py:137-147 | returns the combination reply verbatim, for the prompt built from the three extracted fields; the model sees the description requests and then the prompt |
| PyText.WordsShape | pdf_extraction_agent/tools/pdf_reader.py:62 | `split()` yields non-empty words without whitespace, whose concatenation is the text's non-space characters |
| PyText.Words | pdf_extraction_agent/tools/pdf_reader.py:62 | `split()` yields no more words than the text has characters |
| PyText.WordCountBound | pdf_extraction_agent/tools/pdf_reader.py:62-63 | there are no more words than non-space characters |
| PyText.WordsAppend | pdf_extraction_agent/tools/pdf_reader.py:49-62 | splitting text that follows whitespace splits each part separately |
| PyText.NatStrValue | pdf_extraction_agent/tools/pdf_reader.py:104 | `str(n)` reads back as n |
| PyText.ParseInt | pdf_extraction_agent/tools/table_extractor.py:89-92 | `int()` accepts only text whose stripped form ends in a digit, and a negative value needs a leading `-` |
| PyText.ParseNatStr | pdf_extraction_agent/tools/table_extractor.py:92 | `int(str(n)) == n` |
| PyText.ParseDecimal | pdf_extraction_agent/tools/table_extractor.py:89-92 | `int()` of a digit string is its decimal value |
| PyText.SplitOn | pdf_extraction_agent/tools/table_extractor.py:87 | `s.split(sep)` yields at least one piece |
| PyText.SplitJoin | pdf_extraction_agent/tools/table_extractor.py:87 | `sep.join(s.split(sep)) == s`: splitting loses no character |
| PyText.SplitPieces | pdf_extraction_agent/tools/table_extractor.py:87 | no piece of `s.split(sep)` contains the separator |
| PyText.SplitAt | pdf_extraction_agent/tools/table_extractor.py:87 | splitting at a separator concatenates the splits of both sides |
| PyText.ContainsAt | pdf_extraction_agent/tools/table_extractor.py:131 | a string found at some offset is `in` the text |
| PyText.ShortNotContains | pdf_extraction_agent/tools/table_extractor.py:131 | a text shorter than the sentinel never contains it |
| PyText.PyIndex | pdf_extraction_agent/tools/table_extractor.py:95 | Python indexing: defined iff `-n <= i < n`, negative indices count from the end |

## Left out

- `cli.py`, `pdf_extraction_agent/cli.py`, `example.py`, `setup.py` and the package `__init__` files are not part of this model: argument plumbing, console and file output, and package metadata.
- pypdf, pdf2image, camelot, pandas `to_markdown`/`to_dict`, PIL image encoding, base64 and `ChatOpenAI` construction are not modelled. Their outputs are inputs that succeed or fail. An encoding failure before a model call counts as a failure of that call.
- The fixed instruction texts and message structures of every model call are not modelled. The kind of request stands for its fixed text.
- The chat model's replies are a function of the request and of how many requests that model has already answered. Any other nondeterminism is not modelled.
- Each document is read through one shared value, `Agent.Document`. The separate `convert_from_path` calls in the three tools are assumed to yield the same pages.
- The logging and the `time.time()` measurements in `image_extractor.py` and `print` on errors are not modelled: they have no effect on results.
- Async/await, the LangGraph runtime and `process`'s event-loop handling (`agent.py:149-170`) are not modelled. The workflow is the edge list and the entry point, and `AProcess` runs the stages in the order `WorkflowIsLinear` proves.
- Agent.Merge: a key a node returns with the value `None` would overwrite the key. The model writes absent and `None` the same way. No node returns `None`.
- Agent.PdfExtractionAgent.AProcess: the text and table stages always succeed in the model. The only failure is the combination call raising (`Err`). An uncaught failure of a library is not modelled.
- PyText.ParseInt: only ASCII digits and underscores between digits are modelled as digits. Non-ASCII decimal digits, which Python's `int()` also accepts, are not. The whitespace `int()` strips is the full `str.isspace` set (`PyText.IsSpace`), non-ASCII whitespace included.
- ImageExtractor.Storage.MakeDirs: creates one path as a whole. The intermediate directories `os.makedirs` also creates are not modelled.
- ImageExtractor.Dirname: POSIX paths only. Windows separators and drive letters are not modelled.
- Concrete selectors such as `"1,3,5-7"` and `"1-2-3"` follow from general lemmas over any decimal tokens (`PageNumsConcat`, `PageNumsRange`, `TwoDashesFail`); no lemma states a literal selector.
- `tests/test_pdf_reader.py:65-77` expects no transcription for empty native text with the fallback off. `pdf_reader.py:30` escalates on empty text whatever the flag. The model follows the code (`PdfReader.EmptyNativeAlwaysEscalates`).
- Picture detection inside a page is not modelled, and neither does the code detect pictures (`image_extractor.py:92-95`): every page is one image and gets one record, including pages without pictures (`ImageExtractor.RecordsFollowPages`).
