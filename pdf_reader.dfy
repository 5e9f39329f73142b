/** Text extraction with escalation (`PDFReaderTool`): native text-layer
    extraction first, then a page-by-page transcription by a vision model when
    the native text is empty or, with the fallback enabled, looks incomplete. */
module PdfReader {
  import opened Wrappers
  import opened PyText
  import opened Oracles

  /** What the native text layer yields for one document: `Err` when the file
      cannot be opened or parsed, otherwise one outcome of `page.extract_text()`
      per page (a page whose text is `None` is `Ok("")`: both are falsy). */
  type TextLayer = Result<seq<Result<string>>>

  /** Fewer words than this and the native text counts as incomplete. */
  const WordThreshold: nat := 100

  // ---------------------------------------------------------------------------
  // Native extraction

  /** What one page adds to the native text: nothing when it has no text. */
  function PageChunk(t: string): string {
    if t == "" then "" else t + "\n\n"
  }

  /** The native text of pages whose texts are `ts`, accumulated page by page. */
  function JoinPageTexts(ts: seq<string>): string {
    if ts == [] then "" else JoinPageTexts(ts[..|ts| - 1]) + PageChunk(ts[|ts| - 1])
  }

  /** What `_extract_with_pypdf` returns for a document. */
  function NativeText(layer: TextLayer): string {
    match layer
    case Err => ""
    case Ok(pages) => if AllOk(pages) then JoinPageTexts(Values(pages)) else ""
  }

  /** `_extract_with_pypdf`: appends `page_text + "\n\n"` for every page with
      text; any exception, while opening or on any page, yields `""`. */
  method ExtractWithPypdf(layer: TextLayer) returns (text: string)
    ensures text == NativeText(layer)
  {
    if layer.Err? {
      return "";
    }
    var pages := layer.value;
    text := "";
    var i := 0;
    while i < |pages|
      invariant 0 <= i <= |pages|
      invariant AllOk(pages[..i])
      invariant text == JoinPageTexts(Values(pages[..i]))
    {
      match pages[i]
      case Err =>
        return "";
      case Ok(pageText) =>
        NativeStep(pages, i);
        if pageText != "" {
          ConcatAssoc(text, pageText, "\n\n");
          text := text + pageText + "\n\n";
        }
      i := i + 1;
    }
    assert pages[..i] == pages;
  }

  /** One more readable page appends its chunk to the native text so far. */
  lemma {:induction false} NativeStep(pages: seq<Result<string>>, i: nat)
    requires i < |pages| && AllOk(pages[..i]) && pages[i].Ok?
    ensures AllOk(pages[..i + 1])
    ensures JoinPageTexts(Values(pages[..i + 1])) == JoinPageTexts(Values(pages[..i])) + PageChunk(pages[i].value)
  {
    assert forall k :: 0 <= k < i + 1 ==> pages[..i + 1][k] == (pages[..i] + [pages[i]])[k];
    ValuesPrefix(pages, i);
    var ts := Values(pages[..i + 1]);
    assert ts[..|ts| - 1] == Values(pages[..i]);
  }

  lemma {:induction false} JoinPageTextsSnoc(ts: seq<string>, t: string)
    ensures JoinPageTexts(ts + [t]) == JoinPageTexts(ts) + PageChunk(t)
  {
    assert (ts + [t])[..|ts|] == ts;
  }

  /** The native text of two runs of pages is the native text of each, in order. */
  lemma {:induction false} JoinPageTextsAppend(a: seq<string>, b: seq<string>)
    ensures JoinPageTexts(a + b) == JoinPageTexts(a) + JoinPageTexts(b)
    decreases |b|
  {
    if b == [] {
      assert a + b == a;
    } else {
      var b', last := b[..|b| - 1], b[|b| - 1];
      assert b == b' + [last];
      ConcatAssoc(a, b', [last]);
      JoinPageTextsAppend(a, b');
      JoinPageTextsSnoc(a + b', last);
      JoinPageTextsSnoc(b', last);
      ConcatAssoc(JoinPageTexts(a), JoinPageTexts(b'), PageChunk(last));
    }
  }

  /** A page without text contributes nothing, wherever it stands. */
  lemma {:induction false} EmptyPageContributesNothing(a: seq<string>, b: seq<string>)
    ensures JoinPageTexts(a + [""] + b) == JoinPageTexts(a + b)
  {
    JoinPageTextsSnoc(a, "");
    JoinPageTextsAppend(a + [""], b);
    JoinPageTextsAppend(a, b);
  }

  /** The native text is empty exactly when no page has text. */
  lemma {:induction false} JoinPageTextsEmpty(ts: seq<string>)
    ensures JoinPageTexts(ts) == "" <==> forall k :: 0 <= k < |ts| ==> ts[k] == ""
  {
    if ts != [] {
      var ts' := ts[..|ts| - 1];
      JoinPageTextsEmpty(ts');
      assert forall k :: 0 <= k < |ts'| ==> ts'[k] == ts[k];
    }
  }

  /** Native extraction yields `""` exactly when the document cannot be read,
      some page raises, or no page has text. */
  lemma {:induction false} NativeTextEmptyIff(layer: TextLayer)
    ensures NativeText(layer) == "" <==>
      (layer.Err? || !AllOk(layer.value)
       || forall k :: 0 <= k < |layer.value| ==> layer.value[k].value == "")
  {
    if layer.Ok? && AllOk(layer.value) {
      var vs := Values(layer.value);
      JoinPageTextsEmpty(vs);
      assert forall k :: 0 <= k < |vs| ==> vs[k] == layer.value[k].value;
    }
  }

  /** Total number of words over the pages. */
  function SumWords(ts: seq<string>): nat {
    if ts == [] then 0 else SumWords(ts[..|ts| - 1]) + |Words(ts[|ts| - 1])|
  }

  /** The word count the heuristic sees is the sum of the pages' word counts:
      the page separators never join or split a word. */
  lemma {:induction false} NativeWordCount(ts: seq<string>)
    ensures |Words(JoinPageTexts(ts))| == SumWords(ts)
  {
    if ts != [] {
      var ts', t := ts[..|ts| - 1], ts[|ts| - 1];
      assert ts == ts' + [t];
      NativeWordCount(ts');
      JoinPageTextsSnoc(ts', t);
      var j := JoinPageTexts(ts');
      if t == "" {
        assert j + PageChunk(t) == j;
      } else {
        WordsSpaceTail(t, "\n\n");
        if j == "" {
          assert j + PageChunk(t) == t + "\n\n";
        } else {
          // the native text so far ends with the blank-line separator
          JoinEndsWithNewline(ts');
          WordsAppend(j, t + "\n\n");
        }
      }
    }
  }

  lemma {:induction false} JoinEndsWithNewline(ts: seq<string>)
    requires JoinPageTexts(ts) != ""
    ensures var j := JoinPageTexts(ts); j[|j| - 1] == '\n'
  {
    var ts', t := ts[..|ts| - 1], ts[|ts| - 1];
    assert ts == ts' + [t];
    JoinPageTextsSnoc(ts', t);
    if t == "" {
      JoinEndsWithNewline(ts');
    }
  }

  // ---------------------------------------------------------------------------
  // The completeness heuristic

  /** `_is_text_incomplete`: empty text, or fewer than 100 words. Empty text has
      no words, so the result is exactly "fewer than 100 words". */
  predicate IsTextIncomplete(text: string)
    ensures IsTextIncomplete(text) <==> |Words(text)| < WordThreshold
  {
    if text == "" then true else |Words(text)| < WordThreshold
  }

  /** A text with fewer than 100 non-whitespace characters is always incomplete. */
  lemma {:induction false} ShortTextIsIncomplete(text: string)
    requires |NonSpace(text)| < WordThreshold
    ensures IsTextIncomplete(text)
  {
    WordCountBound(text);
  }

  // ---------------------------------------------------------------------------
  // Transcription by the vision model

  /** One transcription request per rasterized page, in page order. */
  function OcrRequests(images: seq<Image>): (qs: seq<Request>)
    ensures |qs| == |images|
  {
    seq(|images|, k requires 0 <= k < |images| => Transcribe(images[k]))
  }

  function PageHeader(n: nat): string {
    "Page " + NatStr(n) + ":\n"
  }

  /** The transcript block of page n: `f"Page {n}:\n{text}\n\n"`. */
  function OcrBlock(n: nat, text: string): string {
    PageHeader(n) + text + "\n\n"
  }

  /** The transcript of pages whose transcriptions are `cs`, accumulated page by page. */
  function OcrChunks(cs: seq<string>): string {
    if cs == [] then "" else OcrChunks(cs[..|cs| - 1]) + OcrBlock(|cs|, cs[|cs| - 1])
  }

  /** What `_extract_with_llm_ocr` returns when the model's first request is number `base`. */
  function OcrText(raster: Raster, reply: Reply, base: nat): string {
    match raster
    case Err => ""
    case Ok(images) =>
      var rs := Replies(reply, base, OcrRequests(images));
      if AllOk(rs) then OcrChunks(Values(rs)) else ""
  }

  /** The requests `_extract_with_llm_ocr` sends: every page's, or up to the first that fails. */
  function OcrSent(raster: Raster, reply: Reply, base: nat): seq<Request> {
    match raster
    case Err => []
    case Ok(images) => SentUntilFailure(reply, base, OcrRequests(images))
  }

  /** `_extract_with_llm_ocr`: sends every page image in order and appends
      `"Page {i+1}:\n" + reply + "\n\n"`; a rasterization failure or any failing
      call yields `""`, discarding the pages already transcribed. */
  method ExtractWithLlmOcr(raster: Raster, llm: ChatModel) returns (text: string)
    modifies llm
    ensures text == OcrText(raster, llm.reply, |old(llm.log)|)
    ensures llm.log == old(llm.log) + OcrSent(raster, llm.reply, |old(llm.log)|)
  {
    if raster.Err? {
      return "";
    }
    var images := raster.value;
    ghost var base := |llm.log|;
    ghost var qs := OcrRequests(images);
    ghost var rs := Replies(llm.reply, base, qs);
    var allText := "";
    var i := 0;
    while i < |images|
      invariant 0 <= i <= |images|
      invariant i <= FirstErr(rs) && AllOk(rs[..i])
      invariant llm.log == old(llm.log) + qs[..i]
      invariant allText == OcrChunks(Values(rs[..i]))
    {
      OcrRequestAt(images, llm.reply, base, i);
      var r := llm.Invoke(Transcribe(images[i]));
      assert r == rs[i];
      assert llm.log == old(llm.log) + qs[..i + 1] by {
        LogSnoc(old(llm.log), qs, i);
      }
      if r.Err? {
        OcrFailsAt(images, llm.reply, base, i);
        return "";
      }
      OcrChunksStep(rs, i);
      allText := allText + OcrBlock(i + 1, r.value);
      i := i + 1;
    }
    OcrSucceeds(images, llm.reply, base);
    text := allText;
  }

  lemma OcrRequestAt(images: seq<Image>, reply: Reply, base: nat, i: nat)
    requires i < |images|
    ensures OcrRequests(images)[i] == Transcribe(images[i])
    ensures Replies(reply, base, OcrRequests(images))[i] == reply(base + i, Transcribe(images[i]))
  {
  }

  /** One more transcribed page appends its block to the transcript so far. */
  lemma {:induction false} OcrChunksStep(rs: seq<Result<string>>, i: nat)
    requires i < |rs| && i <= FirstErr(rs) && rs[i].Ok?
    ensures i + 1 <= FirstErr(rs) && AllOk(rs[..i + 1])
    ensures OcrChunks(Values(rs[..i + 1])) == OcrChunks(Values(rs[..i])) + OcrBlock(i + 1, rs[i].value)
  {
    assert forall k :: 0 <= k < i + 1 ==> rs[..i + 1][k] == rs[k];
    ValuesPrefix(rs, i);
    var cs := Values(rs[..i + 1]);
    assert cs[..|cs| - 1] == Values(rs[..i]);
  }

  /** A failing transcription of page i, after i successful ones, leaves the
      transcript empty and the requests up to page i sent. */
  lemma {:induction false} OcrFailsAt(images: seq<Image>, reply: Reply, base: nat, i: nat)
    requires i < |images|
    requires i <= FirstErr(Replies(reply, base, OcrRequests(images)))
    requires reply(base + i, Transcribe(images[i])).Err?
    ensures OcrText(Ok(images), reply, base) == ""
    ensures OcrSent(Ok(images), reply, base) == OcrRequests(images)[..i + 1]
  {
    var rs := Replies(reply, base, OcrRequests(images));
    assert rs[i].Err?;
    assert FirstErr(rs) == i;
  }

  /** When every page was transcribed, the transcript covers them all and every
      request was sent. */
  lemma {:induction false} OcrSucceeds(images: seq<Image>, reply: Reply, base: nat)
    requires FirstErr(Replies(reply, base, OcrRequests(images))) == |images|
    ensures var rs := Replies(reply, base, OcrRequests(images));
      AllOk(rs) && OcrText(Ok(images), reply, base) == OcrChunks(Values(rs[..|images|]))
    ensures OcrSent(Ok(images), reply, base) == OcrRequests(images)[..|images|]
  {
    var rs := Replies(reply, base, OcrRequests(images));
    assert rs[..|images|] == rs;
  }

  /** Every page's block, concatenated in page order. */
  function ConcatOcrBlocks(cs: seq<string>, first: nat): string
    decreases |cs|
  {
    if cs == [] then "" else OcrBlock(first, cs[0]) + ConcatOcrBlocks(cs[1..], first + 1)
  }

  lemma {:induction false} ConcatOcrBlocksSnoc(cs: seq<string>, c: string, first: nat)
    ensures ConcatOcrBlocks(cs + [c], first) == ConcatOcrBlocks(cs, first) + OcrBlock(first + |cs|, c)
    decreases |cs|
  {
    if cs != [] {
      var t := cs[1..];
      assert (cs + [c])[0] == cs[0] && (cs + [c])[1..] == t + [c];
      ConcatOcrBlocksSnoc(t, c, first + 1);
      var h := OcrBlock(first, cs[0]);
      var x := ConcatOcrBlocks(t, first + 1);
      var tail := OcrBlock(first + |cs|, c);
      assert ConcatOcrBlocks(cs + [c], first) == h + (x + tail);
      ConcatAssoc(h, x, tail);
    } else {
      assert [] + [c] == [c];
    }
  }

  /** The transcript is `"Page 1:\n" + c1 + "\n\n" + "Page 2:\n" + c2 + ...`. */
  lemma {:induction false} OcrChunksInOrder(cs: seq<string>)
    ensures OcrChunks(cs) == ConcatOcrBlocks(cs, 1)
  {
    if cs != [] {
      var cs' := cs[..|cs| - 1];
      OcrChunksInOrder(cs');
      ConcatOcrBlocksSnoc(cs', cs[|cs| - 1], 1);
      assert cs' + [cs[|cs| - 1]] == cs;
    }
  }

  /** The transcript is empty exactly when rasterization fails, the document has
      no pages, or some page's call fails. */
  lemma OcrTextEmptyIff(raster: Raster, reply: Reply, base: nat)
    ensures OcrText(raster, reply, base) == "" <==>
      (raster.Err? || |raster.value| == 0
       || !AllOk(Replies(reply, base, OcrRequests(raster.value))))
  {
  }

  // ---------------------------------------------------------------------------
  // extract_text

  /** When `extract_text` abandons the native text for the transcription. */
  predicate Escalates(native: string, fallback: bool) {
    native == "" || (fallback && IsTextIncomplete(native))
  }

  /** What `extract_text` returns when the model's first request is number `base`. */
  function TextResult(layer: TextLayer, raster: Raster, reply: Reply, base: nat, fallback: bool): string {
    var native := NativeText(layer);
    if Escalates(native, fallback) then OcrText(raster, reply, base) else native
  }

  /** The requests `extract_text` sends to the model. */
  function TextSent(layer: TextLayer, raster: Raster, reply: Reply, base: nat, fallback: bool): seq<Request> {
    if Escalates(NativeText(layer), fallback) then OcrSent(raster, reply, base) else []
  }

  /** `extract_text`: native text first; when it is empty, or the fallback is on
      and it has fewer than 100 words, the transcription replaces it. Without a
      model (`llm is None`) the tool builds one with behaviour `defaultReply`,
      and only when it escalates. */
  method ExtractText(layer: TextLayer, raster: Raster, llm: ChatModel?, defaultReply: Reply, fallback: bool)
    returns (text: string)
    modifies llm
    ensures llm != null ==> text == TextResult(layer, raster, llm.reply, |old(llm.log)|, fallback)
    ensures llm != null ==> llm.log == old(llm.log) + TextSent(layer, raster, llm.reply, |old(llm.log)|, fallback)
    ensures llm == null ==> text == TextResult(layer, raster, defaultReply, 0, fallback)
  {
    text := ExtractWithPypdf(layer);
    if text == "" || (fallback && IsTextIncomplete(text)) {
      var model := llm;
      if model == null {
        model := new ChatModel(defaultReply);
      }
      text := ExtractWithLlmOcr(raster, model);
    }
  }

  /** With the fallback disabled, non-empty native text is returned unchanged
      and the model is not asked anything. */
  lemma NoFallbackKeepsNativeText(layer: TextLayer, raster: Raster, reply: Reply, base: nat)
    requires NativeText(layer) != ""
    ensures TextResult(layer, raster, reply, base, false) == NativeText(layer)
    ensures TextSent(layer, raster, reply, base, false) == []
  {
  }

  /** Empty native text is always replaced by the transcription, whether the
      fallback is enabled or not (the test `test_no_fallback_when_disabled`
      expects the opposite). */
  lemma EmptyNativeAlwaysEscalates(layer: TextLayer, raster: Raster, reply: Reply, base: nat, fallback: bool)
    requires NativeText(layer) == ""
    ensures TextResult(layer, raster, reply, base, fallback) == OcrText(raster, reply, base)
    ensures TextSent(layer, raster, reply, base, fallback) == OcrSent(raster, reply, base)
  {
  }

  /** With the fallback enabled, the pages' word counts decide: at least 100 words
      in total keeps the native text and sends nothing; fewer makes the result
      exactly the transcription, even when that is `""`, and the requests sent
      exactly the transcription's. */
  lemma {:induction false} FallbackDecidedByPageWords(pages: seq<Result<string>>, raster: Raster, reply: Reply, base: nat)
    requires AllOk(pages)
    ensures SumWords(Values(pages)) >= WordThreshold ==>
      TextResult(Ok(pages), raster, reply, base, true) == NativeText(Ok(pages))
      && TextSent(Ok(pages), raster, reply, base, true) == []
    ensures SumWords(Values(pages)) < WordThreshold ==>
      TextResult(Ok(pages), raster, reply, base, true) == OcrText(raster, reply, base)
      && TextSent(Ok(pages), raster, reply, base, true) == OcrSent(raster, reply, base)
  {
    NativeWordCount(Values(pages));
  }
}
