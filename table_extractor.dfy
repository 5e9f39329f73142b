/** Table extraction with fallback (`TableExtractorTool`): a lattice table
    detector first; only when it yields nothing, one vision-model request per
    selected page image. */
module TableExtractor {
  import opened Wrappers
  import opened PyText
  import opened Oracles

  /** One row of a detected table as `df.to_dict(orient="records")` gives it:
      column label to cell text. */
  type Row = map<nat, string>

  /** A table as the detector reports it: its page, and the outcomes of
      converting it to markdown (`df.to_markdown`) and to rows (`df.to_dict`). */
  datatype DetectedTable = DetectedTable(page: int, markdown: Result<string>, rows: Result<seq<Row>>)

  /** The detector (`camelot.read_pdf(..., pages=p, flavor="lattice")`) as a
      function of the page string it is given. */
  type Detector = string -> Result<seq<DetectedTable>>

  /** A table record: its 1-based page, its markdown, and its rows, which only
      the detector supplies (`None` for tables the model transcribed). */
  datatype TableRecord = TableRecord(page: int, markdown: string, data: Option<seq<Row>>)

  /** The model's answer for a page without tables contains this text. */
  const NoTablesFound := "No tables found"

  // ---------------------------------------------------------------------------
  // The detector path

  /** The page string handed to the detector: `"all"` becomes `"1-end"`. */
  function CamelotPages(pages: string): string {
    if pages == "all" then "1-end" else pages
  }

  /** The records for detected tables, built table by table; `Err` when a
      conversion raises. */
  function DetectedRecords(ts: seq<DetectedTable>): Result<seq<TableRecord>> {
    if ts == [] then Ok([])
    else
      match DetectedRecords(ts[..|ts| - 1])
      case Err => Err
      case Ok(rs) =>
        var t := ts[|ts| - 1];
        if t.markdown.Ok? && t.rows.Ok? then Ok(rs + [TableRecord(t.page, t.markdown.value, Some(t.rows.value))])
        else Err
  }

  /** Converting detected tables succeeds exactly when every conversion does, and
      then gives one record per table, in detector order, each with its rows. */
  lemma {:induction false} DetectedRecordsShape(ts: seq<DetectedTable>)
    ensures DetectedRecords(ts).Ok? <==> forall k :: 0 <= k < |ts| ==> ts[k].markdown.Ok? && ts[k].rows.Ok?
    ensures DetectedRecords(ts).Ok? ==>
      var rs := DetectedRecords(ts).value;
      |rs| == |ts| &&
      forall k :: 0 <= k < |ts| ==> rs[k] == TableRecord(ts[k].page, ts[k].markdown.value, Some(ts[k].rows.value))
  {
    if ts != [] {
      var ts' := ts[..|ts| - 1];
      DetectedRecordsShape(ts');
      assert forall k :: 0 <= k < |ts'| ==> ts'[k] == ts[k];
    }
  }

  /** What `_extract_with_camelot` returns. */
  function CamelotTables(pages: string, detect: Detector): seq<TableRecord> {
    match detect(CamelotPages(pages))
    case Err => []
    case Ok(ts) => match DetectedRecords(ts) case Err => [] case Ok(rs) => rs
  }

  /** `_extract_with_camelot`: one record `{page, markdown, data}` per detected
      table, in detector order; any exception yields `[]`. */
  method ExtractWithCamelot(pages: string, detect: Detector) returns (result: seq<TableRecord>)
    ensures result == CamelotTables(pages, detect)
  {
    var p := pages;
    if p == "all" {
      p := "1-end";
    }
    var detected := detect(p);
    if detected.Err? {
      return [];
    }
    var tables := detected.value;
    result := [];
    var i := 0;
    while i < |tables|
      invariant 0 <= i <= |tables|
      invariant DetectedRecords(tables[..i]) == Ok(result)
    {
      var t := tables[i];
      assert tables[..i + 1][..i] == tables[..i];
      if t.markdown.Err? || t.rows.Err? {
        DetectedRecordsShape(tables);
        return [];
      }
      result := result + [TableRecord(t.page, t.markdown.value, Some(t.rows.value))];
      i := i + 1;
    }
    assert tables[..i] == tables;
  }

  /** The detector path yields nothing exactly when the detector raises, finds
      no table, or a conversion raises: all three send the tool to the model. */
  lemma {:induction false} CamelotEmptyIff(pages: string, detect: Detector)
    ensures CamelotTables(pages, detect) == [] <==>
      var d := detect(CamelotPages(pages));
      d.Err? || |d.value| == 0 || exists k :: 0 <= k < |d.value| && (d.value[k].markdown.Err? || d.value[k].rows.Err?)
  {
    var d := detect(CamelotPages(pages));
    if d.Ok? {
      DetectedRecordsShape(d.value);
      if DetectedRecords(d.value).Ok? && |d.value| > 0 {
        assert DetectedRecords(d.value).value[0] in DetectedRecords(d.value).value;
      }
    }
  }

  // ---------------------------------------------------------------------------
  // The page selector

  /** `range(start, end + 1)` for two parsed ends, when both parsed. */
  function RangeOf(x: Option<int>, y: Option<int>): Option<seq<int>> {
    if x.Some? && y.Some? then Some(IntRange(x.value, y.value)) else None
  }

  /** The page numbers one selector token stands for: `"a-b"` is the inclusive
      range (empty when a > b), any other token one number; `None` when `int()`
      or the two-way unpacking of `part.split("-")` raises. */
  function TokenPages(tok: string): (r: Option<seq<int>>)
    ensures r.Some? && '-' !in tok ==> |r.value| == 1
    ensures r.Some? && '-' in tok ==> |SplitOn(tok, '-')| == 2
  {
    if '-' in tok then
      var ends := SplitOn(tok, '-');
      if |ends| != 2 then None else RangeOf(ParseInt(ends[0]), ParseInt(ends[1]))
    else
      match ParseInt(tok)
      case Some(n) => Some([n])
      case None => None
  }

  /** Both lists, one after the other, when both exist. */
  function Both(x: Option<seq<int>>, y: Option<seq<int>>): Option<seq<int>> {
    if x.Some? && y.Some? then Some(x.value + y.value) else None
  }

  /** The page numbers of each token, in order. */
  function TokenResults(toks: seq<string>): (rs: seq<Option<seq<int>>>)
    ensures |rs| == |toks|
  {
    seq(|toks|, k requires 0 <= k < |toks| => TokenPages(toks[k]))
  }

  /** The tokens' page numbers accumulated token by token; `None` once any token fails. */
  function Collect(rs: seq<Option<seq<int>>>): Option<seq<int>> {
    if rs == [] then Some([])
    else Both(Collect(rs[..|rs| - 1]), rs[|rs| - 1])
  }

  /** The 1-based page numbers a selector other than `"all"` stands for. */
  function PageNums(pages: string): (r: Option<seq<int>>)
    ensures r.Some? <==> forall tok :: tok in SplitOn(pages, ',') ==> TokenPages(tok).Some?
  {
    var toks := SplitOn(pages, ',');
    var rs := TokenResults(toks);
    CollectSomeIff(rs);
    assert forall k :: 0 <= k < |rs| ==> rs[k] == TokenPages(toks[k]);
    assert (forall k :: 0 <= k < |rs| ==> rs[k].Some?) <==> (forall tok :: tok in toks ==> TokenPages(tok).Some?) by {
      if forall k :: 0 <= k < |rs| ==> rs[k].Some? {
        forall tok | tok in toks ensures TokenPages(tok).Some? {
          var k :| 0 <= k < |toks| && toks[k] == tok;
          assert rs[k].Some?;
        }
      }
    }
    Collect(rs)
  }

  /** The tokens collect to pages exactly when every token parses. */
  lemma {:induction false} CollectSomeIff(rs: seq<Option<seq<int>>>)
    ensures Collect(rs).Some? <==> forall k :: 0 <= k < |rs| ==> rs[k].Some?
    decreases |rs|
  {
    if rs != [] {
      var n := |rs| - 1;
      CollectSomeIff(rs[..n]);
      assert forall k :: 0 <= k < n ==> rs[..n][k] == rs[k];
    }
  }

  /** The parsing loop of `_extract_with_llm`: `append` for a number, `extend`
      for a range, over the comma-separated tokens. */
  method ParsePageNums(pages: string) returns (nums: Option<seq<int>>)
    ensures nums == PageNums(pages)
  {
    var parts := SplitOn(pages, ',');
    ghost var rs := TokenResults(parts);
    var pageNums: seq<int> := [];
    var i := 0;
    while i < |parts|
      invariant 0 <= i <= |parts|
      invariant Collect(rs[..i]) == Some(pageNums)
    {
      var part := parts[i];
      assert rs[..i + 1][..i] == rs[..i];
      assert rs[i] == TokenPages(part);
      assert Collect(rs[..i + 1]) == Both(Some(pageNums), TokenPages(part));
      if '-' in part {
        var ends := SplitOn(part, '-');
        if |ends| != 2 {
          CollectNone(rs, i);
          return None;
        }
        var start, end := ParseInt(ends[0]), ParseInt(ends[1]);
        if start.None? || end.None? {
          CollectNone(rs, i);
          return None;
        }
        pageNums := pageNums + IntRange(start.value, end.value);
      } else {
        var n := ParseInt(part);
        if n.None? {
          CollectNone(rs, i);
          return None;
        }
        pageNums := pageNums + [n.value];
      }
      i := i + 1;
    }
    assert rs[..i] == rs;
    nums := Some(pageNums);
  }

  /** Token lists compose: the pages of `a + b` are those of `a` then those of
      `b`, and a bad token anywhere spoils the whole list. */
  lemma {:induction false} CollectAppend(a: seq<Option<seq<int>>>, b: seq<Option<seq<int>>>)
    ensures Collect(a + b) == Both(Collect(a), Collect(b))
    decreases |b|
  {
    if b == [] {
      assert a + b == a;
      if Collect(a).Some? {
        assert Collect(a).value + [] == Collect(a).value;
      }
    } else {
      var b', last := b[..|b| - 1], b[|b| - 1];
      assert (a + b)[..|a + b| - 1] == a + b';
      assert (a + b)[|a + b| - 1] == last;
      CollectAppend(a, b');
      assert Collect(a + b) == Both(Both(Collect(a), Collect(b')), last);
      assert Collect(b) == Both(Collect(b'), last);
      if Collect(a).Some? && Collect(b').Some? && last.Some? {
        assert Collect(a).value + Collect(b').value + last.value == Collect(a).value + (Collect(b').value + last.value);
      }
    }
  }

  /** A failing token fails the whole selector. */
  lemma {:induction false} CollectNone(rs: seq<Option<seq<int>>>, i: nat)
    requires i < |rs| && Collect(rs[..i + 1]).None?
    ensures Collect(rs).None?
  {
    CollectAppend(rs[..i + 1], rs[i + 1..]);
    assert rs[..i + 1] + rs[i + 1..] == rs;
  }

  /** Selectors compose: `"x,y"` selects the pages of `x` followed by those of
      `y`, keeping order and duplicates; it fails when either part fails. */
  lemma {:induction false} PageNumsConcat(x: string, y: string)
    ensures PageNums(x + [','] + y) == Both(PageNums(x), PageNums(y))
  {
    var px, py := SplitOn(x, ','), SplitOn(y, ',');
    SplitAt(x, ',', y);
    TokenResultsAppend(px, py);
    CollectAppend(TokenResults(px), TokenResults(py));
  }

  lemma {:induction false} TokenResultsAppend(a: seq<string>, b: seq<string>)
    ensures TokenResults(a + b) == TokenResults(a) + TokenResults(b)
  {
    var l, r := TokenResults(a + b), TokenResults(a) + TokenResults(b);
    assert forall k :: 0 <= k < |a| ==> l[k] == r[k] by {
      assert forall k :: 0 <= k < |a| ==> (a + b)[k] == a[k];
    }
    assert forall k :: |a| <= k < |a| + |b| ==> l[k] == r[k] by {
      assert forall k :: |a| <= k < |a| + |b| ==> (a + b)[k] == b[k - |a|];
    }
  }

  /** A selector without a comma is a single token. */
  lemma {:induction false} PageNumsToken(tok: string)
    requires ',' !in tok
    ensures PageNums(tok) == TokenPages(tok)
  {
    SplitNoSep(tok, ',');
    var rs := TokenResults([tok]);
    var t := TokenPages(tok);
    assert rs == [t];
    assert rs[..0] == [];
    assert Collect(rs) == Both(Collect(rs[..0]), t);
    assert Collect(rs[..0]) == Some([]);
    if t.Some? {
      assert [] + t.value == t.value;
    }
  }

  /** A digit run holds no separator. */
  lemma {:induction false} DecimalNoSeparators(s: string)
    requires IsDecimal(s)
    ensures ',' !in s && '-' !in s
  {
    forall k | 0 <= k < |s| ensures s[k] != ',' && s[k] != '-' {
      assert IsDigit(s[k]);
    }
  }

  /** A number token selects that page. */
  lemma {:induction false} PageNumsNumber(s: string)
    requires IsDecimal(s)
    ensures PageNums(s) == Some([DigitsValue(s)])
  {
    DecimalNoSeparators(s);
    PageNumsToken(s);
    ParseDecimal(s);
  }

  /** A token with one dash is the range between its two sides. */
  lemma {:induction false} TokenPagesRange(x: string, y: string)
    requires '-' !in x && '-' !in y
    ensures TokenPages(x + "-" + y) == RangeOf(ParseInt(x), ParseInt(y))
  {
    var tok := x + "-" + y;
    assert tok[|x|] == '-';
    SplitAt(x, '-', y);
    SplitNoSep(x, '-');
    SplitNoSep(y, '-');
    assert SplitOn(tok, '-') == [x, y];
  }

  /** A range token `"a-b"` selects `a, a+1, ..., b`, nothing when a > b. */
  lemma {:induction false} PageNumsRange(x: string, y: string)
    requires IsDecimal(x) && IsDecimal(y)
    ensures PageNums(x + "-" + y) == Some(IntRange(DigitsValue(x), DigitsValue(y)))
  {
    DecimalNoSeparators(x);
    DecimalNoSeparators(y);
    TokenPagesRange(x, y);
    ParseDecimal(x);
    ParseDecimal(y);
    assert ',' !in x + "-" + y;
    PageNumsToken(x + "-" + y);
  }

  /** A token with two dashes (`"1-2-3"`) fails the two-way unpacking. */
  lemma {:induction false} TwoDashesFail(a: string, b: string, c: string)
    requires IsDecimal(a) && IsDecimal(b) && IsDecimal(c)
    ensures PageNums(a + "-" + b + "-" + c) == None
  {
    var tok := a + "-" + b + "-" + c;
    DecimalNoSeparators(a);
    DecimalNoSeparators(b);
    DecimalNoSeparators(c);
    assert ',' !in tok;
    PageNumsToken(tok);
    assert tok[|a|] == '-';
    SplitAt(a + "-" + b, '-', c);
    SplitAt(a, '-', b);
    SplitNoSep(a, '-');
    SplitNoSep(b, '-');
    SplitNoSep(c, '-');
    assert |SplitOn(tok, '-')| == 3;
  }

  /** A range without a start (`"-3"`) fails: `int("")` raises. */
  lemma {:induction false} MissingStartFails(b: string)
    requires IsDecimal(b)
    ensures PageNums("-" + b) == None
  {
    DecimalNoSeparators(b);
    assert "-" + b == [] + "-" + b;
    TokenPagesRange([], b);
    assert ParseInt([]) == None;
    assert ',' !in "-" + b;
    PageNumsToken("-" + b);
  }

  /** A word does not parse as a number. */
  lemma {:induction false} WordIsNotANumber(w: string)
    requires |w| > 0 && 'a' <= w[0] <= 'z'
    ensures ParseInt(w) == None
  {
    assert TrimStart(w) == w;
    TrimEndKeepsHead(w);
    var u := TrimEnd(w);
    assert Strip(w) == u;
    assert !IsDigit(u[0]);
    assert !DigitString(u);
    assert !(u[0] == '+' || u[0] == '-');
  }

  /** A word (`"x"`) fails the selector. */
  lemma {:induction false} WordSelectorFails(w: string)
    requires |w| > 0 && 'a' <= w[0] <= 'z' && ',' !in w && '-' !in w
    ensures PageNums(w) == None
  {
    PageNumsToken(w);
    WordIsNotANumber(w);
  }

  /** A range to a word fails; in particular `"1-end"`, the detector's spelling
      of `"all"`, is not understood by the vision path. */
  lemma {:induction false} RangeToWordFails(a: string, w: string)
    requires IsDecimal(a)
    requires |w| > 0 && 'a' <= w[0] <= 'z' && ',' !in w && '-' !in w
    ensures PageNums(a + "-" + w) == None
  {
    DecimalNoSeparators(a);
    TokenPagesRange(a, w);
    WordIsNotANumber(w);
    assert ',' !in a + "-" + w;
    PageNumsToken(a + "-" + w);
  }

  // ---------------------------------------------------------------------------
  // The vision path

  /** `[images[i] for i in indices if i < len(images)]`, built index by index;
      `Err` when an index below `-len(images)` raises `IndexError`. */
  function SelectImages(images: seq<Image>, indices: seq<int>): (r: Result<seq<Image>>)
    ensures r.Ok? ==> |r.value| <= |indices|
  {
    if indices == [] then Ok([])
    else
      match SelectImages(images, indices[..|indices| - 1])
      case Err => Err
      case Ok(sel) =>
        var i := indices[|indices| - 1];
        if i < |images| then
          match PyIndex(images, i)
          case Err => Err
          case Ok(img) => Ok(sel + [img])
        else Ok(sel)
  }

  /** `range(len(images))`. */
  function AllIndices(n: nat): (ix: seq<int>)
    ensures |ix| == n && forall k :: 0 <= k < n ==> ix[k] == k
  {
    seq(n, k => k)
  }

  /** `[p - 1 for p in page_nums]`: 1-based page numbers to list indices. */
  function PageIndices(nums: seq<int>): (ix: seq<int>)
    ensures |ix| == |nums| && forall k :: 0 <= k < |nums| ==> ix[k] == nums[k] - 1
  {
    seq(|nums|, k requires 0 <= k < |nums| => nums[k] - 1)
  }

  /** The page indices and the page images the vision path works through. */
  datatype VisionPlan = VisionPlan(indices: seq<int>, images: seq<Image>)

  /** How `_extract_with_llm` resolves its selector: `"all"` is every page with
      indices 0..n-1; otherwise the parsed numbers minus one, with the images
      selected by those indices. `Err` when parsing, rasterizing or indexing raises. */
  function PlanVision(pages: string, raster: Raster): (r: Result<VisionPlan>)
    ensures r.Ok? ==> |r.value.images| <= |r.value.indices|
  {
    if pages == "all" then
      match raster
      case Err => Err
      case Ok(images) => Ok(VisionPlan(AllIndices(|images|), images))
    else
      match PageNums(pages)
      case None => Err
      case Some(nums) =>
        var indices := PageIndices(nums);
        match raster
        case Err => Err
        case Ok(images) =>
          match SelectImages(images, indices)
          case Err => Err
          case Ok(sel) => Ok(VisionPlan(indices, sel))
  }

  /** One table request per selected image, in order. */
  function TableRequests(images: seq<Image>): (qs: seq<Request>)
    ensures |qs| == |images|
  {
    seq(|images|, k requires 0 <= k < |images| => IdentifyTables(images[k]))
  }

  /** The records for the model's answers, built answer by answer: the k-th
      answer is labelled page `indices[k] + 1`, an answer containing
      "No tables found" adds nothing, and any failed call gives `Err`. */
  function VisionRecords(indices: seq<int>, answers: seq<Result<string>>): (r: Result<seq<TableRecord>>)
    requires |answers| <= |indices|
    ensures r.Ok? ==> |r.value| <= |answers|
  {
    if answers == [] then Ok([])
    else
      var n := |answers| - 1;
      match VisionRecords(indices, answers[..n])
      case Err => Err
      case Ok(rs) =>
        match answers[n]
        case Err => Err
        case Ok(md) => Ok(rs + if Contains(md, NoTablesFound) then [] else [TableRecord(indices[n] + 1, md, None)])
  }

  /** The vision path succeeds exactly when every call does; every record it
      yields carries no rows and an answer without "No tables found". */
  lemma {:induction false} VisionRecordsShape(indices: seq<int>, answers: seq<Result<string>>)
    requires |answers| <= |indices|
    ensures VisionRecords(indices, answers).Ok? <==> AllOk(answers)
    ensures VisionRecords(indices, answers).Ok? ==>
      var rs := VisionRecords(indices, answers).value;
      |rs| <= |answers| &&
      forall r :: r in rs ==> r.data.None? && !Contains(r.markdown, NoTablesFound)
  {
    if answers != [] {
      var n := |answers| - 1;
      VisionRecordsShape(indices, answers[..n]);
      assert forall k :: 0 <= k < n ==> answers[..n][k] == answers[k];
    }
  }

  /** When no answer is the sentinel, the k-th record is the k-th answer, labelled `indices[k] + 1`. */
  lemma {:induction false} VisionRecordsAllTables(indices: seq<int>, answers: seq<Result<string>>)
    requires |answers| <= |indices| && AllOk(answers)
    requires forall k :: 0 <= k < |answers| ==> !Contains(answers[k].value, NoTablesFound)
    ensures VisionRecords(indices, answers).Ok?
    ensures var rs := VisionRecords(indices, answers).value;
      |rs| == |answers| &&
      forall k :: 0 <= k < |answers| ==> rs[k] == TableRecord(indices[k] + 1, answers[k].value, None)
  {
    if answers != [] {
      var n := |answers| - 1;
      var init := answers[..n];
      assert forall k :: 0 <= k < n ==> init[k] == answers[k];
      VisionRecordsAllTables(indices, init);
    }
  }

  /** Reference definition of the sentinel filter, answer by answer from the
      front: the answer to request `from + k` is dropped when it contains
      "No tables found", and otherwise becomes a record labelled `indices[from + k] + 1`. */
  function Kept(indices: seq<int>, answers: seq<string>, from: nat): seq<TableRecord>
    requires from + |answers| <= |indices|
    decreases |answers|
  {
    if answers == [] then []
    else KeptOne(indices[from], answers[0]) + Kept(indices, answers[1..], from + 1)
  }

  /** What one answer contributes: nothing for the sentinel, else its record. */
  function KeptOne(index: int, md: string): seq<TableRecord> {
    if Contains(md, NoTablesFound) then [] else [TableRecord(index + 1, md, None)]
  }

  lemma {:induction false} KeptSnoc(indices: seq<int>, answers: seq<string>, md: string, from: nat)
    requires from + |answers| < |indices|
    ensures Kept(indices, answers + [md], from) == Kept(indices, answers, from) + KeptOne(indices[from + |answers|], md)
    decreases |answers|
  {
    if answers == [] {
      assert [] + [md] == [md];
      assert [md][1..] == [];
    } else {
      var t := answers[1..];
      assert (answers + [md])[0] == answers[0] && (answers + [md])[1..] == t + [md];
      KeptSnoc(indices, t, md, from + 1);
      var h := KeptOne(indices[from], answers[0]);
      var x := Kept(indices, t, from + 1);
      var tail := KeptOne(indices[from + |answers|], md);
      assert Kept(indices, answers + [md], from) == h + (x + tail);
      ConcatAssoc(h, x, tail);
    }
  }

  /** The filter keeps reply order: the records of a run of answers followed by
      another are the first run's records, then the second's. */
  lemma {:induction false} KeptAppend(indices: seq<int>, a: seq<string>, b: seq<string>, from: nat)
    requires from + |a| + |b| <= |indices|
    ensures Kept(indices, a + b, from) == Kept(indices, a, from) + Kept(indices, b, from + |a|)
    decreases |a|
  {
    if a == [] {
      assert a + b == b;
    } else {
      var t := a[1..];
      assert (a + b)[0] == a[0] && (a + b)[1..] == t + b;
      KeptAppend(indices, t, b, from + 1);
      assert Kept(indices, a + b, from) == KeptOne(indices[from], a[0]) + Kept(indices, t + b, from + 1);
      assert Kept(indices, a, from) == KeptOne(indices[from], a[0]) + Kept(indices, t, from + 1);
      ConcatAssoc(KeptOne(indices[from], a[0]), Kept(indices, t, from + 1), Kept(indices, b, from + |a|));
    }
  }

  /** Every answer without the sentinel yields its record. */
  lemma {:induction false} KeptIncludes(indices: seq<int>, answers: seq<string>, from: nat)
    requires from + |answers| <= |indices|
    ensures forall k :: 0 <= k < |answers| && !Contains(answers[k], NoTablesFound) ==>
      TableRecord(indices[from + k] + 1, answers[k], None) in Kept(indices, answers, from)
    decreases |answers|
  {
    if answers != [] {
      var t := answers[1..];
      KeptIncludes(indices, t, from + 1);
      var h := KeptOne(indices[from], answers[0]);
      var rest := Kept(indices, t, from + 1);
      assert Kept(indices, answers, from) == h + rest;
      forall k | 0 <= k < |answers| && !Contains(answers[k], NoTablesFound)
        ensures TableRecord(indices[from + k] + 1, answers[k], None) in h + rest
      {
        if k == 0 {
          assert TableRecord(indices[from] + 1, answers[0], None) in h;
        } else {
          assert answers[k] == t[k - 1];
          assert TableRecord(indices[from + 1 + (k - 1)] + 1, t[k - 1], None) in rest;
        }
      }
    }
  }

  /** `KeptIncludes` for one answer. */
  lemma {:induction false} KeptIncludesAt(indices: seq<int>, answers: seq<string>, from: nat, k: nat)
    requires from + |answers| <= |indices|
    requires k < |answers| && !Contains(answers[k], NoTablesFound)
    ensures TableRecord(indices[from + k] + 1, answers[k], None) in Kept(indices, answers, from)
  {
    KeptIncludes(indices, answers, from);
  }

  /** Every record is the record of an answer without the sentinel. */
  lemma {:induction false} KeptOnly(indices: seq<int>, answers: seq<string>, from: nat, r: TableRecord)
    requires from + |answers| <= |indices| && r in Kept(indices, answers, from)
    ensures exists k :: (0 <= k < |answers| && !Contains(answers[k], NoTablesFound) &&
                         r == TableRecord(indices[from + k] + 1, answers[k], None))
    decreases |answers|
  {
    var t := answers[1..];
    var h := KeptOne(indices[from], answers[0]);
    assert Kept(indices, answers, from) == h + Kept(indices, t, from + 1);
    if r in h {
      assert !Contains(answers[0], NoTablesFound) && r == TableRecord(indices[from + 0] + 1, answers[0], None);
    } else {
      KeptOnly(indices, t, from + 1, r);
      var j :| 0 <= j < |t| && !Contains(t[j], NoTablesFound) && r == TableRecord(indices[from + 1 + j] + 1, t[j], None);
      assert answers[j + 1] == t[j] && from + (j + 1) == from + 1 + j;
    }
  }

  /** When every call succeeds, the records are exactly the filter of the
      answers: an answer without "No tables found" becomes the record
      `{page: indices[k] + 1, markdown: answer, data: None}`, in answer order,
      and a sentinel answer adds nothing. */
  lemma {:induction false} VisionRecordsKept(indices: seq<int>, answers: seq<Result<string>>)
    requires |answers| <= |indices| && AllOk(answers)
    ensures VisionRecords(indices, answers) == Ok(Kept(indices, Values(answers), 0))
  {
    if answers != [] {
      var n := |answers| - 1;
      var init := answers[..n];
      assert forall k :: 0 <= k < n ==> init[k] == answers[k];
      VisionRecordsKept(indices, init);
      var vs := Values(answers);
      assert vs == Values(init) + [answers[n].value];
      KeptSnoc(indices, Values(init), answers[n].value, 0);
    }
  }

  /** When every call succeeds, a reply without "No tables found" yields its
      record `{page: indices[k] + 1, markdown: reply, data: None}`. */
  lemma {:induction false} VisionRecordsKeepsReply(indices: seq<int>, answers: seq<Result<string>>, k: nat)
    requires |answers| <= |indices| && AllOk(answers)
    requires k < |answers| && !Contains(answers[k].value, NoTablesFound)
    ensures VisionRecords(indices, answers).Ok?
    ensures TableRecord(indices[k] + 1, answers[k].value, None) in VisionRecords(indices, answers).value
  {
    VisionRecordsKept(indices, answers);
    var vs := Values(answers);
    ValuesAt(answers, k);
    KeptIncludesAt(indices, vs, 0, k);
  }

  /** Every record comes from a reply without "No tables found". */
  lemma {:induction false} VisionRecordsOnlyReplies(indices: seq<int>, answers: seq<Result<string>>, r: TableRecord)
    requires |answers| <= |indices| && AllOk(answers)
    requires VisionRecords(indices, answers).Ok? && r in VisionRecords(indices, answers).value
    ensures exists k :: (0 <= k < |answers| && !Contains(answers[k].value, NoTablesFound) &&
                         r == TableRecord(indices[k] + 1, answers[k].value, None))
  {
    VisionRecordsKept(indices, answers);
    var vs := Values(answers);
    KeptOnly(indices, vs, 0, r);
    var k :| 0 <= k < |vs| && !Contains(vs[k], NoTablesFound) && r == TableRecord(indices[0 + k] + 1, vs[k], None);
    ValuesAt(answers, k);
    assert 0 <= k < |answers| && !Contains(answers[k].value, NoTablesFound) &&
           r == TableRecord(indices[k] + 1, answers[k].value, None);
  }

  /** The records the model's answers about `images` give, when its first
      request is number `base`; `[]` when a call fails. */
  function AskedTables(indices: seq<int>, images: seq<Image>, reply: Reply, base: nat): seq<TableRecord>
    requires |images| <= |indices|
  {
    match VisionRecords(indices, Replies(reply, base, TableRequests(images)))
    case Err => []
    case Ok(rs) => rs
  }

  /** What `_extract_with_llm` returns when the model's first request is number `base`. */
  function LlmTables(pages: string, raster: Raster, reply: Reply, base: nat): seq<TableRecord> {
    match PlanVision(pages, raster)
    case Err => []
    case Ok(plan) => AskedTables(plan.indices, plan.images, reply, base)
  }

  /** The requests `_extract_with_llm` sends: one per selected image, up to the first failure. */
  function LlmTablesSent(pages: string, raster: Raster, reply: Reply, base: nat): seq<Request> {
    match PlanVision(pages, raster)
    case Err => []
    case Ok(plan) => SentUntilFailure(reply, base, TableRequests(plan.images))
  }

  /** The first half of `_extract_with_llm`: the page indices and the images
      for the selector. */
  method ResolvePages(pages: string, raster: Raster) returns (plan: Result<VisionPlan>)
    ensures plan == PlanVision(pages, raster)
  {
    if pages == "all" {
      if raster.Err? {
        return Err;
      }
      return Ok(VisionPlan(AllIndices(|raster.value|), raster.value));
    }
    var nums := ParsePageNums(pages);
    if nums.None? {
      return Err;
    }
    var pageIndices := PageIndices(nums.value);
    if raster.Err? {
      return Err;
    }
    var selected := SelectImages(raster.value, pageIndices);
    if selected.Err? {
      return Err;
    }
    plan := Ok(VisionPlan(pageIndices, selected.value));
  }

  /** The second half of `_extract_with_llm`: one request per image, the k-th
      labelled page `indices[k] + 1`; a failing call abandons all records. */
  method AskForTables(indices: seq<int>, images: seq<Image>, llm: ChatModel) returns (result: seq<TableRecord>)
    requires |images| <= |indices|
    modifies llm
    ensures result == AskedTables(indices, images, llm.reply, |old(llm.log)|)
    ensures llm.log == old(llm.log) + SentUntilFailure(llm.reply, |old(llm.log)|, TableRequests(images))
  {
    ghost var base := |llm.log|;
    ghost var qs := TableRequests(images);
    ghost var rs := Replies(llm.reply, base, qs);
    result := [];
    var i := 0;
    while i < |images|
      invariant 0 <= i <= |images|
      invariant i <= FirstErr(rs)
      invariant llm.log == old(llm.log) + qs[..i]
      invariant VisionRecords(indices, rs[..i]) == Ok(result)
    {
      TableRequestAt(images, llm.reply, base, i);
      var pageNum := indices[i] + 1;
      var r := llm.Invoke(IdentifyTables(images[i]));
      assert r == rs[i];
      assert llm.log == old(llm.log) + qs[..i + 1] by {
        LogSnoc(old(llm.log), qs, i);
      }
      if r.Err? {
        AskFailsAt(indices, images, llm.reply, base, i);
        return [];
      }
      VisionRecordsStep(indices, rs, i);
      if !Contains(r.value, NoTablesFound) {
        result := result + [TableRecord(pageNum, r.value, None)];
      } else {
        assert result + [] == result;
      }
      i := i + 1;
    }
    assert rs[..i] == rs && qs[..i] == qs;
  }

  lemma TableRequestAt(images: seq<Image>, reply: Reply, base: nat, i: nat)
    requires i < |images|
    ensures TableRequests(images)[i] == IdentifyTables(images[i])
    ensures Replies(reply, base, TableRequests(images))[i] == reply(base + i, IdentifyTables(images[i]))
  {
  }

  /** One more successful answer extends the records by its own, if it has one. */
  lemma {:induction false} VisionRecordsStep(indices: seq<int>, rs: seq<Result<string>>, i: nat)
    requires i < |rs| <= |indices| && rs[i].Ok?
    ensures i + 1 <= |rs|
    ensures VisionRecords(indices, rs[..i + 1]) ==
      match VisionRecords(indices, rs[..i])
      case Err => Err
      case Ok(recs) =>
        Ok(recs + if Contains(rs[i].value, NoTablesFound) then [] else [TableRecord(indices[i] + 1, rs[i].value, None)])
  {
    assert rs[..i + 1][..i] == rs[..i];
    assert rs[..i + 1][i] == rs[i];
  }

  /** A failing answer to request i, after i successful ones, sends requests up
      to i and yields no records. */
  lemma {:induction false} AskFailsAt(indices: seq<int>, images: seq<Image>, reply: Reply, base: nat, i: nat)
    requires i < |images| <= |indices|
    requires i <= FirstErr(Replies(reply, base, TableRequests(images)))
    requires reply(base + i, IdentifyTables(images[i])).Err?
    ensures AskedTables(indices, images, reply, base) == []
    ensures SentUntilFailure(reply, base, TableRequests(images)) == TableRequests(images)[..i + 1]
  {
    var rs := Replies(reply, base, TableRequests(images));
    assert rs[i].Err?;
    assert FirstErr(rs) == i;
    VisionRecordsShape(indices, rs);
  }

  /** `_extract_with_llm`: resolves the selector, then asks the model about each
      selected image in turn; any exception, including a failing call after some
      records were collected, yields `[]`. */
  method ExtractWithLlm(pages: string, raster: Raster, llm: ChatModel) returns (result: seq<TableRecord>)
    modifies llm
    ensures result == LlmTables(pages, raster, llm.reply, |old(llm.log)|)
    ensures llm.log == old(llm.log) + LlmTablesSent(pages, raster, llm.reply, |old(llm.log)|)
  {
    var plan := ResolvePages(pages, raster);
    if plan.Err? {
      return [];
    }
    result := AskForTables(plan.value.indices, plan.value.images, llm);
  }

  /** With `"all"`, the k-th request shows page k+1 and is labelled k+1. */
  lemma AllSelectsEveryPage(images: seq<Image>)
    ensures PlanVision("all", Ok(images)) == Ok(VisionPlan(AllIndices(|images|), images))
  {
  }

  /** When every requested page lies in 1..n, nothing is filtered and the k-th
      selected image is page `nums[k]`'s. */
  lemma {:induction false} SelectInRange(images: seq<Image>, indices: seq<int>)
    requires forall k :: 0 <= k < |indices| ==> 0 <= indices[k] < |images|
    ensures SelectImages(images, indices).Ok?
    ensures var sel := SelectImages(images, indices).value;
      |sel| == |indices| && forall k :: 0 <= k < |indices| ==> sel[k] == images[indices[k]]
  {
    if indices != [] {
      SelectInRange(images, indices[..|indices| - 1]);
    }
  }

  /** When every requested page lies in 1..n, the k-th request shows page
      `nums[k]` and its record, if any, is labelled `nums[k]`: labels follow the
      selector order exactly, duplicates included. */
  lemma {:induction false} LabelsFollowSelector(pages: string, images: seq<Image>, nums: seq<int>)
    requires pages != "all" && PageNums(pages) == Some(nums)
    requires forall k :: 0 <= k < |nums| ==> 1 <= nums[k] <= |images|
    ensures PlanVision(pages, Ok(images)).Ok?
    ensures var plan := PlanVision(pages, Ok(images)).value;
      |plan.images| == |plan.indices| == |nums| &&
      forall k :: 0 <= k < |nums| ==> plan.indices[k] + 1 == nums[k] && plan.images[k] == images[nums[k] - 1]
  {
    var indices := PageIndices(nums);
    SelectInRange(images, indices);
  }

  /** A selector naming page 0 (`"0"`) yields index -1, which passes the
      `i < len(images)` filter and picks the LAST page through negative
      indexing; its record is labelled page 0. */
  lemma {:induction false} PageZeroSelectsLastPage(pages: string, images: seq<Image>)
    requires pages != "all" && PageNums(pages) == Some([0]) && |images| > 0
    ensures PlanVision(pages, Ok(images)) == Ok(VisionPlan([-1], [images[|images| - 1]]))
  {
    var indices := PageIndices([0]);
    assert indices == [-1];
    assert indices[..0] == [];
    assert SelectImages(images, indices[..0]) == Ok([]);
    var last := images[|images| - 1];
    assert SelectImages(images, indices) == Ok([] + [last]);
    assert [] + [last] == [last];
    assert PlanVision(pages, Ok(images)) == Ok(VisionPlan(indices, [last]));
  }

  /** A page beyond the document is filtered out, but labels are still taken by
      position from the unfiltered index list: with pages `[p, q]`, p past the
      last page and q a real one (for instance `"5,1"` on two pages), the only
      request shows page q and its record is labelled page p. */
  lemma {:induction false} FilteredPageShiftsLabels(pages: string, images: seq<Image>, p: int, q: int)
    requires pages != "all" && PageNums(pages) == Some([p, q])
    requires 1 <= q <= |images| < p
    ensures PlanVision(pages, Ok(images)) == Ok(VisionPlan([p - 1, q - 1], [images[q - 1]]))
  {
    var indices := PageIndices([p, q]);
    assert indices == [p - 1, q - 1];
    assert indices[..1] == [p - 1];
    assert [p - 1][..0] == [];
    assert SelectImages(images, [p - 1][..0]) == Ok([]);
    assert SelectImages(images, indices[..1]) == Ok([]);
    var page := images[q - 1];
    assert SelectImages(images, indices) == Ok([] + [page]);
    assert [] + [page] == [page];
    assert PlanVision(pages, Ok(images)) == Ok(VisionPlan(indices, [page]));
  }

  // ---------------------------------------------------------------------------
  // extract_tables

  /** What `extract_tables` returns: the detector's records when there are
      any, otherwise the vision path's. */
  function TablesResult(pages: string, detect: Detector, raster: Raster, reply: Reply, base: nat): seq<TableRecord> {
    var found := CamelotTables(pages, detect);
    if found != [] then found else LlmTables(pages, raster, reply, base)
  }

  /** The requests `extract_tables` sends: none unless the detector path came back empty. */
  function TablesSent(pages: string, detect: Detector, raster: Raster, reply: Reply, base: nat): seq<Request> {
    if CamelotTables(pages, detect) != [] then [] else LlmTablesSent(pages, raster, reply, base)
  }

  /** `extract_tables`: the detector first; the vision path runs only when the
      detector's result is empty. Without a model (`llm is None`) the tool builds
      one with behaviour `defaultReply`, and only on the fallback path. */
  method ExtractTables(pages: string, detect: Detector, raster: Raster, llm: ChatModel?, defaultReply: Reply)
    returns (tables: seq<TableRecord>)
    modifies llm
    ensures llm != null ==> tables == TablesResult(pages, detect, raster, llm.reply, |old(llm.log)|)
    ensures llm != null ==> llm.log == old(llm.log) + TablesSent(pages, detect, raster, llm.reply, |old(llm.log)|)
    ensures llm == null ==> tables == TablesResult(pages, detect, raster, defaultReply, 0)
  {
    tables := ExtractWithCamelot(pages, detect);
    if tables == [] {
      var model := llm;
      if model == null {
        model := new ChatModel(defaultReply);
      }
      tables := ExtractWithLlm(pages, raster, model);
    }
  }

  /** A selector that does not parse makes the vision path return `[]` without
      sending anything. */
  lemma MalformedSelectorSendsNothing(pages: string, raster: Raster, reply: Reply, base: nat)
    requires pages != "all" && PageNums(pages).None?
    ensures LlmTables(pages, raster, reply, base) == []
    ensures LlmTablesSent(pages, raster, reply, base) == []
  {
  }

  /** Records from the vision path never carry rows; those from the detector
      always do. */
  lemma {:induction false} RowsOnlyFromDetector(pages: string, detect: Detector, raster: Raster, reply: Reply, base: nat)
    ensures forall r :: r in CamelotTables(pages, detect) ==> r.data.Some?
    ensures forall r :: r in LlmTables(pages, raster, reply, base) ==> r.data.None?
  {
    var d := detect(CamelotPages(pages));
    if d.Ok? {
      DetectedRecordsShape(d.value);
    }
    var plan := PlanVision(pages, raster);
    if plan.Ok? {
      VisionRecordsShape(plan.value.indices, Replies(reply, base, TableRequests(plan.value.images)));
    }
  }
}
