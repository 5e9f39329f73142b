/** Image extraction (`ImageExtractorTool`): every rendered page is one image,
    described by the vision model and, on request, saved to a directory. */
module ImageExtractor {
  import opened Wrappers
  import opened PyText
  import opened Oracles

  /** An entry of `_extract_images_from_pdf`: a 1-based page number and its image. */
  datatype PageImage = PageImage(page: nat, image: Image)

  /** A record of `extract_images`: the filename is present only when the image
      was saved, and the in-memory image only when it was not. */
  datatype ImageRecord = ImageRecord(page: nat, filename: Option<string>, description: string, image: Option<Image>)

  /** The description of an image whose description call raised. */
  const DescriptionUnavailable := "Image description unavailable"

  /** The directory name used when no output directory is given. */
  const DefaultDirName := "extracted_images"

  /** The file system as far as image saving touches it: directories created,
      and every image written, in order. `refuses` names the paths whose
      creation or write raises (a permission error, a full disk). */
  class Storage {
    const refuses: string -> bool
    var dirs: set<string>
    var files: seq<(string, Image)>

    constructor (refuses: string -> bool)
      ensures this.refuses == refuses && dirs == {} && files == []
    {
      this.refuses := refuses;
      dirs := {};
      files := [];
    }

    /** `os.makedirs(path, exist_ok=True)`; `false` when it raises. */
    method MakeDirs(path: string) returns (ok: bool)
      modifies this
      ensures ok == !refuses(path)
      ensures dirs == if ok then old(dirs) + {path} else old(dirs)
      ensures files == old(files)
    {
      ok := !refuses(path);
      if ok {
        dirs := dirs + {path};
      }
    }

    /** `image.save(path)`; `false` when it raises. */
    method Save(path: string, image: Image) returns (ok: bool)
      modifies this
      ensures ok == !refuses(path)
      ensures files == if ok then old(files) + [(path, image)] else old(files)
      ensures dirs == old(dirs)
    {
      ok := !refuses(path);
      if ok {
        files := files + [(path, image)];
      }
    }
  }

  // ---------------------------------------------------------------------------
  // POSIX paths

  /** The position just after the last `/` of `p`, 0 when there is none. */
  function AfterLastSlash(p: string): (i: nat)
    ensures i <= |p| && (i == 0 || p[i - 1] == '/')
    ensures forall k :: i <= k < |p| ==> p[k] != '/'
  {
    if p == [] then 0 else if p[|p| - 1] == '/' then |p| else AfterLastSlash(p[..|p| - 1])
  }

  predicate AllSlashes(s: string) {
    forall k :: 0 <= k < |s| ==> s[k] == '/'
  }

  /** `s.rstrip("/")`. */
  function TrimSlashes(s: string): (t: string)
    ensures |t| <= |s| && t == s[..|t|]
  {
    if s != [] && s[|s| - 1] == '/' then TrimSlashes(s[..|s| - 1]) else s
  }

  /** `os.path.dirname(p)`: everything before the last `/`, with trailing
      slashes removed unless it consists of slashes only. */
  function Dirname(p: string): (d: string)
    ensures |d| <= |p| && d == p[..|d|]
    ensures '/' !in p ==> d == ""
  {
    var head := p[..AfterLastSlash(p)];
    if head != [] && !AllSlashes(head) then TrimSlashes(head) else head
  }

  /** `os.path.join(a, b)` for two parts. */
  function JoinPath(a: string, b: string): (p: string)
    ensures |b| <= |p| && p[|p| - |b|..] == b
    ensures b != [] && b[0] == '/' ==> p == b
    ensures (b == [] || b[0] != '/') ==> p[..|p| - |b|] == a || p[..|p| - |b|] == a + "/"
  {
    if b != [] && b[0] == '/' then b
    else if a == [] || a[|a| - 1] == '/' then a + b
    else a + "/" + b
  }

  /** The directory images are saved to: `output_dir`, or `extracted_images`
      next to the document. */
  function OutputDir(pdfPath: string, outputDir: Option<string>): (d: string)
    ensures outputDir.Some? ==> d == outputDir.value
    ensures outputDir.None? ==> |DefaultDirName| <= |d| && d[|d| - |DefaultDirName|..] == DefaultDirName
  {
    match outputDir
    case Some(d) => d
    case None => JoinPath(Dirname(pdfPath), DefaultDirName)
  }

  /** A document in the working directory saves into `extracted_images`. */
  lemma {:induction false} DefaultDirForBareName(name: string)
    requires '/' !in name
    ensures OutputDir(name, None) == DefaultDirName
  {
    assert AfterLastSlash(name) == 0;
    assert name[..0] == [];
  }

  /** A document `d/name` saves into `d/extracted_images`. */
  lemma {:induction false} DefaultDirBesideDocument(d: string, name: string)
    requires '/' !in name && d != [] && d[|d| - 1] != '/'
    ensures OutputDir(d + "/" + name, None) == d + "/" + DefaultDirName
  {
    var p := d + "/" + name;
    assert Dirname(p) == d by {
      assert AfterLastSlash(p) == |d| + 1 by {
        AfterLastSlashOfSuffix(d + "/", name);
      }
      assert p[..|d| + 1] == d + "/";
      assert TrimSlashes(d + "/") == d by {
        assert (d + "/")[..|d|] == d;
      }
      assert !AllSlashes(d + "/") by {
        assert (d + "/")[|d| - 1] == d[|d| - 1];
      }
    }
    assert JoinPath(d, DefaultDirName) == d + "/" + DefaultDirName;
  }

  /** A suffix without `/` does not move the last slash. */
  lemma {:induction false} AfterLastSlashOfSuffix(a: string, b: string)
    requires a != [] && a[|a| - 1] == '/' && '/' !in b
    ensures AfterLastSlash(a + b) == |a|
    decreases |b|
  {
    if b == [] {
      assert a + b == a;
    } else {
      var b' := b[..|b| - 1];
      assert (a + b)[..|a + b| - 1] == a + b';
      assert b[|b| - 1] in b;
      AfterLastSlashOfSuffix(a, b');
    }
  }

  // ---------------------------------------------------------------------------
  // Page images

  /** The rendered pages numbered 1..n, built page by page. */
  function NumberPages(images: seq<Image>): seq<PageImage> {
    if images == [] then []
    else NumberPages(images[..|images| - 1]) + [PageImage(|images|, images[|images| - 1])]
  }

  /** What `_extract_images_from_pdf` returns: one entry per page, or `[]` when
      rasterization raises. */
  function PageImages(raster: Raster): seq<PageImage> {
    match raster
    case Err => []
    case Ok(images) => NumberPages(images)
  }

  /** Exactly one entry per page, numbered 1..n in page order. */
  lemma {:induction false} NumberPagesShape(images: seq<Image>)
    ensures |NumberPages(images)| == |images|
    ensures forall k :: 0 <= k < |images| ==> NumberPages(images)[k] == PageImage(k + 1, images[k])
  {
    if images != [] {
      var init := images[..|images| - 1];
      NumberPagesShape(init);
      assert forall k :: 0 <= k < |init| ==> init[k] == images[k];
    }
  }

  /** `_extract_images_from_pdf`: the whole page is the image; a rasterization
      failure yields `[]`. */
  method ExtractImagesFromPdf(raster: Raster) returns (result: seq<PageImage>)
    ensures result == PageImages(raster)
  {
    if raster.Err? {
      return [];
    }
    var pageImages := raster.value;
    result := [];
    var pageNum := 1;
    while pageNum <= |pageImages|
      invariant 1 <= pageNum <= |pageImages| + 1
      invariant result == NumberPages(pageImages[..pageNum - 1])
    {
      assert pageImages[..pageNum][..pageNum - 1] == pageImages[..pageNum - 1];
      result := result + [PageImage(pageNum, pageImages[pageNum - 1])];
      pageNum := pageNum + 1;
    }
    assert pageImages[..pageNum - 1] == pageImages;
  }

  // ---------------------------------------------------------------------------
  // Records

  /** `_generate_description`: the model's reply, or the fallback text when the
      call raises. */
  function DescriptionOf(reply: Reply, n: nat, image: Image): (d: string)
    ensures reply(n, DescribeImage(image)).Ok? ==> d == reply(n, DescribeImage(image)).value
    ensures reply(n, DescribeImage(image)).Err? ==> d == DescriptionUnavailable
  {
    match reply(n, DescribeImage(image))
    case Ok(d) => d
    case Err => DescriptionUnavailable
  }

  /** The file name of the `index`-th image (1-based), found on page `page`. */
  function ImageFilename(page: nat, index: nat): string {
    "page_" + (NatStr(page) + ("_image_" + (NatStr(index) + ".png")))
  }

  /** The path the k-th entry is saved to. */
  function SavePath(dir: string, pages: seq<PageImage>, k: nat): string
    requires k < |pages|
  {
    JoinPath(dir, ImageFilename(pages[k].page, k + 1))
  }

  /** The record for the k-th entry; `dir` is the output directory when saving. */
  function Record(dir: Option<string>, pages: seq<PageImage>, k: nat, description: string): ImageRecord
    requires k < |pages|
  {
    ImageRecord(
      pages[k].page,
      if dir.Some? then Some(ImageFilename(pages[k].page, k + 1)) else None,
      description,
      if dir.Some? then None else Some(pages[k].image))
  }

  /** The record for every entry, the k-th described by request number `base + k`. */
  function ImageRecords(dir: Option<string>, pages: seq<PageImage>, reply: Reply, base: nat): (rs: seq<ImageRecord>)
    ensures |rs| == |pages|
  {
    seq(|pages|, k requires 0 <= k < |pages| => Record(dir, pages, k, DescriptionOf(reply, base + k, pages[k].image)))
  }

  /** One description request per entry, in order. */
  function DescribeRequests(pages: seq<PageImage>): (qs: seq<Request>)
    ensures |qs| == |pages|
  {
    seq(|pages|, k requires 0 <= k < |pages| => DescribeImage(pages[k].image))
  }

  /** The first entry at or after `i` whose save raises, or |pages|. */
  function FirstRefusedFrom(refuses: string -> bool, dir: string, pages: seq<PageImage>, i: nat): (j: nat)
    requires i <= |pages|
    ensures i <= j <= |pages|
    ensures forall k :: i <= k < j ==> !refuses(SavePath(dir, pages, k))
    ensures j < |pages| ==> refuses(SavePath(dir, pages, j))
    decreases |pages| - i
  {
    if i == |pages| then i
    else if refuses(SavePath(dir, pages, i)) then i
    else FirstRefusedFrom(refuses, dir, pages, i + 1)
  }

  function FirstRefused(refuses: string -> bool, dir: string, pages: seq<PageImage>): nat {
    FirstRefusedFrom(refuses, dir, pages, 0)
  }

  /** How many entries `extract_images` gets to (each gets a description
      request): all of them, none when the directory cannot be created, or up to
      and including the first one whose save raises. */
  function Processed(save: bool, refuses: string -> bool, dir: string, pages: seq<PageImage>): (n: nat)
    ensures n <= |pages|
  {
    if !save then |pages|
    else if refuses(dir) then 0
    else var j := FirstRefused(refuses, dir, pages); if j < |pages| then j + 1 else |pages|
  }

  /** What `extract_images` returns: `Err` when creating the directory or
      saving an image raises. */
  function ImagesResult(pdfPath: string, raster: Raster, reply: Reply, base: nat, save: bool,
                        outputDir: Option<string>, refuses: string -> bool): Result<seq<ImageRecord>>
  {
    var pages := PageImages(raster);
    var dir := OutputDir(pdfPath, outputDir);
    if !save then Ok(ImageRecords(None, pages, reply, base))
    else if refuses(dir) || FirstRefused(refuses, dir, pages) < |pages| then Err
    else Ok(ImageRecords(Some(dir), pages, reply, base))
  }

  /** The description requests `extract_images` sends. */
  function ImagesSent(pdfPath: string, raster: Raster, save: bool, outputDir: Option<string>,
                      refuses: string -> bool): seq<Request>
  {
    var pages := PageImages(raster);
    DescribeRequests(pages)[..Processed(save, refuses, OutputDir(pdfPath, outputDir), pages)]
  }

  /** The first `n` entries, each with the path it is saved to. */
  function SavedFiles(dir: string, pages: seq<PageImage>, n: nat): (files: seq<(string, Image)>)
    requires n <= |pages|
    ensures |files| == n
  {
    if n == 0 then [] else SavedFiles(dir, pages, n - 1) + [(SavePath(dir, pages, n - 1), pages[n - 1].image)]
  }

  /** The images `extract_images` writes: the entries before the first refused
      save, each to its path; nothing when not saving or without a directory. */
  function ImagesWritten(pdfPath: string, raster: Raster, save: bool, outputDir: Option<string>,
                         refuses: string -> bool): seq<(string, Image)>
  {
    var pages := PageImages(raster);
    var dir := OutputDir(pdfPath, outputDir);
    if !save || refuses(dir) then []
    else
      var n := FirstRefused(refuses, dir, pages);
      SavedFiles(dir, pages, n)
  }

  /** `extract_images`: creates the output directory when saving, then for each
      page image asks for a description and, when saving, writes the image. A
      failed description is replaced by the fallback text; a failed directory
      creation or save propagates. Without a model the tool builds one with
      behaviour `defaultReply`. */
  method ExtractImages(pdfPath: string, raster: Raster, llm: ChatModel?, defaultReply: Reply,
                       saveImages: bool, outputDir: Option<string>, fs: Storage)
    returns (r: Result<seq<ImageRecord>>)
    modifies llm, fs
    ensures llm != null ==> r == ImagesResult(pdfPath, raster, llm.reply, |old(llm.log)|, saveImages, outputDir, fs.refuses)
    ensures llm != null ==> llm.log == old(llm.log) + ImagesSent(pdfPath, raster, saveImages, outputDir, fs.refuses)
    ensures llm == null ==> r == ImagesResult(pdfPath, raster, defaultReply, 0, saveImages, outputDir, fs.refuses)
    ensures fs.files == old(fs.files) + ImagesWritten(pdfPath, raster, saveImages, outputDir, fs.refuses)
    ensures fs.dirs == if saveImages && !fs.refuses(OutputDir(pdfPath, outputDir)) then old(fs.dirs) + {OutputDir(pdfPath, outputDir)} else old(fs.dirs)
  {
    var model := llm;
    if model == null {
      model := new ChatModel(defaultReply);
    }
    var dir := "";
    if saveImages {
      match outputDir {
        case Some(d) => dir := d;
        case None => dir := JoinPath(Dirname(pdfPath), DefaultDirName);
      }
      var made := fs.MakeDirs(dir);
      if !made {
        return Err;
      }
    }
    var images := ExtractImagesFromPdf(raster);
    r := DescribeAll(images, model, saveImages, dir, fs);
  }

  /** The loop of `extract_images` over the page images. */
  method DescribeAll(images: seq<PageImage>, llm: ChatModel, saveImages: bool, dir: string, fs: Storage)
    returns (r: Result<seq<ImageRecord>>)
    requires saveImages ==> !fs.refuses(dir)
    modifies llm, fs
    ensures var sd := if saveImages then Some(dir) else None;
      r == if saveImages && FirstRefused(fs.refuses, dir, images) < |images| then Err
           else Ok(ImageRecords(sd, images, llm.reply, |old(llm.log)|))
    ensures llm.log == old(llm.log) + DescribeRequests(images)[..Processed(saveImages, fs.refuses, dir, images)]
    ensures fs.files == old(fs.files) +
      if saveImages then
        var n := FirstRefused(fs.refuses, dir, images);
        SavedFiles(dir, images, n)
      else []
    ensures fs.dirs == old(fs.dirs)
  {
    ghost var base := |llm.log|;
    ghost var sd := if saveImages then Some(dir) else None;
    ghost var qs := DescribeRequests(images);
    ghost var written := old(fs.files);
    var result: seq<ImageRecord> := [];
    var i := 0;
    while i < |images|
      invariant 0 <= i <= |images|
      invariant saveImages ==> i <= FirstRefused(fs.refuses, dir, images)
      invariant result == ImageRecords(sd, images, llm.reply, base)[..i]
      invariant llm.log == old(llm.log) + qs[..i]
      invariant saveImages ==> fs.files == written + SavedFiles(dir, images, i)
      invariant !saveImages ==> fs.files == written
      invariant fs.dirs == old(fs.dirs)
    {
      assert |llm.log| == base + i;
      var entry := ProcessImage(images, i, llm, saveImages, dir, fs);
      assert llm.log == old(llm.log) + qs[..i + 1] by {
        LogSnoc(old(llm.log), qs, i);
      }
      if entry.None? {
        RefusedAt(fs.refuses, dir, images, i);
        return Err;
      }
      if saveImages {
        PassedAt(fs.refuses, dir, images, i);
        ConcatAssoc(written, SavedFiles(dir, images, i), [(SavePath(dir, images, i), images[i].image)]);
      }
      assert entry.value == ImageRecords(sd, images, llm.reply, base)[i];
      PrefixSnoc(ImageRecords(sd, images, llm.reply, base), i);
      result := result + [entry.value];
      i := i + 1;
    }
    assert qs[..i] == qs;
    assert result == ImageRecords(sd, images, llm.reply, base);
    return Ok(result);
  }

  /** One pass of the loop of `extract_images`: asks for the description of
      entry i and, when saving, writes its image; `None` when the save raises. */
  method ProcessImage(images: seq<PageImage>, i: nat, llm: ChatModel, saveImages: bool, dir: string, fs: Storage)
    returns (entry: Option<ImageRecord>)
    requires i < |images|
    modifies llm, fs
    ensures llm.log == old(llm.log) + [DescribeImage(images[i].image)]
    ensures fs.dirs == old(fs.dirs)
    ensures entry.None? <==> saveImages && fs.refuses(SavePath(dir, images, i))
    ensures fs.files == if entry.Some? && saveImages then old(fs.files) + [(SavePath(dir, images, i), images[i].image)] else old(fs.files)
    ensures entry.Some? ==>
      entry.value == Record(if saveImages then Some(dir) else None, images, i, DescriptionOf(llm.reply, |old(llm.log)|, images[i].image))
  {
    var img := images[i];
    var reply := llm.Invoke(DescribeImage(img.image));
    var description := if reply.Ok? then reply.value else DescriptionUnavailable;
    var filename: Option<string> := None;
    if saveImages {
      var name := ImageFilename(img.page, i + 1);
      filename := Some(name);
      var saved := fs.Save(JoinPath(dir, name), img.image);
      if !saved {
        return None;
      }
    }
    entry := Some(ImageRecord(img.page, filename, description, if saveImages then None else Some(img.image)));
  }

  /** A save refused at entry i, after i accepted ones, is the first refusal,
      and entry i is the last one processed. */
  lemma RefusedAt(refuses: string -> bool, dir: string, pages: seq<PageImage>, i: nat)
    requires i < |pages| && !refuses(dir)
    requires i <= FirstRefused(refuses, dir, pages) && refuses(SavePath(dir, pages, i))
    ensures FirstRefused(refuses, dir, pages) == i
    ensures Processed(true, refuses, dir, pages) == i + 1
  {
  }

  /** A save accepted at entry i, after i accepted ones, moves the first
      refusal past i. */
  lemma PassedAt(refuses: string -> bool, dir: string, pages: seq<PageImage>, i: nat)
    requires i < |pages|
    requires i <= FirstRefused(refuses, dir, pages) && !refuses(SavePath(dir, pages, i))
    ensures i + 1 <= FirstRefused(refuses, dir, pages)
  {
  }

  // ---------------------------------------------------------------------------
  // Properties

  /** One record per page image, in page order, numbered 1..n, each with its
      page's description. */
  lemma {:induction false} RecordsFollowPages(pdfPath: string, images: seq<Image>, reply: Reply, base: nat, save: bool,
                           outputDir: Option<string>, refuses: string -> bool)
    requires ImagesResult(pdfPath, Ok(images), reply, base, save, outputDir, refuses).Ok?
    ensures var rs := ImagesResult(pdfPath, Ok(images), reply, base, save, outputDir, refuses).value;
      |rs| == |images| &&
      forall k :: 0 <= k < |images| ==>
        rs[k].page == k + 1 && rs[k].description == DescriptionOf(reply, base + k, images[k])
  {
    NumberPagesShape(images);
  }

  /** With saving, the k-th record names the file `page_k_image_k.png` and holds
      no image; without it, it holds its image and no file name. */
  lemma {:induction false} FilenameOrImage(pdfPath: string, images: seq<Image>, reply: Reply, base: nat, save: bool,
                        outputDir: Option<string>, refuses: string -> bool)
    requires ImagesResult(pdfPath, Ok(images), reply, base, save, outputDir, refuses).Ok?
    ensures var rs := ImagesResult(pdfPath, Ok(images), reply, base, save, outputDir, refuses).value;
      |rs| == |images| &&
      forall k :: 0 <= k < |images| ==>
        (save ==> rs[k].filename == Some(ImageFilename(k + 1, k + 1)) && rs[k].image.None?) &&
        (!save ==> rs[k].filename.None? && rs[k].image == Some(images[k]))
  {
    NumberPagesShape(images);
    var pages := PageImages(Ok(images));
    var sd := if save then Some(OutputDir(pdfPath, outputDir)) else None;
    var rs := ImageRecords(sd, pages, reply, base);
    assert ImagesResult(pdfPath, Ok(images), reply, base, save, outputDir, refuses) == Ok(rs);
    forall k | 0 <= k < |images|
      ensures (save ==> rs[k].filename == Some(ImageFilename(k + 1, k + 1)) && rs[k].image.None?)
      ensures (!save ==> rs[k].filename.None? && rs[k].image == Some(images[k]))
    {
      assert pages[k] == PageImage(k + 1, images[k]);
      assert rs[k] == Record(sd, pages, k, DescriptionOf(reply, base + k, pages[k].image));
    }
  }

  /** Without saving nothing is created or written, whatever the file system
      would refuse. */
  lemma NoSaveTouchesNothing(pdfPath: string, raster: Raster, outputDir: Option<string>, refuses: string -> bool)
    ensures ImagesWritten(pdfPath, raster, false, outputDir, refuses) == []
    ensures ImagesResult(pdfPath, raster, (n, q) => Err, 0, false, outputDir, refuses).Ok?
  {
  }

  /** A failed description only replaces that record's description. Two model
      behaviours that differ only at request `base + j`, the second failing
      there, give the same success, the same records except record j, and for
      record j the first behaviour's record with the fallback description. (The
      requests sent do not depend on the replies at all: `ImagesSent` takes none.) */
  lemma {:induction false} DescriptionFailureIsLocal(pdfPath: string, raster: Raster, r1: Reply, r2: Reply, base: nat,
                                  save: bool, outputDir: Option<string>, refuses: string -> bool, j: nat)
    requires j < |PageImages(raster)|
    requires forall n: nat, q: Request :: n != base + j ==> r1(n, q) == r2(n, q)
    requires r2(base + j, DescribeImage(PageImages(raster)[j].image)).Err?
    ensures ImagesResult(pdfPath, raster, r2, base, save, outputDir, refuses).Ok?
        <==> ImagesResult(pdfPath, raster, r1, base, save, outputDir, refuses).Ok?
    ensures ImagesResult(pdfPath, raster, r1, base, save, outputDir, refuses).Ok? ==>
      var rs1 := ImagesResult(pdfPath, raster, r1, base, save, outputDir, refuses).value;
      var rs2 := ImagesResult(pdfPath, raster, r2, base, save, outputDir, refuses).value;
      |rs2| == |rs1| &&
      rs2[j] == rs1[j].(description := DescriptionUnavailable) &&
      forall k :: 0 <= k < |rs1| && k != j ==> rs2[k] == rs1[k]
  {
    var pages := PageImages(raster);
    var sd := if save then Some(OutputDir(pdfPath, outputDir)) else None;
    var rs1 := ImageRecords(sd, pages, r1, base);
    var rs2 := ImageRecords(sd, pages, r2, base);
    forall k | 0 <= k < |pages| && k != j
      ensures rs2[k] == rs1[k]
    {
      assert DescriptionOf(r1, base + k, pages[k].image) == DescriptionOf(r2, base + k, pages[k].image);
    }
    assert rs2[j] == rs1[j].(description := DescriptionUnavailable);
  }

  /** Without saving a description request goes out for every page, whatever
      the model replies. */
  lemma EveryPageDescribed(pdfPath: string, raster: Raster, outputDir: Option<string>, refuses: string -> bool)
    ensures ImagesSent(pdfPath, raster, false, outputDir, refuses) == DescribeRequests(PageImages(raster))
  {
  }

  /** A save that raises aborts the whole call: no records are returned, and the
      images before it stay written. */
  lemma {:induction false} SaveFailureAborts(pdfPath: string, images: seq<Image>, reply: Reply, base: nat,
                          outputDir: Option<string>, refuses: string -> bool, j: nat)
    requires j < |images|
    requires var dir := OutputDir(pdfPath, outputDir);
      !refuses(dir) && refuses(JoinPath(dir, ImageFilename(j + 1, j + 1)))
    ensures ImagesResult(pdfPath, Ok(images), reply, base, true, outputDir, refuses) == Err
    ensures |ImagesWritten(pdfPath, Ok(images), true, outputDir, refuses)| <= j
  {
    NumberPagesShape(images);
    var pages := PageImages(Ok(images));
    var dir := OutputDir(pdfPath, outputDir);
    assert SavePath(dir, pages, j) == JoinPath(dir, ImageFilename(j + 1, j + 1));
  }

  /** A digit run followed by a non-digit is determined by the split point. */
  lemma {:induction false} DecimalPrefix(x: string, u: string, y: string, v: string)
    requires IsDecimal(x) && IsDecimal(y) && x + u == y + v
    requires u != [] && !IsDigit(u[0]) && v != [] && !IsDigit(v[0])
    ensures x == y && u == v
  {
    assert (x + u)[|x|] == u[0] && (y + v)[|y|] == v[0];
    assert forall k :: 0 <= k < |x| ==> IsDigit((x + u)[k]);
    assert forall k :: 0 <= k < |y| ==> IsDigit((y + v)[k]);
    assert |x| == |y|;
    assert x == (x + u)[..|x|];
    assert y == (y + v)[..|y|];
    assert u == (x + u)[|x|..];
    assert v == (y + v)[|y|..];
  }

  /** Decimal texts of different numbers differ. */
  lemma {:induction false} NatStrInjective(a: nat, b: nat)
    requires NatStr(a) == NatStr(b)
    ensures a == b
  {
    NatStrValue(a);
    NatStrValue(b);
  }

  /** Different (page, index) pairs get different file names, so a run never
      overwrites an image it saved itself. */
  lemma {:induction false} FilenamesDistinct(p: nat, i: nat, q: nat, j: nat)
    requires ImageFilename(p, i) == ImageFilename(q, j)
    ensures p == q && i == j
  {
    var sp, si, sq, sj := NatStr(p), NatStr(i), NatStr(q), NatStr(j);
    var u, v := "_image_" + (si + ".png"), "_image_" + (sj + ".png");
    assert ("page_" + (sp + u))[5..] == sp + u;
    assert ("page_" + (sq + v))[5..] == sq + v;
    DecimalPrefix(sp, u, sq, v);
    NatStrInjective(p, q);
    assert u[7..] == si + ".png" && v[7..] == sj + ".png";
    DecimalPrefix(si, ".png", sj, ".png");
    NatStrInjective(i, j);
  }
}
