/** `Image`: the uploader for pictures. JPEG and PNG are decoded with GD and
    written again on a canvas no wider than requested; GIF is moved as it
    came. */
module ImageUpload {
  import opened PhpStrings
  import opened UploadText
  import opened UploadCore

  /** `$allowedTypes`: extension to MIME type. */
  const AllowedTypes: seq<(string, string)> := [("jpg", "image/jpeg"), ("png", "image/png"), ("gif", "image/gif")]

  /** A side of a decoded GD image, never below one pixel. */
  type Pixels = x: int | 1 <= x witness 1

  /** `$imageCreated`: a GD image, or an empty value (`''` for a GIF, `false`
      when GD could not decode the file). */
  datatype Handle = NoImage | Gd(width: Pixels, height: Pixels)

  datatype ImageState = ImageState(fields: Fields, handle: Handle)

  /** The `$quality` argument, passed through to the encoders. */
  datatype Quality = Quality(jpg: int, png: int)

  const DefaultQuality := Quality(75, 5)

  /** What GD answers for one file: the size of the decoded image (`None` when
      `imagecreatefromjpeg`/`imagecreatefrompng` return false), and the bytes
      `imagejpeg`/`imagepng` write for a canvas width, height and quality. */
  datatype ImageEnv = ImageEnv(
    env: Env, decoded: Option<(Pixels, Pixels)>,
    jpeg: (int, int, int) -> seq<byte>, png: (int, int, int) -> seq<byte>)

  /** The values of the allow-list. */
  predicate AllowedImageType(mime: string)
  {
    mime == "image/jpeg" || mime == "image/png" || mime == "image/gif"
  }

  // ---------------------------------------------------------------------------
  // set_image_info

  function Decoded(decoded: Option<(Pixels, Pixels)>): Handle
  {
    if decoded.Some? then Gd(decoded.value.0, decoded.value.1) else NoImage
  }

  /** `set_image_info`: `type` is assigned before the switch, so it holds the
      detected type even when the type is refused. */
  function ImageInfo(sizeText: string, s: ImageState, mime: string, decoded: Option<(Pixels, Pixels)>): Step<ImageState>
  {
    var f := s.fields.(fileType := mime);
    if mime == "image/jpeg" then
      Done(ImageState(f.(extension := FirstKey(AllowedTypes, mime).value), Decoded(decoded)))
    else if mime == "image/png" then
      Done(ImageState(f.(extension := FirstKey(AllowedTypes, mime).value), Decoded(decoded)))
    else if mime == "image/gif" then
      Done(ImageState(f.(extension := FirstKey(AllowedTypes, mime).value), NoImage))
    else
      Thrown(InvalidTypeMessage, ImageState(f, s.handle))
  }

  /** The three types map to their extensions, GIF is never decoded, and any
      other type is refused with INVALID_TYPE; the type field is set in
      every case and nothing else changes. */
  lemma {:induction false} ImageInfoTypes(sizeText: string, s: ImageState, mime: string, decoded: Option<(Pixels, Pixels)>)
    ensures var r := ImageInfo(sizeText, s, mime, decoded);
      && r.at.fields.fileType == mime
      && (r.Done? <==> AllowedImageType(mime))
      && !r.Crashed?
      && (mime == "image/jpeg" ==> r.at == ImageState(s.fields.(fileType := mime, extension := "jpg"), Decoded(decoded)))
      && (mime == "image/png" ==> r.at == ImageState(s.fields.(fileType := mime, extension := "png"), Decoded(decoded)))
      && (mime == "image/gif" ==> r.at == ImageState(s.fields.(fileType := mime, extension := "gif"), NoImage))
      && (!AllowedImageType(mime) ==>
            r == Thrown(InvalidTypeMessage, ImageState(s.fields.(fileType := mime), s.handle)))
  {
  }

  /** The extension `set_image_info` picks is the allow-list key whose value
      is the type. */
  lemma {:induction false} ImageExtensionIsKey(sizeText: string, s: ImageState, mime: string, decoded: Option<(Pixels, Pixels)>)
    ensures var r := ImageInfo(sizeText, s, mime, decoded);
      r.Done? ==> (r.at.fields.extension, mime) in AllowedTypes
  {
  }

  // ---------------------------------------------------------------------------
  // save_image

  /** `intval()` of the PHP quotient `a / b`: truncation toward zero. */
  function TruncDiv(a: int, b: int): (r: int)
    requires b > 0
    ensures a >= 0 ==> r * b <= a < (r + 1) * b
    ensures a < 0 ==> r <= 0 && (r - 1) * b < a <= r * b
  {
    if a >= 0 then a / b else -((-a) / b)
  }

  /** The canvas size `save_image` computes from the source size. */
  function ResizeDims(width: Option<int>, fx: Pixels, fy: Pixels): (int, int)
  {
    var w := if width.Some? && width.value != 0 && width.value < fx then width.value else fx;
    (w, TruncDiv(w * fy, fx))
  }

  /** The requested width is used exactly when it is loosely non-null (0
      counts as absent) and below the source width; otherwise the source
      width is kept, so the image is never enlarged. */
  lemma {:induction false} ResizeWidth(width: Option<int>, fx: Pixels, fy: Pixels)
    ensures var (w, _) := ResizeDims(width, fx, fy);
      && w <= fx
      && (width.Some? && width.value != 0 && width.value < fx ==> w == width.value)
      && (!(width.Some? && width.value != 0 && width.value < fx) ==> w == fx)
  {
  }

  /** The height keeps the aspect ratio up to truncation: `h/w` is the largest
      ratio not above `fy/fx` with an integer `h`. */
  lemma {:induction false} ResizeKeepsRatio(width: Option<int>, fx: Pixels, fy: Pixels)
    ensures var (w, h) := ResizeDims(width, fx, fy);
      w >= 0 ==> h * fx <= w * fy < (h + 1) * fx
  {
    var (w, h) := ResizeDims(width, fx, fy);
    if w >= 0 {
      assert w * fy >= 0;
    }
  }

  /** A full-width canvas keeps the source height. */
  lemma {:induction false} ResizeFullWidth(width: Option<int>, fx: Pixels, fy: Pixels)
    requires ResizeDims(width, fx, fy).0 == fx
    ensures ResizeDims(width, fx, fy).1 == fy
  {
    assert fx * fy / fx == fy;
  }

  lemma {:induction false} ResizeExamples()
    ensures ResizeDims(Some(400), 1000, 500) == (400, 200)
    ensures ResizeDims(Some(2000), 1000, 500) == (1000, 500)
    ensures ResizeDims(Some(0), 1000, 500) == (1000, 500)
    ensures ResizeDims(None, 1000, 500) == (1000, 500)
  {
    ResizeFullWidth(Some(2000), 1000, 500);
    ResizeFullWidth(Some(0), 1000, 500);
    ResizeFullWidth(None, 1000, 500);
  }

  /** `save_image`: whether the write succeeded, or an engine error when the
      method falls off its end without returning a bool, or GD refuses a
      canvas side below one pixel. */
  function ImageSave(cfg: Config, s: ImageState, content: seq<byte>, width: Option<int>, q: Quality,
                     e: ImageEnv): Outcome<(bool, FileSystem)>
  {
    var f := s.fields;
    var path := Join(cfg.directory, f.name);
    match s.handle
    case NoImage =>
      if f.extension == "gif" then Returned(WriteFile(f.fs, path, content, e.env.stored))
      else Aborted(SaveImageReturnedNothing)
    case Gd(fx, fy) =>
      var (w, h) := ResizeDims(width, fx, fy);
      if w < 1 || h < 1 then Aborted(CanvasSize)
      else if f.extension == "jpg" then Returned(WriteFile(f.fs, path, e.jpeg(w, h, q.jpg), e.env.stored))
      else if f.extension == "png" then Returned(WriteFile(f.fs, path, e.png(w, h, q.png), e.env.stored))
      else Aborted(SaveImageReturnedNothing)
  }

  /** A write, if any, goes to directory/name and leaves every other path and
      the directories alone; GIF bytes are written verbatim. */
  lemma {:induction false} ImageSaveWrites(cfg: Config, s: ImageState, content: seq<byte>, width: Option<int>, q: Quality, e: ImageEnv)
    ensures var o := ImageSave(cfg, s, content, width, q, e);
      && (o.Returned? ==> o.value.1.dirs == s.fields.fs.dirs)
      && (o.Returned? ==> forall p :: p != Join(cfg.directory, s.fields.name) ==>
            (p in o.value.1.files <==> p in s.fields.fs.files) &&
            (p in s.fields.fs.files ==> o.value.1.files[p] == s.fields.fs.files[p]))
      && (o.Returned? && !o.value.0 ==> o.value.1 == s.fields.fs)
      && (o.Returned? && o.value.0 ==> Join(cfg.directory, s.fields.name) in o.value.1.files)
      && (o.Returned? && o.value.0 && s.handle == NoImage ==>
            o.value.1.files[Join(cfg.directory, s.fields.name)] == content)
  {
  }

  /** When GD decoded the file, the save fails with an engine error exactly
      when the canvas would have a side below one pixel, or the extension is
      neither jpg nor png. */
  lemma {:induction false} ImageSaveAborts(cfg: Config, s: ImageState, content: seq<byte>, width: Option<int>, q: Quality, e: ImageEnv)
    requires s.handle.Gd?
    ensures var (w, h) := ResizeDims(width, s.handle.width, s.handle.height);
      ImageSave(cfg, s, content, width, q, e).Aborted? <==>
        w < 1 || h < 1 || (s.fields.extension != "jpg" && s.fields.extension != "png")
  {
  }

  /** A decode failure of a JPEG or PNG leaves `$imageCreated` false, and
      `save_image` then returns nothing. */
  lemma {:induction false} UndecodedImageAborts(cfg: Config, s: ImageState, content: seq<byte>, width: Option<int>, q: Quality,
                             e: ImageEnv)
    requires s.handle == NoImage && s.fields.extension != "gif"
    ensures ImageSave(cfg, s, content, width, q, e) == Aborted(SaveImageReturnedNothing)
  {
  }

  // ---------------------------------------------------------------------------
  // upload and multiple_upload

  /** The body of the `try` block of `upload` (single) and of one iteration
      of `multiple_upload` (batch). */
  function ImageAttempt(cfg: Config, s: ImageState, item: Incoming, h: Hint, width: Option<int>, q: Quality,
                        e: ImageEnv, batch: bool): Step<ImageState>
  {
    var screened := Screen(cfg, item, batch, s);
    if !screened.Done? then screened
    else
      var info := ImageInfo(cfg.sizeText, s, e.env.mime, e.decoded);
      if !info.Done? then info
      else ImageStore(cfg, info.at, item, h, width, q, e, batch)
  }

  /** The naming and the save, once the type is known. */
  function ImageStore(cfg: Config, s1: ImageState, item: Incoming, h: Hint, width: Option<int>, q: Quality,
                      e: ImageEnv, batch: bool): Step<ImageState>
  {
    match Naming(cfg, s1.fields, item, h, e.env, batch)
    case Aborted(err) => Crashed(err, s1)
    case Returned(f2) => ImageSaved(cfg, s1.(fields := f2), item.content, width, q, e)
  }

  /** `if (!$this->save_image(...)) throw ... SAVE_FAILED`. */
  function ImageSaved(cfg: Config, s2: ImageState, content: seq<byte>, width: Option<int>, q: Quality,
                      e: ImageEnv): Step<ImageState>
  {
    match ImageSave(cfg, s2, content, width, q, e)
    case Aborted(err) => Crashed(err, s2)
    case Returned(saved) =>
      var s3 := s2.(fields := s2.fields.(fs := saved.1));
      if saved.0 then Done(s3) else Thrown(SaveFailedMessage, s3)
  }

  /** The checks run in a fixed order and the first one that fails decides
      the message: the transport error, the size, the type, and the save. */
  lemma {:induction false} ImageAttemptMessage(cfg: Config, s: ImageState, item: Incoming, h: Hint, width: Option<int>, q: Quality,
                            e: ImageEnv)
    ensures var r := ImageAttempt(cfg, s, item, h, width, q, e, false);
      && (item.error != UploadErrOk ==> r == Thrown(ErrorMessage(IntToString(item.error), cfg.sizeText), s))
      && (item.error == UploadErrOk && |item.content| > cfg.maxFilesize ==> r == Thrown(FormSizeMessage(cfg.sizeText), s))
      && (item.error == UploadErrOk && |item.content| <= cfg.maxFilesize && !AllowedImageType(e.env.mime) ==>
            r == Thrown(ErrorMessage(InvalidTypeKey, cfg.sizeText), ImageState(s.fields.(fileType := e.env.mime), s.handle)))
      && (item.error == UploadErrOk && |item.content| <= cfg.maxFilesize && AllowedImageType(e.env.mime) && r.Thrown? ==>
            r.message == ErrorMessage(SaveFailedKey, cfg.sizeText))
  {
    ScreenOrder(cfg, item, false, s);
    CodeMessageIsCatalogue(item.error, cfg.sizeText);
    CodeMessageIsCatalogue(UploadErrFormSize, cfg.sizeText);
    ImageInfoTypes(cfg.sizeText, s, e.env.mime, e.decoded);
    OwnKeyMessages(cfg.sizeText);
  }

  /** A successful attempt leaves the file under directory/name, where name
      is the stem, a dot and the extension of the detected type; a GIF is
      stored byte for byte. */
  lemma {:induction false} ImageAttemptStores(cfg: Config, s: ImageState, item: Incoming, h: Hint, width: Option<int>, q: Quality,
                           e: ImageEnv, batch: bool)
    requires ImageAttempt(cfg, s, item, h, width, q, e, batch).Done?
    ensures var f := ImageAttempt(cfg, s, item, h, width, q, e, batch).at.fields;
      && (f.extension, e.env.mime) in AllowedTypes
      && f.fileType == e.env.mime
      && Join(cfg.directory, f.name) in f.fs.files
      && (e.env.mime == "image/gif" ==> f.fs.files[Join(cfg.directory, f.name)] == item.content)
  {
    var s1 := ImageInfo(cfg.sizeText, s, e.env.mime, e.decoded).at;
    ImageInfoTypes(cfg.sizeText, s, e.env.mime, e.decoded);
    var f2 := Naming(cfg, s1.fields, item, h, e.env, batch).value;
    NamingOnlyRenames(cfg, s1.fields, item, h, e.env, batch);
    ImageSaveWrites(cfg, s1.(fields := f2), item.content, width, q, e);
  }

  /** A thrown attempt has written nothing. */
  lemma {:induction false} ImageAttemptThrownWritesNothing(cfg: Config, s: ImageState, item: Incoming, h: Hint, width: Option<int>,
                                        q: Quality, e: ImageEnv, batch: bool)
    requires ImageAttempt(cfg, s, item, h, width, q, e, batch).Thrown?
    ensures var f := ImageAttempt(cfg, s, item, h, width, q, e, batch).at.fields;
      && f.fs == s.fields.fs
      && f.fileToDelete == s.fields.fileToDelete && f.deletedFile == s.fields.deletedFile
  {
    var info := ImageInfo(cfg.sizeText, s, e.env.mime, e.decoded);
    ImageInfoTypes(cfg.sizeText, s, e.env.mime, e.decoded);
    if info.Done? && Screen(cfg, item, batch, s).Done? {
      var n := Naming(cfg, info.at.fields, item, h, e.env, batch);
      NamingOnlyRenames(cfg, info.at.fields, item, h, e.env, batch);
      if n.Returned? {
        ImageSaveWrites(cfg, info.at.(fields := n.value), item.content, width, q, e);
      }
    }
  }

  /** `upload`: a caught failure undoes the displacement of the old file and
      reports the client name under `error_file`. */
  function ImageUploadResult(cfg: Config, s: ImageState, item: Incoming, h: Hint, width: Option<int>, q: Quality,
                             e: ImageEnv): (Outcome<Entry>, ImageState)
  {
    match ImageAttempt(cfg, s, item, h, width, q, e, false)
    case Done(s1) => (Returned(UploadedEntry(cfg.directory, s1.fields)), s1)
    case Thrown(m, s1) =>
      var s2 := s1.(fields := AfterUndeleteFile(s1.fields, e.env.undeleteOk));
      (Returned(FailedEntry(m, ErrorFileKey, item, s2.fields)), s2)
    case Crashed(err, s1) => (Aborted(err), s1)
  }

  /** A failed upload leaves the files as the undo of the last deletion makes
      them, and reports the client's name with the type and extension fields;
      a successful one reports the stored name and its path. */
  lemma {:induction false} ImageUploadReports(cfg: Config, s: ImageState, item: Incoming, h: Hint, width: Option<int>, q: Quality,
                           e: ImageEnv)
    ensures var (o, s2) := ImageUploadResult(cfg, s, item, h, width, q, e);
      && (o.Returned? && o.value.Failed? ==>
            && s2.fields.fs == AfterUndeleteFile(s.fields, e.env.undeleteOk).fs
            && o.value.nameKey == ErrorFileKey && o.value.clientName == item.name
            && o.value.fileType == s2.fields.fileType && o.value.fileExtension == s2.fields.extension)
      && (o.Returned? && o.value.Uploaded? ==>
            && o.value.file == s2.fields.name && o.value.fileDir == Join(cfg.directory, s2.fields.name)
            && o.value.fileDir in s2.fields.fs.files)
  {
    var st := ImageAttempt(cfg, s, item, h, width, q, e, false);
    if st.Thrown? {
      ImageAttemptThrownWritesNothing(cfg, s, item, h, width, q, e, false);
    } else if st.Done? {
      ImageAttemptStores(cfg, s, item, h, width, q, e, false);
    }
  }

  /** One iteration of `multiple_upload`: the limit check comes first, and a
      caught failure is recorded under `file_error` without any undo. */
  function ImageBatchItem(cfg: Config, limit: int, s: ImageState, item: Incoming, h: Hint, width: Option<int>,
                          q: Quality, e: ImageEnv, i: nat): (Outcome<Entry>, ImageState)
  {
    var st := if i > limit then Thrown(LimitMessage, s)
              else ImageAttempt(cfg, s, item, h, width, q, e, true);
    match st
    case Done(s1) => (Returned(UploadedEntry(cfg.directory, s1.fields)), s1)
    case Thrown(m, s1) => (Returned(FailedEntry(m, FileErrorKey, item, s1.fields)), s1)
    case Crashed(err, s1) => (Aborted(err), s1)
  }

  /** One file of a `multiple_upload` batch: the upload and what the
      environment answers while it is handled. */
  type ImageFile = (Incoming, ImageEnv)

  /** One iteration of `multiple_upload`, as the step of the loop. */
  function ImageStep(cfg: Config, limit: int, h: Hint, width: Option<int>, q: Quality)
    : (ImageState, ImageFile, nat) -> (Outcome<Entry>, ImageState)
  {
    (st: ImageState, x: ImageFile, j: nat) => ImageBatchItem(cfg, limit, st, x.0, h, width, q, x.1, j)
  }

  /** `multiple_upload` on the whole batch. */
  function ImageBatch(cfg: Config, limit: int, s: ImageState, files: seq<ImageFile>, h: Hint, width: Option<int>,
                      q: Quality): (Outcome<seq<Entry>>, ImageState)
  {
    BatchResult(BatchPrefix(ImageStep(cfg, limit, h, width, q), s, files, |files|))
  }

  predicate IsLimitFailure(e: Entry)
  {
    e.Failed? && e.error == LimitMessage
  }

  /** The only failures an attempt in a batch can throw are FORM_SIZE,
      INVALID_TYPE and SAVE_FAILED, none of which is the limit message. */
  lemma {:induction false} BatchAttemptNotLimit(cfg: Config, s: ImageState, item: Incoming, h: Hint, width: Option<int>, q: Quality,
                             e: ImageEnv)
    requires ImageAttempt(cfg, s, item, h, width, q, e, true).Thrown?
    ensures ImageAttempt(cfg, s, item, h, width, q, e, true).message != LimitMessage
  {
    ScreenOrder(cfg, item, true, s);
    ImageInfoTypes(cfg.sizeText, s, e.env.mime, e.decoded);
    LimitMessageDistinct(cfg.sizeText);
  }

  /** Each batch item yields one entry naming its client file, and it is the
      limit failure exactly when its index exceeds the limit. */
  lemma {:induction false} ImageBatchItemEntry(cfg: Config, limit: int, s: ImageState, item: Incoming, h: Hint, width: Option<int>,
                            q: Quality, e: ImageEnv, i: nat)
    ensures var (o, _) := ImageBatchItem(cfg, limit, s, item, h, width, q, e, i);
      && (i > limit ==> o.Returned? && o.value == FailedEntry(LimitMessage, FileErrorKey, item, s.fields))
      && (o.Returned? ==> (IsLimitFailure(o.value) <==> i > limit))
      && (o.Returned? && o.value.Failed? ==> o.value.nameKey == FileErrorKey && o.value.clientName == item.name)
  {
    if i <= limit && ImageAttempt(cfg, s, item, h, width, q, e, true).Thrown? {
      BatchAttemptNotLimit(cfg, s, item, h, width, q, e);
    }
  }

  /** A batch that does not die yields one entry per file, in order: entry
      `j` names file `j` under `file_error` when it failed, and it is the
      MULTIPLE_UPLOAD_LIMIT failure exactly when `j > limit`. The check is
      off by one: indices 0 to `limit`, that is `limit + 1` files, pass it. */
  lemma {:induction false} ImageBatchEntries(cfg: Config, limit: int, s: ImageState, files: seq<ImageFile>, h: Hint,
                          width: Option<int>, q: Quality)
    ensures var (o, _) := ImageBatch(cfg, limit, s, files, h, width, q);
      o.Returned? ==>
        && |o.value| == |files| > 0
        && (forall j :: 0 <= j < |files| ==> (IsLimitFailure(o.value[j]) <==> j > limit))
        && (forall j :: 0 <= j < |files| && o.value[j].Failed? ==>
              o.value[j].nameKey == FileErrorKey && o.value[j].clientName == files[j].0.name)
  {
    var step := ImageStep(cfg, limit, h, width, q);
    ImageStepEntries(cfg, limit, h, width, q, files);
    BatchPrefixEntries(step, s, files, |files|, ItemEntryShape(limit));
    BatchResultEmpty(step, s, files);
  }

  /** What ImageBatchItemEntry promises of the entry for file `j`. */
  function ItemEntryShape(limit: int): (ImageFile, nat, Entry) -> bool
  {
    (x: ImageFile, j: nat, en: Entry) =>
      (IsLimitFailure(en) <==> j > limit) && (en.Failed? ==> en.nameKey == FileErrorKey && en.clientName == x.0.name)
  }

  lemma {:induction false} ImageStepEntries(cfg: Config, limit: int, h: Hint, width: Option<int>, q: Quality,
                                            files: seq<ImageFile>)
    ensures var step := ImageStep(cfg, limit, h, width, q);
      forall st: ImageState, j :: 0 <= j < |files| && step(st, files[j], j).0.Returned? ==>
        ItemEntryShape(limit)(files[j], j, step(st, files[j], j).0.value)
  {
    forall st: ImageState, j | 0 <= j < |files| && ImageStep(cfg, limit, h, width, q)(st, files[j], j).0.Returned?
      ensures ItemEntryShape(limit)(files[j], j, ImageStep(cfg, limit, h, width, q)(st, files[j], j).0.value)
    {
      ImageBatchItemEntry(cfg, limit, st, files[j].0, h, width, q, files[j].1, j);
    }
  }

  lemma {:induction false} ImageBatchEmpty(cfg: Config, limit: int, s: ImageState, h: Hint, width: Option<int>, q: Quality)
    ensures ImageBatch(cfg, limit, s, [], h, width, q) == (Aborted(EmptyBatchResult), s)
  {
    BatchResultEmpty(ImageStep(cfg, limit, h, width, q), s, []);
  }

  /** In a batch a transport error is an engine error, and it ends the whole
      call: the array of codes reaches `error_messages(string)`. */
  lemma {:induction false} ImageBatchTransportErrorDies(cfg: Config, limit: int, s: ImageState, files: seq<ImageFile>, h: Hint,
                                     width: Option<int>, q: Quality)
    requires |files| > 0 && limit >= 0
    requires files[0].0.error != UploadErrOk
    ensures ImageBatch(cfg, limit, s, files, h, width, q).0 == Aborted(ArrayAsMessageKey)
  {
    var step := ImageStep(cfg, limit, h, width, q);
    assert step(s, files[0], 0).0 == Aborted(ArrayAsMessageKey);
    assert BatchPrefix(step, s, files, 1).0 == Aborted(ArrayAsMessageKey);
    BatchAbortSticks(step, s, files, 1, |files|);
  }

  /** An attempt that gets past the size check leaves the detected type in
      the type field, whatever happens after; an allowed type also leaves its
      extension. */
  lemma {:induction false} AttemptRecordsType(cfg: Config, s: ImageState, item: Incoming, h: Hint, width: Option<int>, q: Quality,
                           e: ImageEnv, batch: bool)
    requires item.error == UploadErrOk && |item.content| <= cfg.maxFilesize
    ensures var st := ImageAttempt(cfg, s, item, h, width, q, e, batch);
      && st.at.fields.fileType == e.env.mime
      && (AllowedImageType(e.env.mime) ==> (st.at.fields.extension, e.env.mime) in AllowedTypes)
  {
    ImageInfoTypes(cfg.sizeText, s, e.env.mime, e.decoded);
    var info := ImageInfo(cfg.sizeText, s, e.env.mime, e.decoded);
    if info.Done? {
      NamingOnlyRenames(cfg, info.at.fields, item, h, e.env, batch);
    }
  }

  /** A file that is too large is reported with the type and extension
      fields as the previous iterations left them. */
  lemma {:induction false} BatchItemTooLarge(cfg: Config, limit: int, s: ImageState, item: Incoming, h: Hint, width: Option<int>,
                          q: Quality, e: ImageEnv, i: nat)
    requires i <= limit && item.error == UploadErrOk && |item.content| > cfg.maxFilesize
    ensures ImageBatchItem(cfg, limit, s, item, h, width, q, e, i)
         == (Returned(Failed(FormSizeMessage(cfg.sizeText), FileErrorKey, item.name, s.fields.fileType, s.fields.extension)), s)
  {
    ScreenOrder(cfg, item, true, s);
  }

  /** The type and extension fields carry over between iterations: a second
      file that is too large reports the type detected for the first. */
  lemma {:induction false} ImageBatchCarriesType(cfg: Config, limit: int, s: ImageState, a: ImageFile, b: ImageFile, h: Hint,
                              width: Option<int>, q: Quality)
    requires limit >= 1
    requires a.0.error == UploadErrOk && |a.0.content| <= cfg.maxFilesize
    requires b.0.error == UploadErrOk && |b.0.content| > cfg.maxFilesize
    ensures var (o, _) := ImageBatch(cfg, limit, s, [a, b], h, width, q);
      o.Returned? ==>
        && |o.value| == 2 && o.value[1].Failed?
        && o.value[1].error == FormSizeMessage(cfg.sizeText) && o.value[1].clientName == b.0.name
        && o.value[1].fileType == a.1.env.mime
        && (AllowedImageType(a.1.env.mime) ==> (o.value[1].fileExtension, a.1.env.mime) in AllowedTypes)
  {
    var step := ImageStep(cfg, limit, h, width, q);
    var s1 := step(s, a, 0).1;
    FirstItemRecordsType(cfg, limit, s, a, h, width, q);
    BatchItemTooLarge(cfg, limit, s1, b.0, h, width, q, b.1, 1);
    BatchOfTwo(step, s, a, b);
  }

  /** The state the first file of a batch leaves holds its detected type. */
  lemma {:induction false} FirstItemRecordsType(cfg: Config, limit: int, s: ImageState, a: ImageFile, h: Hint,
                                                width: Option<int>, q: Quality)
    requires limit >= 0
    requires a.0.error == UploadErrOk && |a.0.content| <= cfg.maxFilesize
    ensures var s1 := ImageStep(cfg, limit, h, width, q)(s, a, 0).1;
      && s1.fields.fileType == a.1.env.mime
      && (AllowedImageType(a.1.env.mime) ==> (s1.fields.extension, a.1.env.mime) in AllowedTypes)
  {
    AttemptRecordsType(cfg, s, a.0, h, width, q, a.1, true);
  }

  // ---------------------------------------------------------------------------
  // The class

  /** `Image extends Upload`: the inherited state is the `base` object. */
  class Image {
    const base: Upload
    var imageCreated: Handle

    function State(): ImageState
      reads this, base
    {
      ImageState(base.State(), imageCreated)
    }

    constructor Init(base: Upload)
      ensures this.base == base && imageCreated == NoImage
    {
      this.base := base;
      imageCreated := NoImage;
    }

    /** `new Image(...)`: the inherited constructor, in the corrected order of
      `Upload.New`. */
    static method New(directory: string, createDir: bool, maxFilesize: int, slug: string, iniMaxFileUploads: int,
                      sizeText: string, cc: CharClasses, fs: FileSystem, mkdirOk: bool) returns (r: Result<Image>)
      ensures var v := ValidateDirectory(cc, directory, createDir, fs, mkdirOk, sizeText);
        && (r.Err? <==> v.Err?)
        && (r.Err? ==> r.message == v.message)
        && (r.Ok? ==> fresh(r.value) && fresh(r.value.base) && r.value.imageCreated == NoImage
                      && r.value.base.directory == v.value.0
                      && r.value.base.State() == Fields("", "", "", "", "", "", v.value.1))
      ensures r.Ok? ==> r.value.base.Cfg() == Config(r.value.base.directory, slug, maxFilesize, sizeText, cc)
      ensures r.Ok? ==> r.value.base.fileLimit == iniMaxFileUploads
    {
      var u := UploadCore.Upload.New(directory, createDir, maxFilesize, slug, iniMaxFileUploads, sizeText, cc, fs, mkdirOk);
      if u.Err? {
        return Err(u.message);
      }
      var img := new Image.Init(u.value);
      r := Ok(img);
    }

    /** `set_image_info`; `thrown` is the message of the exception it raises. */
    method SetImageInfo(mime: string, decoded: Option<(Pixels, Pixels)>) returns (thrown: Option<string>)
      modifies base`fileType, base`extension, this`imageCreated
      ensures var st := ImageInfo(base.sizeText, old(State()), mime, decoded);
        && State() == st.at
        && (st.Done? ==> thrown == None)
        && (st.Thrown? ==> thrown == Some(st.message))
    {
      base.fileType := mime;
      thrown := None;
      if mime == "image/jpeg" {
        imageCreated := Decoded(decoded);
        base.extension := FirstKey(AllowedTypes, mime).value;
      } else if mime == "image/png" {
        imageCreated := Decoded(decoded);
        base.extension := FirstKey(AllowedTypes, mime).value;
      } else if mime == "image/gif" {
        imageCreated := NoImage;
        base.extension := FirstKey(AllowedTypes, mime).value;
      } else {
        thrown := Some(InvalidTypeMessage);
      }
    }

    /** `save_image`. */
    method SaveImage(content: seq<byte>, width: Option<int>, q: Quality, e: ImageEnv) returns (r: Outcome<bool>)
      modifies base`fs
      ensures var o := ImageSave(base.Cfg(), old(State()), content, width, q, e);
        && (o.Aborted? ==> r == Aborted(o.error) && base.fs == old(base.fs))
        && (o.Returned? ==> r == Returned(o.value.0) && base.fs == o.value.1)
    {
      var path := Join(base.directory, base.name);
      match imageCreated {
        case NoImage =>
          if base.extension == "gif" {
            var written := WriteFile(base.fs, path, content, e.env.stored);
            base.fs := written.1;
            return Returned(written.0);
          }
          return Aborted(SaveImageReturnedNothing);
        case Gd(fileX, fileY) =>
          var (imageW, imageH) := ResizeDims(width, fileX, fileY);
          if imageW < 1 || imageH < 1 {
            return Aborted(CanvasSize);
          }
          if base.extension == "jpg" {
            var written := WriteFile(base.fs, path, e.jpeg(imageW, imageH, q.jpg), e.env.stored);
            base.fs := written.1;
            return Returned(written.0);
          }
          if base.extension == "png" {
            var written := WriteFile(base.fs, path, e.png(imageW, imageH, q.png), e.env.stored);
            base.fs := written.1;
            return Returned(written.0);
          }
          return Aborted(SaveImageReturnedNothing);
      }
    }

    /** The body of the `try` block: `Returned(Some(m))` when it throws the
      uploader's exception with message `m`. */
    method Attempt(item: Incoming, h: Hint, width: Option<int>, q: Quality, e: ImageEnv, batch: bool)
      returns (r: Outcome<Option<string>>)
      modifies base`name, base`fileType, base`extension, base`fs, this`imageCreated
      ensures var st := ImageAttempt(base.Cfg(), old(State()), item, h, width, q, e, batch);
        && State() == st.at
        && (st.Done? ==> r == Returned(None))
        && (st.Thrown? ==> r == Returned(Some(st.message)))
        && (st.Crashed? ==> r == Aborted(st.error))
    {
      if item.error != UploadErrOk {
        if batch {
          return Aborted(ArrayAsMessageKey);
        }
        return Returned(Some(CodeMessage(item.error, base.sizeText)));
      }
      if |item.content| > base.maxFilesize {
        return Returned(Some(CodeMessage(UploadErrFormSize, base.sizeText)));
      }
      var thrown := SetImageInfo(e.env.mime, e.decoded);
      if thrown.Some? {
        return Returned(thrown);
      }
      r := Store(item, h, width, q, e, batch);
    }

    /** The rest of the `try` block: set_name, the collision handling and
      save_image. */
    method Store(item: Incoming, h: Hint, width: Option<int>, q: Quality, e: ImageEnv, batch: bool)
      returns (r: Outcome<Option<string>>)
      modifies base`name, base`fs
      ensures var st := ImageStore(base.Cfg(), old(State()), item, h, width, q, e, batch);
        && State() == st.at
        && (st.Done? ==> r == Returned(None))
        && (st.Thrown? ==> r == Returned(Some(st.message)))
        && (st.Crashed? ==> r == Aborted(st.error))
    {
      var named := base.Name(item, h, e.env, batch);
      if named.Aborted? {
        return Aborted(named.error);
      }
      r := Save(item.content, width, q, e);
    }

    /** The save and the SAVE_FAILED throw that ends the `try` block. */
    method Save(content: seq<byte>, width: Option<int>, q: Quality, e: ImageEnv) returns (r: Outcome<Option<string>>)
      modifies base`fs
      ensures var st := ImageSaved(base.Cfg(), old(State()), content, width, q, e);
        && State() == st.at
        && (st.Done? ==> r == Returned(None))
        && (st.Thrown? ==> r == Returned(Some(st.message)))
        && (st.Crashed? ==> r == Aborted(st.error))
    {
      var saved := SaveImage(content, width, q, e);
      if saved.Aborted? {
        return Aborted(saved.error);
      }
      if !saved.value {
        return Returned(Some(SaveFailedMessage));
      }
      r := Returned(None);
    }

    /** `upload($image, $name, $width, $quality)`. */
    method Upload(item: Incoming, h: Hint, width: Option<int>, q: Quality, e: ImageEnv) returns (r: Outcome<Entry>)
      modifies base`name, base`fileType, base`extension, base`fs, this`imageCreated
      ensures (r, State()) == ImageUploadResult(base.Cfg(), old(State()), item, h, width, q, e)
    {
      var attempt := Attempt(item, h, width, q, e, false);
      if attempt.Aborted? {
        return Aborted(attempt.error);
      }
      if attempt.value.Some? {
        base.UndeleteFile(e.env.undeleteOk);
        return Returned(Failed(attempt.value.value, ErrorFileKey, item.name, base.fileType, base.extension));
      }
      r := Returned(Uploaded(base.name, Join(base.directory, base.name)));
    }

    /** One iteration of the loop of `multiple_upload`. */
    method BatchItem(item: Incoming, h: Hint, width: Option<int>, q: Quality, e: ImageEnv, i: nat)
      returns (r: Outcome<Entry>)
      modifies base`name, base`fileType, base`extension, base`fs, this`imageCreated
      ensures (r, State()) == ImageBatchItem(base.Cfg(), base.fileLimit, old(State()), item, h, width, q, e, i)
    {
      var thrown: Option<string>;
      if i > base.fileLimit {
        thrown := Some(LimitMessage);
      } else {
        var attempt := Attempt(item, h, width, q, e, true);
        if attempt.Aborted? {
          return Aborted(attempt.error);
        }
        thrown := attempt.value;
      }
      if thrown.Some? {
        r := Returned(Failed(thrown.value, FileErrorKey, item.name, base.fileType, base.extension));
      } else {
        r := Returned(Uploaded(base.name, Join(base.directory, base.name)));
      }
    }

    /** `multiple_upload($image, $name, $width, $quality)`; file `i` is the
      upload at index `i` with what the environment answers for it. */
    method MultipleUpload(files: seq<ImageFile>, h: Hint, width: Option<int>, q: Quality)
      returns (r: Outcome<seq<Entry>>)
      modifies base`name, base`fileType, base`extension, base`fs, this`imageCreated
      ensures (r, State()) == ImageBatch(base.Cfg(), base.fileLimit, old(State()), files, h, width, q)
    {
      var uploadedFiles: seq<Entry> := [];
      ghost var step := ImageStep(base.Cfg(), base.fileLimit, h, width, q);
      for i := 0 to |files|
        invariant BatchPrefix(step, old(State()), files, i) == (Returned(uploadedFiles), State())
      {
        var entry := BatchItem(files[i].0, h, width, q, files[i].1, i);
        if entry.Aborted? {
          BatchAbortSticks(step, old(State()), files, i + 1, |files|);
          return Aborted(entry.error);
        }
        uploadedFiles := uploadedFiles + [entry.value];
      }
      if uploadedFiles == [] {
        return Aborted(EmptyBatchResult);
      }
      r := Returned(uploadedFiles);
    }
  }
}
