/** `File`: the uploader for documents and archives. The temporary file is
    moved into the directory byte for byte; only its detected MIME type
    decides whether it is accepted. */
module FileUpload {
  import opened PhpStrings
  import opened UploadText
  import opened UploadCore

  /** `$allowedTypes`: extension to MIME type, in declaration order. */
  const FileAllowedTypes: seq<(string, string)> := [
    ("zip", "application/zip"),
    ("rar", "application/x-rar-compressed"),
    ("bz", "application/x-bzip"),
    ("pdf", "application/pdf"),
    ("doc", "application/msword"),
    ("docx", "application/vnd.openxmlformats-officedocument.wordprocessingml.document"),
    ("csv", "text/csv"),
    ("xls", "application/vnd.ms-excel"),
    ("xlsx", "application/vnd.openxmlformats-officedocument.spreadsheetml.sheet"),
    ("ods", "application/vnd.oasis.opendocument.spreadsheet"),
    ("odt", "application/vnd.oasis.opendocument.text")]

  /** `in_array($type, array_values($allowedTypes))`. */
  predicate InValues(table: seq<(string, string)>, v: string)
  {
    exists i :: 0 <= i < |table| && table[i].1 == v
  }

  /** No two extensions of the allow-list share a MIME type. */
  lemma {:induction false} FileTypesDistinct()
    ensures forall j, k :: 0 <= j < k < |FileAllowedTypes| ==> FileAllowedTypes[j].1 != FileAllowedTypes[k].1
  {
  }

  /** Looking up the type of any entry of the allow-list gives back that
      entry's own extension. */
  lemma {:induction false} FileExtensionRoundTrip(i: nat)
    requires i < |FileAllowedTypes|
    ensures FirstKey(FileAllowedTypes, FileAllowedTypes[i].1) == Some(FileAllowedTypes[i].0)
  {
    FileTypesDistinct();
    FirstKeyOfDistinct(FileAllowedTypes, i);
  }

  // ---------------------------------------------------------------------------
  // set_file_info

  /** `set_file_info`: `type` is assigned first, so it holds the detected
      type even when the type is refused. */
  function FileInfo(s: Fields, mime: string): Step<Fields>
  {
    var f := s.(fileType := mime);
    if !InValues(FileAllowedTypes, mime) then Thrown(InvalidTypeMessage, f)
    else Done(f.(extension := FirstKey(FileAllowedTypes, mime).value))
  }

  /** A type of the allow-list is accepted with its own extension and any
      other is refused with INVALID_TYPE; the type field is set in every case
      and nothing else changes. */
  lemma {:induction false} FileInfoTypes(s: Fields, mime: string)
    ensures var r := FileInfo(s, mime);
      && r.at.fileType == mime
      && !r.Crashed?
      && (r.Done? <==> InValues(FileAllowedTypes, mime))
      && (r.Done? ==> (r.at.extension, mime) in FileAllowedTypes && r.at == s.(fileType := mime, extension := r.at.extension))
      && (forall i :: 0 <= i < |FileAllowedTypes| && FileAllowedTypes[i].1 == mime ==>
            r == Done(s.(fileType := mime, extension := FileAllowedTypes[i].0)))
      && (r.Thrown? ==> r == Thrown(InvalidTypeMessage, s.(fileType := mime)))
  {
    forall i | 0 <= i < |FileAllowedTypes| && FileAllowedTypes[i].1 == mime
      ensures FileInfo(s, mime) == Done(s.(fileType := mime, extension := FileAllowedTypes[i].0))
    {
      FileExtensionRoundTrip(i);
    }
    var r := FirstKey(FileAllowedTypes, mime);
    if r.Some? {
      var i :| 0 <= i < |FileAllowedTypes| && FileAllowedTypes[i] == (r.value, mime);
      assert FileAllowedTypes[i] in FileAllowedTypes;
    }
  }

  // ---------------------------------------------------------------------------
  // upload and multiple_upload

  /** The body of the `try` block of `upload` (single) and of one iteration
      of `multiple_upload` (batch). `$name` is declared `string`, so it always
      reaches set_name as a string. */
  function FileAttempt(cfg: Config, s: Fields, item: Incoming, name: string, e: Env, batch: bool): Step<Fields>
  {
    var screened := Screen(cfg, item, batch, s);
    if !screened.Done? then screened
    else
      var info := FileInfo(s, e.mime);
      if !info.Done? then info
      else FileStore(cfg, info.at, item, name, e, batch)
  }

  /** The naming and the move, once the type is known. */
  function FileStore(cfg: Config, s1: Fields, item: Incoming, name: string, e: Env, batch: bool): Step<Fields>
  {
    match Naming(cfg, s1, item, StrHint(name), e, batch)
    case Aborted(err) => Crashed(err, s1)
    case Returned(s2) => FileSaved(cfg, s2, item.content, e)
  }

  /** `if (!move_uploaded_file(...)) throw ... SAVE_FAILED`. */
  function FileSaved(cfg: Config, s2: Fields, content: seq<byte>, e: Env): Step<Fields>
  {
    var moved := WriteFile(s2.fs, Join(cfg.directory, s2.name), content, e.stored);
    var s3 := s2.(fs := moved.1);
    if moved.0 then Done(s3) else Thrown(SaveFailedMessage, s3)
  }

  /** The checks run in a fixed order and the first one that fails decides
      the message: the transport error, the size, the type, and the move. */
  lemma {:induction false} FileAttemptMessage(cfg: Config, s: Fields, item: Incoming, name: string, e: Env)
    ensures var r := FileAttempt(cfg, s, item, name, e, false);
      && (item.error != UploadErrOk ==> r == Thrown(ErrorMessage(IntToString(item.error), cfg.sizeText), s))
      && (item.error == UploadErrOk && |item.content| > cfg.maxFilesize ==> r == Thrown(FormSizeMessage(cfg.sizeText), s))
      && (item.error == UploadErrOk && |item.content| <= cfg.maxFilesize && !InValues(FileAllowedTypes, e.mime) ==>
            r == Thrown(ErrorMessage(InvalidTypeKey, cfg.sizeText), s.(fileType := e.mime)))
      && (item.error == UploadErrOk && |item.content| <= cfg.maxFilesize && InValues(FileAllowedTypes, e.mime) && r.Thrown? ==>
            r.message == ErrorMessage(SaveFailedKey, cfg.sizeText))
  {
    ScreenOrder(cfg, item, false, s);
    CodeMessageIsCatalogue(item.error, cfg.sizeText);
    CodeMessageIsCatalogue(UploadErrFormSize, cfg.sizeText);
    FileInfoTypes(s, e.mime);
    OwnKeyMessages(cfg.sizeText);
  }

  /** A successful attempt leaves the uploaded bytes, unchanged, under
      directory/name, where the type is the detected one and the extension is
      the allow-list key of that type. */
  lemma {:induction false} FileAttemptStores(cfg: Config, s: Fields, item: Incoming, name: string, e: Env, batch: bool)
    requires FileAttempt(cfg, s, item, name, e, batch).Done?
    ensures var f := FileAttempt(cfg, s, item, name, e, batch).at;
      && (f.extension, e.mime) in FileAllowedTypes
      && f.fileType == e.mime
      && Join(cfg.directory, f.name) in f.fs.files
      && f.fs.files[Join(cfg.directory, f.name)] == item.content
      && f.fs.dirs == s.fs.dirs
  {
    var s1 := FileInfo(s, e.mime).at;
    FileInfoTypes(s, e.mime);
    NamingOnlyRenames(cfg, s1, item, StrHint(name), e, batch);
  }

  /** A thrown attempt has written nothing. */
  lemma {:induction false} FileAttemptThrownWritesNothing(cfg: Config, s: Fields, item: Incoming, name: string, e: Env, batch: bool)
    requires FileAttempt(cfg, s, item, name, e, batch).Thrown?
    ensures var f := FileAttempt(cfg, s, item, name, e, batch).at;
      && f.fs == s.fs
      && f.fileToDelete == s.fileToDelete && f.deletedFile == s.deletedFile
  {
    var info := FileInfo(s, e.mime);
    FileInfoTypes(s, e.mime);
    if info.Done? && Screen(cfg, item, batch, s).Done? {
      NamingOnlyRenames(cfg, info.at, item, StrHint(name), e, batch);
    }
  }

  /** The `$name` argument alone decides the stem: the client's file name
      plays no part, a non-positive integer string dies in random_bytes(),
      and any other string is slugged. */
  lemma {:induction false} FileNameFromArgument(cfg: Config, f: Fields, item: Incoming, name: string, e: Env)
    ensures var r := NewName(cfg.cc, cfg.slug, f.extension, item.name, StrHint(name), e.idBytes);
      && (r.Aborted? <==> IsIntegerString(name) && IntValue(name) < 1)
      && (r.Returned? ==> r.value == FormatCharacters(cfg.cc, name, cfg.slug, RemoveDirectorySeparator) + "." + f.extension)
  {
    NewStemBranches(cfg.cc, cfg.slug, item.name, StrHint(name), e.idBytes);
  }

  /** `"8"` as `$name` is numeric, yet the stem is its slug `"8"` and not an
      eight-digit random id: the string branch of set_name runs last. */
  lemma {:induction false} DigitNameIsSlugged(cc: CharClasses, slug: string, file: string, rnd: nat -> byte)
    requires cc.isDecimalDigit('8') && cc.lower('8') == '8'
    ensures IsIntegerString("8") && IntValue("8") == 8
    ensures NewStem(cc, slug, file, StrHint("8"), rnd) == Returned("8")
  {
    assert UnsignedPart("8") == "8";
    assert ParseDigits("8") == 8;
    StringHintIsSlugged(cc, slug, file, "8", rnd);
    SingleDigitSlug(cc, slug, '8');
  }

  /** `upload`: a caught failure undoes the displacement of the old file and,
      unlike `Image`, reports the client name under `file_error`. */
  function FileUploadResult(cfg: Config, s: Fields, item: Incoming, name: string, e: Env): (Outcome<Entry>, Fields)
  {
    match FileAttempt(cfg, s, item, name, e, false)
    case Done(s1) => (Returned(UploadedEntry(cfg.directory, s1)), s1)
    case Thrown(m, s1) =>
      var s2 := AfterUndeleteFile(s1, e.undeleteOk);
      (Returned(FailedEntry(m, FileErrorKey, item, s2)), s2)
    case Crashed(err, s1) => (Aborted(err), s1)
  }

  /** A failed upload leaves the files as the undo of the last deletion makes
      them, and reports the client's name with the type and extension fields;
      a successful one reports the stored name and its path, which holds the
      uploaded bytes. */
  lemma {:induction false} FileUploadReports(cfg: Config, s: Fields, item: Incoming, name: string, e: Env)
    ensures var (o, s2) := FileUploadResult(cfg, s, item, name, e);
      && (o.Returned? && o.value.Failed? ==>
            && s2.fs == AfterUndeleteFile(s, e.undeleteOk).fs
            && o.value.nameKey == FileErrorKey && o.value.clientName == item.name
            && o.value.fileType == s2.fileType && o.value.fileExtension == s2.extension)
      && (o.Returned? && o.value.Uploaded? ==>
            && o.value.file == s2.name && o.value.fileDir == Join(cfg.directory, s2.name)
            && o.value.fileDir in s2.fs.files && s2.fs.files[o.value.fileDir] == item.content)
  {
    var st := FileAttempt(cfg, s, item, name, e, false);
    if st.Thrown? {
      FileAttemptThrownWritesNothing(cfg, s, item, name, e, false);
    } else if st.Done? {
      FileAttemptStores(cfg, s, item, name, e, false);
    }
  }

  /** One iteration of `multiple_upload`: the limit check comes first, and a
      caught failure is recorded under `file_error` without any undo. */
  function FileBatchItem(cfg: Config, limit: int, s: Fields, item: Incoming, name: string, e: Env, i: nat)
    : (Outcome<Entry>, Fields)
  {
    var st := if i > limit then Thrown(LimitMessage, s) else FileAttempt(cfg, s, item, name, e, true);
    match st
    case Done(s1) => (Returned(UploadedEntry(cfg.directory, s1)), s1)
    case Thrown(m, s1) => (Returned(FailedEntry(m, FileErrorKey, item, s1)), s1)
    case Crashed(err, s1) => (Aborted(err), s1)
  }

  /** One file of a `multiple_upload` batch: the upload and what the
      environment answers while it is handled. */
  type BatchFile = (Incoming, Env)

  /** One iteration of `multiple_upload`, as the step of the loop. */
  function FileStep(cfg: Config, limit: int, name: string): (Fields, BatchFile, nat) -> (Outcome<Entry>, Fields)
  {
    (st: Fields, x: BatchFile, j: nat) => FileBatchItem(cfg, limit, st, x.0, name, x.1, j)
  }

  /** `multiple_upload` on the whole batch. */
  function FileBatch(cfg: Config, limit: int, s: Fields, files: seq<BatchFile>, name: string): (Outcome<seq<Entry>>, Fields)
  {
    BatchResult(BatchPrefix(FileStep(cfg, limit, name), s, files, |files|))
  }

  predicate IsLimitFailure(en: Entry)
  {
    en.Failed? && en.error == LimitMessage
  }

  /** The only failures an attempt in a batch can throw are FORM_SIZE,
      INVALID_TYPE and SAVE_FAILED, none of which is the limit message. */
  lemma {:induction false} FileAttemptNotLimit(cfg: Config, s: Fields, item: Incoming, name: string, e: Env)
    requires FileAttempt(cfg, s, item, name, e, true).Thrown?
    ensures FileAttempt(cfg, s, item, name, e, true).message != LimitMessage
  {
    ScreenOrder(cfg, item, true, s);
    FileInfoTypes(s, e.mime);
    LimitMessageDistinct(cfg.sizeText);
  }

  /** Each batch item yields one entry naming its client file, and it is the
      limit failure exactly when its index exceeds the limit. */
  lemma {:induction false} FileBatchItemEntry(cfg: Config, limit: int, s: Fields, item: Incoming, name: string, e: Env, i: nat)
    ensures var (o, _) := FileBatchItem(cfg, limit, s, item, name, e, i);
      && (i > limit ==> o.Returned? && o.value == FailedEntry(LimitMessage, FileErrorKey, item, s))
      && (o.Returned? ==> (IsLimitFailure(o.value) <==> i > limit))
      && (o.Returned? && o.value.Failed? ==> o.value.nameKey == FileErrorKey && o.value.clientName == item.name)
  {
    if i <= limit && FileAttempt(cfg, s, item, name, e, true).Thrown? {
      FileAttemptNotLimit(cfg, s, item, name, e);
    }
  }

  /** What FileBatchItemEntry promises of the entry for file `j`. */
  function ItemEntryShape(limit: int): (BatchFile, nat, Entry) -> bool
  {
    (x: BatchFile, j: nat, en: Entry) =>
      (IsLimitFailure(en) <==> j > limit) && (en.Failed? ==> en.nameKey == FileErrorKey && en.clientName == x.0.name)
  }

  lemma {:induction false} FileStepEntries(cfg: Config, limit: int, name: string, files: seq<BatchFile>)
    ensures var step := FileStep(cfg, limit, name);
      forall st: Fields, j :: 0 <= j < |files| && step(st, files[j], j).0.Returned? ==>
        ItemEntryShape(limit)(files[j], j, step(st, files[j], j).0.value)
  {
    forall st: Fields, j | 0 <= j < |files| && FileStep(cfg, limit, name)(st, files[j], j).0.Returned?
      ensures ItemEntryShape(limit)(files[j], j, FileStep(cfg, limit, name)(st, files[j], j).0.value)
    {
      FileBatchItemEntry(cfg, limit, st, files[j].0, name, files[j].1, j);
    }
  }

  /** A batch that does not die yields one entry per file, in order: entry
      `j` names file `j` under `file_error` when it failed, and it is the
      MULTIPLE_UPLOAD_LIMIT failure exactly when `j > limit`. The check is
      off by one: indices 0 to `limit`, that is `limit + 1` files, pass it. */
  lemma {:induction false} FileBatchEntries(cfg: Config, limit: int, s: Fields, files: seq<BatchFile>, name: string)
    ensures var (o, _) := FileBatch(cfg, limit, s, files, name);
      o.Returned? ==>
        && |o.value| == |files| > 0
        && (forall j :: 0 <= j < |files| ==> (IsLimitFailure(o.value[j]) <==> j > limit))
        && (forall j :: 0 <= j < |files| && o.value[j].Failed? ==>
              o.value[j].nameKey == FileErrorKey && o.value[j].clientName == files[j].0.name)
  {
    var step := FileStep(cfg, limit, name);
    FileStepEntries(cfg, limit, name, files);
    BatchPrefixEntries(step, s, files, |files|, ItemEntryShape(limit));
    BatchResultEmpty(step, s, files);
  }

  lemma {:induction false} FileBatchEmpty(cfg: Config, limit: int, s: Fields, name: string)
    ensures FileBatch(cfg, limit, s, [], name) == (Aborted(EmptyBatchResult), s)
  {
    BatchResultEmpty(FileStep(cfg, limit, name), s, []);
  }

  /** In a batch a transport error is an engine error, and it ends the whole
      call: the array of codes reaches `error_messages(string)`. */
  lemma {:induction false} FileBatchTransportErrorDies(cfg: Config, limit: int, s: Fields, files: seq<BatchFile>, name: string)
    requires |files| > 0 && limit >= 0
    requires files[0].0.error != UploadErrOk
    ensures FileBatch(cfg, limit, s, files, name).0 == Aborted(ArrayAsMessageKey)
  {
    var step := FileStep(cfg, limit, name);
    assert step(s, files[0], 0).0 == Aborted(ArrayAsMessageKey);
    assert BatchPrefix(step, s, files, 1).0 == Aborted(ArrayAsMessageKey);
    BatchAbortSticks(step, s, files, 1, |files|);
  }

  /** An attempt that gets past the size check leaves the detected type in
      the type field, whatever happens after; an allowed type also leaves its
      extension. */
  lemma {:induction false} FileAttemptRecordsType(cfg: Config, s: Fields, item: Incoming, name: string, e: Env, batch: bool)
    requires item.error == UploadErrOk && |item.content| <= cfg.maxFilesize
    ensures var st := FileAttempt(cfg, s, item, name, e, batch);
      && st.at.fileType == e.mime
      && (InValues(FileAllowedTypes, e.mime) ==> (st.at.extension, e.mime) in FileAllowedTypes)
  {
    FileInfoTypes(s, e.mime);
    var info := FileInfo(s, e.mime);
    if info.Done? {
      NamingOnlyRenames(cfg, info.at, item, StrHint(name), e, batch);
    }
  }

  /** A file that is too large is reported with the type and extension
      fields as the previous iterations left them. */
  lemma {:induction false} FileItemTooLarge(cfg: Config, limit: int, s: Fields, item: Incoming, name: string, e: Env, i: nat)
    requires i <= limit && item.error == UploadErrOk && |item.content| > cfg.maxFilesize
    ensures FileBatchItem(cfg, limit, s, item, name, e, i)
         == (Returned(Failed(FormSizeMessage(cfg.sizeText), FileErrorKey, item.name, s.fileType, s.extension)), s)
  {
    ScreenOrder(cfg, item, true, s);
  }

  /** The state the first file of a batch leaves holds its detected type. */
  lemma {:induction false} FirstFileRecordsType(cfg: Config, limit: int, s: Fields, a: BatchFile, name: string)
    requires limit >= 0
    requires a.0.error == UploadErrOk && |a.0.content| <= cfg.maxFilesize
    ensures var s1 := FileStep(cfg, limit, name)(s, a, 0).1;
      && s1.fileType == a.1.mime
      && (InValues(FileAllowedTypes, a.1.mime) ==> (s1.extension, a.1.mime) in FileAllowedTypes)
  {
    FileAttemptRecordsType(cfg, s, a.0, name, a.1, true);
  }

  /** The type and extension fields carry over between iterations: a second
      file that is too large reports the type detected for the first. */
  lemma {:induction false} FileBatchCarriesType(cfg: Config, limit: int, s: Fields, a: BatchFile, b: BatchFile, name: string)
    requires limit >= 1
    requires a.0.error == UploadErrOk && |a.0.content| <= cfg.maxFilesize
    requires b.0.error == UploadErrOk && |b.0.content| > cfg.maxFilesize
    ensures var (o, _) := FileBatch(cfg, limit, s, [a, b], name);
      o.Returned? ==>
        && |o.value| == 2 && o.value[1].Failed?
        && o.value[1].error == FormSizeMessage(cfg.sizeText) && o.value[1].clientName == b.0.name
        && o.value[1].fileType == a.1.mime
        && (InValues(FileAllowedTypes, a.1.mime) ==> (o.value[1].fileExtension, a.1.mime) in FileAllowedTypes)
  {
    var step := FileStep(cfg, limit, name);
    var s1 := step(s, a, 0).1;
    FirstFileRecordsType(cfg, limit, s, a, name);
    FileItemTooLarge(cfg, limit, s1, b.0, name, b.1, 1);
    BatchOfTwo(step, s, a, b);
  }

  // ---------------------------------------------------------------------------
  // The class

  /** `File extends Upload`: the inherited state is the `base` object, and
      `File` adds no field of its own. */
  class File {
    const base: Upload

    function State(): Fields
      reads base
    {
      base.State()
    }

    constructor Init(base: Upload)
      ensures this.base == base
    {
      this.base := base;
    }

    /** `new File(...)`: the inherited constructor, in the corrected order of
      `Upload.New`. */
    static method New(directory: string, createDir: bool, maxFilesize: int, slug: string, iniMaxFileUploads: int,
                      sizeText: string, cc: CharClasses, fs: FileSystem, mkdirOk: bool) returns (r: Result<File>)
      ensures var v := ValidateDirectory(cc, directory, createDir, fs, mkdirOk, sizeText);
        && (r.Err? <==> v.Err?)
        && (r.Err? ==> r.message == v.message)
        && (r.Ok? ==> fresh(r.value) && fresh(r.value.base)
                      && r.value.base.directory == v.value.0
                      && r.value.State() == Fields("", "", "", "", "", "", v.value.1))
      ensures r.Ok? ==> r.value.base.Cfg() == Config(r.value.base.directory, slug, maxFilesize, sizeText, cc)
      ensures r.Ok? ==> r.value.base.fileLimit == iniMaxFileUploads
    {
      var u := UploadCore.Upload.New(directory, createDir, maxFilesize, slug, iniMaxFileUploads, sizeText, cc, fs, mkdirOk);
      if u.Err? {
        return Err(u.message);
      }
      var file := new File.Init(u.value);
      r := Ok(file);
    }

    /** `set_file_info`; `thrown` is the message of the exception it raises. */
    method SetFileInfo(mime: string) returns (thrown: Option<string>)
      modifies base`fileType, base`extension
      ensures var st := FileInfo(old(State()), mime);
        && State() == st.at
        && (st.Done? ==> thrown == None)
        && (st.Thrown? ==> thrown == Some(st.message))
    {
      base.fileType := mime;
      if !InValues(FileAllowedTypes, mime) {
        return Some(InvalidTypeMessage);
      }
      base.extension := FirstKey(FileAllowedTypes, mime).value;
      thrown := None;
    }

    /** The body of the `try` block: `Returned(Some(m))` when it throws the
      uploader's exception with message `m`. */
    method Attempt(item: Incoming, name: string, e: Env, batch: bool) returns (r: Outcome<Option<string>>)
      modifies base`name, base`fileType, base`extension, base`fs
      ensures var st := FileAttempt(base.Cfg(), old(State()), item, name, e, batch);
        && State() == st.at
        && (st.Done? ==> r == Returned(None))
        && (st.Thrown? ==> r == Returned(Some(st.message)))
        && (st.Crashed? ==> r == Aborted(st.error))
    {
      if item.error != UploadErrOk {
        if batch {
          return Aborted(ArrayAsMessageKey);
        }
        return Returned(Some(CodeMessage(item.error, base.sizeText)));
      }
      if |item.content| > base.maxFilesize {
        return Returned(Some(CodeMessage(UploadErrFormSize, base.sizeText)));
      }
      var thrown := SetFileInfo(e.mime);
      if thrown.Some? {
        return Returned(thrown);
      }
      r := Store(item, name, e, batch);
    }

    /** The rest of the `try` block: set_name, the collision handling and
      the move. */
    method Store(item: Incoming, name: string, e: Env, batch: bool) returns (r: Outcome<Option<string>>)
      modifies base`name, base`fs
      ensures var st := FileStore(base.Cfg(), old(State()), item, name, e, batch);
        && State() == st.at
        && (st.Done? ==> r == Returned(None))
        && (st.Thrown? ==> r == Returned(Some(st.message)))
        && (st.Crashed? ==> r == Aborted(st.error))
    {
      var named := base.Name(item, StrHint(name), e, batch);
      if named.Aborted? {
        return Aborted(named.error);
      }
      r := Save(item.content, e);
    }

    /** `move_uploaded_file` and the SAVE_FAILED throw that ends the `try`
      block. */
    method Save(content: seq<byte>, e: Env) returns (r: Outcome<Option<string>>)
      modifies base`fs
      ensures var st := FileSaved(base.Cfg(), old(State()), content, e);
        && State() == st.at
        && (st.Done? ==> r == Returned(None))
        && (st.Thrown? ==> r == Returned(Some(st.message)))
        && !st.Crashed?
    {
      var moved := WriteFile(base.fs, Join(base.directory, base.name), content, e.stored);
      base.fs := moved.1;
      if !moved.0 {
        return Returned(Some(SaveFailedMessage));
      }
      r := Returned(None);
    }

    /** `upload($file, $name)`. */
    method Upload(item: Incoming, name: string, e: Env) returns (r: Outcome<Entry>)
      modifies base`name, base`fileType, base`extension, base`fs
      ensures (r, State()) == FileUploadResult(base.Cfg(), old(State()), item, name, e)
    {
      var attempt := Attempt(item, name, e, false);
      if attempt.Aborted? {
        return Aborted(attempt.error);
      }
      if attempt.value.Some? {
        base.UndeleteFile(e.undeleteOk);
        return Returned(Failed(attempt.value.value, FileErrorKey, item.name, base.fileType, base.extension));
      }
      r := Returned(Uploaded(base.name, Join(base.directory, base.name)));
    }

    /** One iteration of the loop of `multiple_upload`. */
    method BatchItem(item: Incoming, name: string, e: Env, i: nat) returns (r: Outcome<Entry>)
      modifies base`name, base`fileType, base`extension, base`fs
      ensures (r, State()) == FileBatchItem(base.Cfg(), base.fileLimit, old(State()), item, name, e, i)
    {
      var thrown: Option<string>;
      if i > base.fileLimit {
        thrown := Some(LimitMessage);
      } else {
        var attempt := Attempt(item, name, e, true);
        if attempt.Aborted? {
          return Aborted(attempt.error);
        }
        thrown := attempt.value;
      }
      if thrown.Some? {
        r := Returned(Failed(thrown.value, FileErrorKey, item.name, base.fileType, base.extension));
      } else {
        r := Returned(Uploaded(base.name, Join(base.directory, base.name)));
      }
    }

    /** `multiple_upload($file, $name)`; file `i` is the upload at index `i`
      with what the environment answers for it. */
    method MultipleUpload(files: seq<BatchFile>, name: string) returns (r: Outcome<seq<Entry>>)
      modifies base`name, base`fileType, base`extension, base`fs
      ensures (r, State()) == FileBatch(base.Cfg(), base.fileLimit, old(State()), files, name)
    {
      var uploadedFiles: seq<Entry> := [];
      ghost var step := FileStep(base.Cfg(), base.fileLimit, name);
      for i := 0 to |files|
        invariant BatchPrefix(step, old(State()), files, i) == (Returned(uploadedFiles), State())
      {
        var entry := BatchItem(files[i].0, name, files[i].1, i);
        if entry.Aborted? {
          BatchAbortSticks(step, old(State()), files, i + 1, |files|);
          return Aborted(entry.error);
        }
        uploadedFiles := uploadedFiles + [entry.value];
      }
      if uploadedFiles == [] {
        return Aborted(EmptyBatchResult);
      }
      r := Returned(uploadedFiles);
    }
  }
}
