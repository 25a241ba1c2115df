/** The stateful half of the base uploader (src/Core/Upload.php): the abstract
    filesystem it works on, the naming of the stored file (`set_name`,
    `search_file`, `enumerate_file`), directory validation and the trash with
    its undo (`delete_file`, `delete_file_action`, `undelete_file`). Each
    operation is a function on a snapshot of the object's fields, and the class
    `Upload` carries out the same steps on its own fields. */
module UploadCore {
  import opened PhpStrings
  import opened UploadText

  // ---------------------------------------------------------------------------
  // The filesystem

  /** Regular files with their contents, and directories. */
  datatype FileSystem = FileSystem(files: map<string, seq<byte>>, dirs: set<string>)

  /** `file_exists($p)`. */
  predicate Exists(fs: FileSystem, p: string)
  {
    p in fs.files || p in fs.dirs
  }

  /** `"{$dir}/{$n}"`. */
  function Join(dir: string, n: string): string
  {
    dir + "/" + n
  }

  /** A joined path is never empty in PHP's sense: it holds a '/'. */
  lemma {:induction false} JoinNotEmpty(dir: string, n: string)
    ensures !Empty(Join(dir, n))
  {
    assert Join(dir, n)[|dir|] == '/';
  }

  /** `empty($s)` on a string field; `""` also stands for a typed property that
      was never initialised, which `empty()` and `??` treat as unset. */
  predicate Empty(s: string)
  {
    s == "" || s == "0"
  }

  /** `rename($src, $dst)`: `ok` is whatever else the operating system decides
      (permissions, a missing parent). A regular file moves onto a path that is
      not a directory, replacing a file there. On failure nothing changes. */
  function Rename(fs: FileSystem, src: string, dst: string, ok: bool): (r: Option<FileSystem>)
    ensures r.Some? <==> ok && src in fs.files && dst !in fs.dirs
    ensures r.Some? ==> r.value.dirs == fs.dirs
    ensures r.Some? ==> dst in r.value.files && r.value.files[dst] == fs.files[src]
    ensures r.Some? && src != dst ==> src !in r.value.files
    ensures r.Some? ==> forall p :: p != src && p != dst ==>
      (p in r.value.files <==> p in fs.files) && (p in fs.files ==> r.value.files[p] == fs.files[p])
  {
    if ok && src in fs.files && dst !in fs.dirs then
      Some(FileSystem((fs.files - {src})[dst := fs.files[src]], fs.dirs))
    else None
  }

  /** The filesystem after a rename, whether or not it succeeded. */
  function RenameOrKeep(fs: FileSystem, src: string, dst: string, ok: bool): FileSystem
  {
    match Rename(fs, src, dst, ok)
    case Some(fs2) => fs2
    case None => fs
  }

  /** Moving a file away and back again restores the filesystem, provided the
      intermediate path was free. */
  lemma {:induction false} RenameRoundTrip(fs: FileSystem, src: string, dst: string, ok1: bool, ok2: bool)
    requires Rename(fs, src, dst, ok1).Some?
    requires src != dst && dst !in fs.files && src !in fs.dirs && ok2
    ensures Rename(Rename(fs, src, dst, ok1).value, dst, src, ok2) == Some(fs)
  {
    var fs1 := Rename(fs, src, dst, ok1).value;
    var fs2 := Rename(fs1, dst, src, ok2).value;
    assert fs2.files == fs.files by {
      forall p | p in fs.files ensures p in fs2.files && fs2.files[p] == fs.files[p] {}
      forall p | p in fs2.files ensures p in fs.files {}
    }
  }

  /** The message of an uploader exception or the directory of a success. */
  datatype Result<T> = Ok(value: T) | Err(message: string)

  /** `createDirectory($dir)`: an existing directory is accepted, otherwise
      `mkdir($dir, 0777, true)` must succeed; `ok` is the operating system's
      say, and a regular file in the way always makes it fail. */
  function CreateDirectory(fs: FileSystem, dir: string, ok: bool, sizeText: string): (r: Result<FileSystem>)
    ensures r.Ok? <==> dir in fs.dirs || (ok && dir !in fs.files)
    ensures r.Ok? ==> r.value.files == fs.files && r.value.dirs == fs.dirs + {dir}
    ensures r.Err? ==> r.message == ErrorMessage(CreateDirKey, sizeText)
  {
    if dir in fs.dirs then Ok(fs)
    else if ok && dir !in fs.files then Ok(FileSystem(fs.files, fs.dirs + {dir}))
    else Err(ErrorMessage(CreateDirKey, sizeText))
  }

  // ---------------------------------------------------------------------------
  // The object's fields

  /** The settings fixed once the constructor has run. `sizeText` is what
      `convert_bytes($maxFilesize)` renders. */
  datatype Config = Config(
    directory: string, slug: string, maxFilesize: int, sizeText: string, cc: CharClasses)

  /** The fields the upload operations change. */
  datatype Fields = Fields(
    name: string, extension: string, fileType: string,
    fileToDelete: string, deletedFile: string, trashFolder: string,
    fs: FileSystem)

  /** A step that may throw the uploader's own exception or die with an
      engine error, either way with the fields as they were at that point. */
  datatype Step<S> = Done(at: S) | Thrown(message: string, at: S) | Crashed(error: EngineError, at: S)

  // ---------------------------------------------------------------------------
  // set_name

  /** The untyped `$name` argument, for the types that can reach it. */
  datatype Hint = NullHint | BoolHint(b: bool) | IntHint(n: int) | StrHint(s: string)

  /** `$name == null`: PHP compares the value with null loosely. */
  predicate LooseNull(h: Hint)
  {
    match h
    case NullHint => true
    case BoolHint(b) => !b
    case IntHint(n) => n == 0
    case StrHint(s) => s == ""
  }

  /** `is_numeric($name)`, for ints and integer strings. */
  predicate IsNumericHint(h: Hint)
  {
    h.IntHint? || (h.StrHint? && IsIntegerString(h.s))
  }

  /** `intval($name)` on a numeric hint. */
  function IntVal(h: Hint): int
    requires IsNumericHint(h)
  {
    if h.IntHint? then h.n else IntValue(h.s)
  }

  /** The `$newName` set_name computes; a hint matching none of its three `if`s
      leaves it undefined, and an undefined variable interpolates as `""`. */
  function NewStem(cc: CharClasses, slug: string, file: string, h: Hint, rnd: nat -> byte): Outcome<string>
  {
    var fromFile := if LooseNull(h) then FormatCharacters(cc, PathFilename(file), slug, LowerCase) else "";
    var numeric := if IsNumericHint(h) then GenerateRandomId(IntVal(h), rnd) else Returned(fromFile);
    match numeric
    case Aborted(e) => Aborted(e)
    case Returned(stem) =>
      if h.StrHint? then Returned(FormatCharacters(cc, h.s, slug, RemoveDirectorySeparator))
      else Returned(stem)
  }

  /** `set_name($file, $name)`: the new `$this->name`. */
  function NewName(cc: CharClasses, slug: string, extension: string, file: string, h: Hint, rnd: nat -> byte): Outcome<string>
  {
    match NewStem(cc, slug, file, h, rnd)
    case Aborted(e) => Aborted(e)
    case Returned(stem) => Returned(stem + "." + extension)
  }

  /** Which of set_name's branches decides the stem: only a numeric hint
      below 1 dies; a string is slugged with set_name's closure, a loosely
      null non-string slugs the client file name with the default case
      function, a non-zero int gives that many hex digits, and `true` matches
      no branch at all. */
  lemma {:induction false} NewStemBranches(cc: CharClasses, slug: string, file: string, h: Hint, rnd: nat -> byte)
    ensures var r := NewStem(cc, slug, file, h, rnd);
      && (r.Aborted? <==> IsNumericHint(h) && IntVal(h) < 1)
      && (r.Returned? && h.StrHint? ==> r.value == FormatCharacters(cc, h.s, slug, RemoveDirectorySeparator))
      && (r.Returned? && LooseNull(h) && !h.StrHint? ==> r.value == FormatCharacters(cc, PathFilename(file), slug, LowerCase))
      && (r.Returned? && h.IntHint? && h.n != 0 ==> |r.value| == h.n && forall c :: c in r.value ==> IsLowerHex(c))
      && (h == BoolHint(true) ==> r == Returned(""))
  {
    if IsNumericHint(h) {
      RandomIdShape(IntVal(h), rnd);
    }
  }

  /** A string hint is always slugged, even one that is numeric: the string
      branch runs last and overwrites the random id. A numeric string whose
      intval is below 1 still dies first, in random_bytes(). */
  lemma {:induction false} StringHintIsSlugged(cc: CharClasses, slug: string, file: string, s: string, rnd: nat -> byte)
    requires !IsIntegerString(s) || IntValue(s) >= 1
    ensures NewStem(cc, slug, file, StrHint(s), rnd) == Returned(FormatCharacters(cc, s, slug, RemoveDirectorySeparator))
  {
  }

  /** A string hint that is a non-positive integer makes set_name die. */
  lemma {:induction false} NonPositiveNumericStringDies(cc: CharClasses, slug: string, file: string, n: int, rnd: nat -> byte)
    requires n < 1
    ensures NewStem(cc, slug, file, StrHint(IntToString(n)), rnd) == Aborted(RandomBytesLength)
  {
    IntToStringRoundTrip(n);
  }

  /** With separator `_` or `-` a stem holds neither '.' nor '/'. */
  lemma {:induction false} StemIsPlain(cc: CharClasses, slug: string, file: string, h: Hint, rnd: nat -> byte)
    requires slug == "_" || slug == "-"
    requires AsciiLettersCased(cc) && LowerKeepsSeparatorsOut(cc) && DotIsPunctuation(cc)
    requires NewStem(cc, slug, file, h, rnd).Returned?
    ensures '.' !in NewStem(cc, slug, file, h, rnd).value && '/' !in NewStem(cc, slug, file, h, rnd).value
  {
    var stem := NewStem(cc, slug, file, h, rnd).value;
    if h.StrHint? {
      SlugCharsKept(cc, h.s, slug, RemoveDirectorySeparator);
      SlugHasNoDirectorySeparator(cc, h.s, slug);
    } else if LooseNull(h) {
      SlugCharsKept(cc, PathFilename(file), slug, LowerCase);
      SlugOfSlashFreeText(cc, PathFilename(file), slug);
    } else {
      assert forall c :: c in stem ==> IsLowerHex(c);
    }
  }

  /** With separator `_` or `-` a stem holds no '.', and the extension of an
      allowed type holds neither '.' nor '/', so pathinfo() splits the new
      name back into exactly that stem and extension. */
  lemma {:induction false} NewNameSplits(cc: CharClasses, slug: string, extension: string, file: string, h: Hint, rnd: nat -> byte)
    requires slug == "_" || slug == "-"
    requires AsciiLettersCased(cc) && LowerKeepsSeparatorsOut(cc) && DotIsPunctuation(cc)
    requires '.' !in extension && '/' !in extension
    requires NewName(cc, slug, extension, file, h, rnd).Returned?
    ensures var stem := NewStem(cc, slug, file, h, rnd).value;
      && PathFilename(NewName(cc, slug, extension, file, h, rnd).value) == stem
      && PathExtension(NewName(cc, slug, extension, file, h, rnd).value) == Some(extension)
  {
    var stem := NewStem(cc, slug, file, h, rnd).value;
    StemIsPlain(cc, slug, file, h, rnd);
    assert NewName(cc, slug, extension, file, h, rnd).value == stem + "." + extension;
    PathInfoOfName(stem, extension);
  }

  // ---------------------------------------------------------------------------
  // search_file

  /** `stem . slug . <10 lowercase hex digits> . "." . ext`. */
  predicate IsSuffixedName(r: string, stem: string, slug: string, ext: string)
  {
    var k := |stem| + |slug|;
    && |r| == k + 11 + |ext|
    && r[..k] == stem + slug
    && (forall j :: k <= j < k + 10 ==> IsLowerHex(r[j]))
    && r[k + 10..] == "." + ext
  }

  /** `search_file()`: the name after one collision check. The suffixed name
      is not checked again. */
  function SearchedName(directory: string, slug: string, name: string, ext: string, fs: FileSystem, rnd: nat -> byte): string
  {
    if Exists(fs, Join(directory, name)) then
      RandomIdShape(10, rnd);
      PathFilename(name) + slug + GenerateRandomId(10, rnd).value + "." + ext
    else name
  }

  /** A free name is kept; a taken one gets the slug and ten hex digits. */
  lemma {:induction false} SearchedNameShape(directory: string, slug: string, name: string, ext: string, fs: FileSystem, rnd: nat -> byte)
    ensures var r := SearchedName(directory, slug, name, ext, fs, rnd);
      && (!Exists(fs, Join(directory, name)) ==> r == name)
      && (Exists(fs, Join(directory, name)) ==> IsSuffixedName(r, PathFilename(name), slug, ext))
  {
    if Exists(fs, Join(directory, name)) {
      RandomIdShape(10, rnd);
      SuffixedNameShape(PathFilename(name), slug, GenerateRandomId(10, rnd).value, ext);
    }
  }

  lemma {:induction false} SuffixedNameShape(stem: string, slug: string, id: string, ext: string)
    requires |id| == 10 && forall c :: c in id ==> IsLowerHex(c)
    ensures IsSuffixedName(stem + slug + id + "." + ext, stem, slug, ext)
  {
    var r := stem + slug + id + "." + ext;
    var k := |stem| + |slug|;
    assert r[..k] == stem + slug;
    assert r[k + 10..] == "." + ext;
    forall j | k <= j < k + 10 ensures IsLowerHex(r[j]) {
      assert r[j] == id[j - k];
      assert id[j - k] in id;
    }
  }

  /** The outcome depends on the directory only through whether the target
      exists: a suffixed name that is itself taken is not noticed. */
  lemma {:induction false} SearchedNameNotRechecked(directory: string, slug: string, name: string, ext: string,
                                 fs1: FileSystem, fs2: FileSystem, rnd: nat -> byte)
    requires Exists(fs1, Join(directory, name)) == Exists(fs2, Join(directory, name))
    ensures SearchedName(directory, slug, name, ext, fs1, rnd) == SearchedName(directory, slug, name, ext, fs2, rnd)
  {
  }

  // ---------------------------------------------------------------------------
  // enumerate_file

  /** The name enumerate_file tries for counter `n`. */
  function Candidate(filename: string, slug: string, n: nat, ext: string): string
  {
    filename + slug + NatToString(n) + "." + ext
  }

  /** `pathinfo($p)['extension']`, where a missing one reads as `""`. */
  function ExtensionOrEmpty(p: string): string
  {
    match PathExtension(p)
    case Some(e) => e
    case None => ""
  }

  /** The test applied to one glob entry against the current candidate. */
  predicate EntryMatches(cc: CharClasses, entry: string, candidate: string, ext: string)
  {
    Basename(entry) == candidate && MbStrToLower(cc, ExtensionOrEmpty(entry)) == ext
  }

  /** The counter after the foreach over `listing`, started at `n`. */
  function CountFrom(cc: CharClasses, listing: seq<string>, filename: string, slug: string, ext: string, n: nat): nat
    decreases |listing|
  {
    if listing == [] then n
    else
      var next := if EntryMatches(cc, listing[0], Candidate(filename, slug, n, ext), ext) then n + 1 else n;
      CountFrom(cc, listing[1..], filename, slug, ext, next)
  }

  /** `enumerate_file()`: the name after the counting pass. */
  function EnumeratedName(cc: CharClasses, directory: string, slug: string, name: string, ext: string,
                          fs: FileSystem, listing: seq<string>): string
  {
    var file := Join(directory, name);
    if Exists(fs, file) && file in fs.files then
      var n := CountFrom(cc, listing, PathFilename(name), slug, ext, 2);
      Candidate(PathFilename(name), slug, n, ext)
    else name
  }

  /** Each listing entry bumps the counter at most once. */
  lemma {:induction false} CountFromBounds(cc: CharClasses, listing: seq<string>, filename: string, slug: string, ext: string, n: nat)
    ensures n <= CountFrom(cc, listing, filename, slug, ext, n) <= n + |listing|
    decreases |listing|
  {
    if listing != [] {
      var next := if EntryMatches(cc, listing[0], Candidate(filename, slug, n, ext), ext) then n + 1 else n;
      CountFromBounds(cc, listing[1..], filename, slug, ext, next);
    }
  }

  /** A free or non-regular name is kept; a regular file's name is replaced by
      a numbered candidate, numbered from 2 to 2 plus the listing's length. */
  lemma {:induction false} EnumeratedNameShape(cc: CharClasses, directory: string, slug: string, name: string, ext: string,
                            fs: FileSystem, listing: seq<string>)
    ensures var r := EnumeratedName(cc, directory, slug, name, ext, fs, listing);
      && (!(Exists(fs, Join(directory, name)) && Join(directory, name) in fs.files) ==> r == name)
      && (Exists(fs, Join(directory, name)) && Join(directory, name) in fs.files ==>
            exists n :: 2 <= n <= 2 + |listing| && r == Candidate(PathFilename(name), slug, n, ext))
  {
    var file := Join(directory, name);
    if Exists(fs, file) && file in fs.files {
      var n := CountFrom(cc, listing, PathFilename(name), slug, ext, 2);
      CountFromBounds(cc, listing, PathFilename(name), slug, ext, 2);
      assert EnumeratedName(cc, directory, slug, name, ext, fs, listing) == Candidate(PathFilename(name), slug, n, ext);
    }
  }

  /** `dir/filename_from.ext, ..., dir/filename_(from+count-1).ext`. */
  function Consecutive(dir: string, filename: string, slug: string, ext: string, from: nat, count: nat): seq<string>
  {
    seq(count, (j: int) requires 0 <= j < count => Join(dir, Candidate(filename, slug, from + j, ext)))
  }

  /** What keeps the candidates apart from their directory and extension. */
  predicate PlainParts(cc: CharClasses, filename: string, slug: string, ext: string)
  {
    '/' !in filename && '/' !in slug && '/' !in ext && '.' !in ext && MbStrToLower(cc, ext) == ext
  }

  /** A candidate listed in the directory has itself as basename, and `ext`
      as extension. */
  lemma {:induction false} CandidateParts(cc: CharClasses, dir: string, filename: string, slug: string, ext: string, m: nat)
    requires PlainParts(cc, filename, slug, ext)
    ensures Basename(Join(dir, Candidate(filename, slug, m, ext))) == Candidate(filename, slug, m, ext)
    ensures ExtensionOrEmpty(Join(dir, Candidate(filename, slug, m, ext))) == ext
  {
    var b := Candidate(filename, slug, m, ext);
    assert '/' !in NatToString(m) by {
      assert forall c :: c in NatToString(m) ==> IsDigit(c);
    }
    assert '/' !in b;
    BasenameOfJoin(dir, b);
    PathInfoOfName(filename + slug + NatToString(m), ext);
  }

  /** A listed candidate matches exactly at its own counter. */
  lemma {:induction false} CandidateEntryMatches(cc: CharClasses, dir: string, filename: string, slug: string, ext: string, n: nat, m: nat)
    requires PlainParts(cc, filename, slug, ext)
    ensures EntryMatches(cc, Join(dir, Candidate(filename, slug, m, ext)), Candidate(filename, slug, n, ext), ext) <==> m == n
  {
    CandidateParts(cc, dir, filename, slug, ext, m);
    if Candidate(filename, slug, n, ext) == Candidate(filename, slug, m, ext) {
      CandidateInjective(filename, slug, ext, n, m);
    }
  }

  /** Different counters give different candidates. */
  lemma {:induction false} CandidateInjective(filename: string, slug: string, ext: string, n: nat, m: nat)
    requires Candidate(filename, slug, n, ext) == Candidate(filename, slug, m, ext)
    ensures n == m
  {
    var a := Candidate(filename, slug, n, ext);
    var k := |filename| + |slug|;
    assert |NatToString(n)| == |NatToString(m)|;
    assert NatToString(n) == a[k..k + |NatToString(n)|];
    assert NatToString(m) == a[k..k + |NatToString(m)|];
    NatToStringInjective(n, m);
  }

  lemma {:induction false} ConsecutiveTail(dir: string, filename: string, slug: string, ext: string, from: nat, count: nat)
    requires count > 0
    ensures Consecutive(dir, filename, slug, ext, from, count)[1..] == Consecutive(dir, filename, slug, ext, from + 1, count - 1)
  {
    var l := Consecutive(dir, filename, slug, ext, from, count);
    var rest := Consecutive(dir, filename, slug, ext, from + 1, count - 1);
    assert forall j :: 0 <= j < count - 1 ==> l[1..][j] == l[j + 1];
  }

  /** A matching first entry bumps the counter. */
  lemma {:induction false} CountBumps(cc: CharClasses, l: seq<string>, filename: string, slug: string, ext: string, n: nat)
    requires l != [] && EntryMatches(cc, l[0], Candidate(filename, slug, n, ext), ext)
    ensures CountFrom(cc, l, filename, slug, ext, n) == CountFrom(cc, l[1..], filename, slug, ext, n + 1)
  {
  }

  /** The counting pass run over consecutive candidates counts every one. */
  lemma {:induction false} ConsecutiveCount(cc: CharClasses, dir: string, filename: string, slug: string, ext: string, from: nat, count: nat)
    requires PlainParts(cc, filename, slug, ext)
    ensures CountFrom(cc, Consecutive(dir, filename, slug, ext, from, count), filename, slug, ext, from) == from + count
    decreases count
  {
    var l := Consecutive(dir, filename, slug, ext, from, count);
    if count > 0 {
      CandidateEntryMatches(cc, dir, filename, slug, ext, from, from);
      CountBumps(cc, l, filename, slug, ext, from);
      ConsecutiveTail(dir, filename, slug, ext, from, count);
      ConsecutiveCount(cc, dir, filename, slug, ext, from + 1, count - 1);
    }
  }

  /** An entry that does not match the current candidate is passed over. */
  lemma {:induction false} CountSkips(cc: CharClasses, x: string, l: seq<string>, filename: string, slug: string, ext: string, n: nat)
    requires !EntryMatches(cc, x, Candidate(filename, slug, n, ext), ext)
    ensures CountFrom(cc, [x] + l, filename, slug, ext, n) == CountFrom(cc, l, filename, slug, ext, n)
  {
    assert ([x] + l)[1..] == l;
  }

  /** Two entries that do not match the current candidate are passed over. */
  lemma {:induction false} CountSkipsTwo(cc: CharClasses, x: string, y: string, l: seq<string>, filename: string, slug: string, ext: string, n: nat)
    requires !EntryMatches(cc, x, Candidate(filename, slug, n, ext), ext)
    requires !EntryMatches(cc, y, Candidate(filename, slug, n, ext), ext)
    ensures CountFrom(cc, [x, y] + l, filename, slug, ext, n) == CountFrom(cc, l, filename, slug, ext, n)
  {
    CountSkips(cc, y, l, filename, slug, ext, n);
    CountSkips(cc, x, [y] + l, filename, slug, ext, n);
    assert [x, y] + l == [x] + ([y] + l);
  }

  /** The original file `dir/filename.ext` never matches a candidate: it is
      shorter than every one. */
  lemma {:induction false} OriginalNeverMatches(cc: CharClasses, dir: string, filename: string, slug: string, ext: string, n: nat)
    requires PlainParts(cc, filename, slug, ext)
    ensures !EntryMatches(cc, Join(dir, filename + "." + ext), Candidate(filename, slug, n, ext), ext)
  {
    var b := filename + "." + ext;
    assert '/' !in b;
    BasenameOfJoin(dir, b);
  }

  /** With `foo.ext, foo_2.ext, ..., foo_k.ext` listed in that order, the
      counter ends at k + 1: the next free number. */
  lemma {:induction false} EnumerateAfterConsecutive(cc: CharClasses, dir: string, filename: string, slug: string, ext: string, k: nat)
    requires PlainParts(cc, filename, slug, ext) && k >= 1
    ensures CountFrom(cc, [Join(dir, filename + "." + ext)] + Consecutive(dir, filename, slug, ext, 2, k - 1),
                      filename, slug, ext, 2) == k + 1
  {
    OriginalNeverMatches(cc, dir, filename, slug, ext, 2);
    CountSkips(cc, Join(dir, filename + "." + ext), Consecutive(dir, filename, slug, ext, 2, k - 1), filename, slug, ext, 2);
    ConsecutiveCount(cc, dir, filename, slug, ext, 2, k - 1);
  }

  /** With `foo.ext`, then some `foo_m.ext` with m other than 2, then
      `foo_2.ext, ..., foo_k.ext` listed, the out-of-order entry is passed
      over and the counter still ends at k + 1; when m is k + 1 that number is
      already listed. glob's alphabetical order produces exactly this listing
      for k = 9: `foo_10.ext` sorts before `foo_2.ext`, so enumerate_file
      picks `foo_10.ext`, a name that is already taken. */
  lemma {:induction false} EnumerateSkipsOutOfOrder(cc: CharClasses, dir: string, filename: string, slug: string, ext: string, m: nat, k: nat)
    requires PlainParts(cc, filename, slug, ext) && k >= 1 && m != 2
    ensures var listing := [Join(dir, filename + "." + ext), Join(dir, Candidate(filename, slug, m, ext))]
                           + Consecutive(dir, filename, slug, ext, 2, k - 1);
      var n := CountFrom(cc, listing, filename, slug, ext, 2);
      n == k + 1 && (m == k + 1 ==> Join(dir, Candidate(filename, slug, n, ext)) in listing)
  {
    var original := Join(dir, filename + "." + ext);
    var early := Join(dir, Candidate(filename, slug, m, ext));
    var rest := Consecutive(dir, filename, slug, ext, 2, k - 1);
    assert ([original, early] + rest)[1] == early;
    OriginalNeverMatches(cc, dir, filename, slug, ext, 2);
    CandidateEntryMatches(cc, dir, filename, slug, ext, 2, m);
    CountSkipsTwo(cc, original, early, rest, filename, slug, ext, 2);
    ConsecutiveCount(cc, dir, filename, slug, ext, 2, k - 1);
  }

  // ---------------------------------------------------------------------------
  // delete_file, delete_file_action, undelete_file

  /** The trash name of `file`: its filename, the separator, the time stamp
      (`DateTime::format('dmy-His-u')`) and its extension. */
  function TrashName(slug: string, file: string, stamp: string): string
  {
    PathFilename(file) + slug + stamp + "." + ExtensionOrEmpty(file)
  }

  /** `delete_file_action()`: move the recorded file into the trash folder and
      record where it went, but only if the rename succeeded. */
  function AfterDeleteFileAction(slug: string, f: Fields, stamp: string, ok: bool): (r: Fields)
    ensures r.name == f.name && r.extension == f.extension && r.fileType == f.fileType
    ensures r.fileToDelete == f.fileToDelete && r.trashFolder == f.trashFolder
    ensures r.deletedFile != f.deletedFile ==>
      && r.deletedFile == Join(f.trashFolder, TrashName(slug, f.fileToDelete, stamp))
      && Rename(f.fs, f.fileToDelete, r.deletedFile, ok) == Some(r.fs)
    ensures r.fs != f.fs ==> r.deletedFile == Join(f.trashFolder, TrashName(slug, f.fileToDelete, stamp))
    ensures Empty(f.fileToDelete) ==> r == f
  {
    if !Empty(f.fileToDelete) then
      var dst := Join(f.trashFolder, TrashName(slug, f.fileToDelete, stamp));
      match Rename(f.fs, f.fileToDelete, dst, ok)
      case Some(fs2) => f.(fs := fs2, deletedFile := dst)
      case None => f
    else f
  }

  /** `delete_file($filename, $trashFolder)`: a no-op unless the file exists
      and is regular; otherwise record it, make sure the trash folder exists
      (which can throw createDir_ERR) and move the file there. */
  function AfterDeleteFile(cfg: Config, f: Fields, filename: string, trash: string,
                      mkdirOk: bool, stamp: string, renameOk: bool): (r: Step<Fields>)
    ensures !r.Crashed?
    ensures Join(cfg.directory, filename) !in f.fs.files ==> r == Done(f)
    ensures r.Thrown? ==>
      r.message == ErrorMessage(CreateDirKey, cfg.sizeText) && r.at == f.(fileToDelete := Join(cfg.directory, filename))
    ensures r.Done? && Join(cfg.directory, filename) in f.fs.files ==>
      && r.at.fileToDelete == Join(cfg.directory, filename)
      && r.at.trashFolder == Join(cfg.directory, trash)
      && Join(cfg.directory, trash) in r.at.fs.dirs
  {
    var file := Join(cfg.directory, filename);
    if Exists(f.fs, file) && file in f.fs.files then
      var f1 := f.(fileToDelete := file);
      match CreateDirectory(f1.fs, Join(cfg.directory, trash), mkdirOk, cfg.sizeText)
      case Err(m) => Thrown(m, f1)
      case Ok(fs2) => Done(AfterDeleteFileAction(cfg.slug, f1.(trashFolder := Join(cfg.directory, trash), fs := fs2), stamp, renameOk))
    else Done(f)
  }

  /** `undelete_file()`: move the trashed file back, when both paths are
      recorded. The records are kept. */
  function AfterUndeleteFile(f: Fields, ok: bool): (r: Fields)
    ensures r.(fs := f.fs) == f
    ensures Empty(f.deletedFile) || Empty(f.fileToDelete) ==> r == f
    ensures r.fs != f.fs ==> Rename(f.fs, f.deletedFile, f.fileToDelete, ok) == Some(r.fs)
  {
    if !Empty(f.deletedFile) && !Empty(f.fileToDelete) then
      f.(fs := RenameOrKeep(f.fs, f.deletedFile, f.fileToDelete, ok))
    else f
  }

  /** When the trash folder can be made and the rename succeeds, delete_file
      records the file and its trash path and moves it there. */
  lemma {:induction false} DeleteFileMoves(cfg: Config, f: Fields, filename: string, trash: string, mkdirOk: bool, stamp: string)
    requires Join(cfg.directory, filename) in f.fs.files
    requires CreateDirectory(f.fs, Join(cfg.directory, trash), mkdirOk, cfg.sizeText).Ok?
    requires Join(Join(cfg.directory, trash), TrashName(cfg.slug, Join(cfg.directory, filename), stamp)) !in f.fs.dirs
    requires Join(Join(cfg.directory, trash), TrashName(cfg.slug, Join(cfg.directory, filename), stamp)) != Join(cfg.directory, trash)
    ensures var file := Join(cfg.directory, filename);
      var tdir := Join(cfg.directory, trash);
      var dst := Join(tdir, TrashName(cfg.slug, file, stamp));
      var fs2 := CreateDirectory(f.fs, tdir, mkdirOk, cfg.sizeText).value;
      && Rename(fs2, file, dst, true).Some?
      && AfterDeleteFile(cfg, f, filename, trash, mkdirOk, stamp, true)
         == Done(f.(fileToDelete := file, trashFolder := tdir, deletedFile := dst, fs := Rename(fs2, file, dst, true).value))
  {
    JoinNotEmpty(cfg.directory, filename);
  }

  /** A successful delete moves the file to its trash path, and undeleting it
      puts back exactly the regular files there were, so the trash path is
      free again; only the trash folder itself stays. */
  lemma {:induction false} DeleteUndeleteRoundTrip(cfg: Config, f: Fields, filename: string, trash: string,
                                mkdirOk: bool, stamp: string, undoOk: bool)
    requires Join(cfg.directory, filename) in f.fs.files && Join(cfg.directory, filename) !in f.fs.dirs
    requires CreateDirectory(f.fs, Join(cfg.directory, trash), mkdirOk, cfg.sizeText).Ok?
    requires var dst := Join(Join(cfg.directory, trash), TrashName(cfg.slug, Join(cfg.directory, filename), stamp));
      dst !in f.fs.files && dst !in f.fs.dirs && dst != Join(cfg.directory, filename) && dst != Join(cfg.directory, trash)
    requires undoOk
    ensures AfterDeleteFile(cfg, f, filename, trash, mkdirOk, stamp, true).Done?
    ensures var d := AfterDeleteFile(cfg, f, filename, trash, mkdirOk, stamp, true).at;
      && Join(cfg.directory, filename) !in d.fs.files
      && d.deletedFile in d.fs.files && d.fs.files[d.deletedFile] == f.fs.files[Join(cfg.directory, filename)]
      && AfterUndeleteFile(d, undoOk).fs.files == f.fs.files
      && AfterUndeleteFile(d, undoOk).fs.dirs == f.fs.dirs + {Join(cfg.directory, trash)}
  {
    var file := Join(cfg.directory, filename);
    var tdir := Join(cfg.directory, trash);
    var dst := Join(tdir, TrashName(cfg.slug, file, stamp));
    var fs2 := CreateDirectory(f.fs, tdir, mkdirOk, cfg.sizeText).value;
    DeleteFileMoves(cfg, f, filename, trash, mkdirOk, stamp);
    var d := f.(fileToDelete := file, trashFolder := tdir, deletedFile := dst, fs := Rename(fs2, file, dst, true).value);
    JoinNotEmpty(cfg.directory, filename);
    JoinNotEmpty(tdir, TrashName(cfg.slug, file, stamp));
    UndeleteMovesBack(d, undoOk);
    RenameRoundTrip(fs2, file, dst, true, undoOk);
  }

  /** With both records set, undo is the rename from one to the other. */
  lemma {:induction false} UndeleteMovesBack(d: Fields, ok: bool)
    requires !Empty(d.deletedFile) && !Empty(d.fileToDelete)
    ensures AfterUndeleteFile(d, ok).fs == RenameOrKeep(d.fs, d.deletedFile, d.fileToDelete, ok)
  {
  }

  /** The records outlive the deletion they describe: a deletion whose
      rename fails re-points `fileToDelete` but keeps the `deletedFile` of an
      earlier deletion. */
  lemma {:induction false} FailedDeleteKeepsOldRecord(cfg: Config, d1: Fields, b: string, trash: string, stamp: string)
    requires Join(cfg.directory, b) in d1.fs.files
    requires Join(cfg.directory, trash) in d1.fs.dirs
    ensures AfterDeleteFile(cfg, d1, b, trash, true, stamp, false)
      == Done(d1.(fileToDelete := Join(cfg.directory, b), trashFolder := Join(cfg.directory, trash)))
  {
    JoinNotEmpty(cfg.directory, b);
  }

  /** So, once a deletion has moved a file to the trash (`d1.deletedFile`),
      a failed deletion of `b` followed by an undo moves that earlier file onto
      `b`'s path, over `b`. */
  lemma {:induction false} UndeleteAfterFailedDelete(cfg: Config, d1: Fields, b: string, trash: string, stamp: string)
    requires d1.deletedFile in d1.fs.files && !Empty(d1.deletedFile)
    requires Join(cfg.directory, b) in d1.fs.files && Join(cfg.directory, b) !in d1.fs.dirs
    requires Join(cfg.directory, trash) in d1.fs.dirs
    ensures var d2 := AfterDeleteFile(cfg, d1, b, trash, true, stamp, false).at;
      && d2.fileToDelete == Join(cfg.directory, b) && d2.deletedFile == d1.deletedFile
      && AfterUndeleteFile(d2, true).fs.files[Join(cfg.directory, b)] == d1.fs.files[d1.deletedFile]
  {
    var fileB := Join(cfg.directory, b);
    FailedDeleteKeepsOldRecord(cfg, d1, b, trash, stamp);
    var d2 := d1.(fileToDelete := fileB, trashFolder := Join(cfg.directory, trash));
    JoinNotEmpty(cfg.directory, b);
    UndeleteMovesBack(d2, true);
  }

  // ---------------------------------------------------------------------------
  // validate_directory

  /** `validate_directory()` once `$maxFilesize` is initialised: an existing
      directory is kept; otherwise, if creation is enabled, the slugged path
      (separator `-`, lower-cased) is created and becomes the directory.
      Returns the directory and the filesystem. */
  function ValidateDirectory(cc: CharClasses, directory: string, createDir: bool, fs: FileSystem,
                             mkdirOk: bool, sizeText: string): (r: Result<(string, FileSystem)>)
    ensures r.Ok? ==> r.value.0 in r.value.1.dirs && r.value.1.files == fs.files
    ensures r.Ok? <==> (directory in fs.dirs ||
      (createDir && CreateDirectory(fs, FormatCharacters(cc, directory, "-", LowerCase), mkdirOk, sizeText).Ok?))
    ensures r.Ok? && directory !in fs.dirs ==> r.value.0 == FormatCharacters(cc, directory, "-", LowerCase)
    ensures r.Err? && !createDir ==> r.message == ErrorMessage(FolderDirKey, sizeText)
    ensures r.Err? && createDir ==> r.message == ErrorMessage(CreateDirKey, sizeText)
  {
    if directory in fs.dirs then Ok((directory, fs))
    else if createDir then
      var d := FormatCharacters(cc, directory, "-", LowerCase);
      match CreateDirectory(fs, d, mkdirOk, sizeText)
      case Err(m) => Err(m)
      case Ok(fs2) => if d in fs2.dirs then Ok((d, fs2)) else Err(ErrorMessage(FolderDirKey, sizeText))
    else Err(ErrorMessage(FolderDirKey, sizeText))
  }

  /** `validate_directory()` as the constructor runs it: before `$maxFilesize`
      is assigned. Building the message table reads that uninitialised typed
      property, so every failure is an engine Error instead of the uploader's
      exception. */
  function ValidateDirectoryAsWritten(cc: CharClasses, directory: string, createDir: bool,
                                     fs: FileSystem, mkdirOk: bool): (r: Outcome<(string, FileSystem)>)
    ensures r.Aborted? ==> r.error == MaxFilesizeUninitialized
  {
    if directory in fs.dirs then Returned((directory, fs))
    else if createDir then
      var d := FormatCharacters(cc, directory, "-", LowerCase);
      if d in fs.dirs then Returned((d, fs))
      else if mkdirOk && d !in fs.files then Returned((d, FileSystem(fs.files, fs.dirs + {d})))
      else Aborted(MaxFilesizeUninitialized)
    else Aborted(MaxFilesizeUninitialized)
  }

  /** The two agree on success, and every failure the corrected version
      reports with a message dies as written. */
  lemma {:induction false} ValidateDirectoryAsWrittenDies(cc: CharClasses, directory: string, createDir: bool,
                                      fs: FileSystem, mkdirOk: bool, sizeText: string)
    ensures ValidateDirectoryAsWritten(cc, directory, createDir, fs, mkdirOk).Aborted?
        <==> ValidateDirectory(cc, directory, createDir, fs, mkdirOk, sizeText).Err?
    ensures ValidateDirectory(cc, directory, createDir, fs, mkdirOk, sizeText).Ok? ==>
      ValidateDirectoryAsWritten(cc, directory, createDir, fs, mkdirOk)
        == Returned(ValidateDirectory(cc, directory, createDir, fs, mkdirOk, sizeText).value)
  {
  }

  /** A missing directory with creation disabled: the uploader's exception
      with FOLDER_DIR_ERR was meant, an engine Error is what happens. */
  lemma {:induction false} MissingDirectoryWithoutCreation(cc: CharClasses, fs: FileSystem, sizeText: string)
    requires "uploads" !in fs.dirs
    ensures ValidateDirectory(cc, "uploads", false, fs, true, sizeText) == Err(ErrorMessage(FolderDirKey, sizeText))
    ensures ValidateDirectoryAsWritten(cc, "uploads", false, fs, true) == Aborted(MaxFilesizeUninitialized)
  {
  }

  // ---------------------------------------------------------------------------
  // The allow-lists: array_keys($allowedTypes, $type)[0]

  /** The first key of `table` whose value is `v`. */
  function FirstKey(table: seq<(string, string)>, v: string): (r: Option<string>)
    ensures r.None? <==> forall i :: 0 <= i < |table| ==> table[i].1 != v
    ensures r.Some? ==> exists i :: (0 <= i < |table| && table[i] == (r.value, v) &&
      forall j :: 0 <= j < i ==> table[j].1 != v)
    decreases |table|
  {
    if table == [] then None
    else if table[0].1 == v then Some(table[0].0)
    else
      var r := FirstKey(table[1..], v);
      assert forall i :: 1 <= i < |table| ==> table[i] == table[1..][i - 1];
      r
  }

  /** In a table with distinct values, the first key for the value of entry
      `i` is the key of entry `i`. */
  lemma {:induction false} FirstKeyOfDistinct(table: seq<(string, string)>, i: nat)
    requires i < |table|
    requires forall j, k :: 0 <= j < k < |table| ==> table[j].1 != table[k].1
    ensures FirstKey(table, table[i].1) == Some(table[i].0)
  {
    var r := FirstKey(table, table[i].1);
    var j :| 0 <= j < |table| && table[j] == (r.value, table[i].1) && forall k :: 0 <= k < j ==> table[k].1 != table[i].1;
    assert j == i;
  }

  // ---------------------------------------------------------------------------
  // The per-item pipeline both uploaders share

  /** One entry of PHP's `$_FILES`: the client's file name, the transport
      error code and the bytes of the temporary file (`filesize` is their
      count). */
  datatype Incoming = Incoming(name: string, error: int, content: seq<byte>)

  /** What the environment answers while one file is handled: finfo's MIME
      type, the bytes `random_bytes` gives `set_name` and `search_file`, the
      `glob` listing, and whether the final write and the undo rename
      succeed. */
  datatype Env = Env(
    mime: string, idBytes: nat -> byte, suffixBytes: nat -> byte,
    listing: seq<string>, stored: bool, undeleteOk: bool)

  /** One result array: `['file', 'file_dir']` on success, and on failure
      `['error', <nameKey>, 'file_type', 'file_extension']`. */
  datatype Entry =
    | Uploaded(file: string, fileDir: string)
    | Failed(error: string, nameKey: string, clientName: string, fileType: string, fileExtension: string)

  const ErrorFileKey := "error_file"
  const FileErrorKey := "file_error"

  function UploadedEntry(directory: string, f: Fields): Entry
  {
    Uploaded(f.name, Join(directory, f.name))
  }

  function FailedEntry(message: string, nameKey: string, item: Incoming, f: Fields): Entry
  {
    Failed(message, nameKey, item.name, f.fileType, f.extension)
  }

  /** The checks made before the type is looked at: the transport error code,
      then the size. In a batch the whole error array reaches
      `error_messages(string)`, which is a TypeError. */
  function Screen<S>(cfg: Config, item: Incoming, batch: bool, s: S): (r: Step<S>)
  {
    if item.error != UploadErrOk then
      if batch then Crashed(ArrayAsMessageKey, s)
      else Thrown(CodeMessage(item.error, cfg.sizeText), s)
    else if |item.content| > cfg.maxFilesize then
      Thrown(FormSizeMessage(cfg.sizeText), s)
    else Done(s)
  }

  /** The transport error is looked at before the size, and each failure
      throws its own catalogue entry (CodeMessageIsCatalogue). */
  lemma {:induction false} ScreenOrder<S>(cfg: Config, item: Incoming, batch: bool, s: S)
    ensures var r := Screen(cfg, item, batch, s);
      && (r.Done? <==> item.error == UploadErrOk && |item.content| <= cfg.maxFilesize)
      && (item.error != UploadErrOk && !batch ==> r == Thrown(CodeMessage(item.error, cfg.sizeText), s))
      && (item.error != UploadErrOk && batch ==> r == Crashed(ArrayAsMessageKey, s))
      && (item.error == UploadErrOk && |item.content| > cfg.maxFilesize ==>
            r == Thrown(CodeMessage(UploadErrFormSize, cfg.sizeText), s))
  {
  }

  /** `set_name` followed by `search_file` (a single upload) or
      `enumerate_file` (a batch). An abort leaves the fields as they were. */
  function Naming(cfg: Config, f: Fields, item: Incoming, h: Hint, env: Env, batch: bool): (r: Outcome<Fields>)
  {
    match NewName(cfg.cc, cfg.slug, f.extension, item.name, h, env.idBytes)
    case Aborted(e) => Aborted(e)
    case Returned(n) =>
      Returned(f.(name :=
        if batch then EnumeratedName(cfg.cc, cfg.directory, cfg.slug, n, f.extension, f.fs, env.listing)
        else SearchedName(cfg.directory, cfg.slug, n, f.extension, f.fs, env.suffixBytes)))
  }

  lemma {:induction false} NamingOnlyRenames(cfg: Config, f: Fields, item: Incoming, h: Hint, env: Env, batch: bool)
    ensures var r := Naming(cfg, f, item, h, env, batch);
      && (r.Aborted? <==> NewName(cfg.cc, cfg.slug, f.extension, item.name, h, env.idBytes).Aborted?)
      && (r.Returned? ==> r.value == f.(name := r.value.name))
  {
  }

  /** The loop of `multiple_upload` after its first `n` iterations, for the
      per-file `step` of the subclass: the entries so far, or the engine
      error that ended the call. The state threads from one file to the
      next. */
  function BatchPrefix<T, S>(step: (S, T, nat) -> (Outcome<Entry>, S), s: S, files: seq<T>, n: nat): (Outcome<seq<Entry>>, S)
    requires n <= |files|
  {
    if n == 0 then (Returned([]), s)
    else
      var (o, s1) := BatchPrefix(step, s, files, n - 1);
      if o.Aborted? then (o, s1)
      else
        var (e, s2) := step(s1, files[n - 1], n - 1);
        if e.Aborted? then (Aborted(e.error), s2) else (Returned(o.value + [e.value]), s2)
  }

  /** `return $uploadedFiles;` after the loop. The array is never
      initialised, so an empty batch returns an undefined variable from a
      function declared to return an array. */
  function BatchResult<S>(r: (Outcome<seq<Entry>>, S)): (Outcome<seq<Entry>>, S)
  {
    if r.0.Returned? && r.0.value == [] then (Aborted(EmptyBatchResult), r.1) else r
  }

  /** A batch that does not die has exactly one entry per file, in order, and
      each entry is what the step gave for its file and index. */
  lemma {:induction false} BatchPrefixEntries<T, S>(step: (S, T, nat) -> (Outcome<Entry>, S), s: S, files: seq<T>,
                                                    n: nat, p: (T, nat, Entry) -> bool)
    requires n <= |files|
    requires forall st: S, j :: 0 <= j < n && step(st, files[j], j).0.Returned? ==>
      p(files[j], j, step(st, files[j], j).0.value)
    ensures var (o, _) := BatchPrefix(step, s, files, n);
      o.Returned? ==> |o.value| == n && forall j :: 0 <= j < n ==> p(files[j], j, o.value[j])
  {
    if n > 0 {
      BatchPrefixEntries(step, s, files, n - 1, p);
      var (o1, s1) := BatchPrefix(step, s, files, n - 1);
      if o1.Returned? {
        var e := step(s1, files[n - 1], n - 1).0;
        if e.Returned? {
          var entries := o1.value + [e.value];
          assert BatchPrefix(step, s, files, n).0 == Returned(entries);
          assert p(files[n - 1], n - 1, entries[n - 1]);
          assert forall j :: 0 <= j < n - 1 ==> entries[j] == o1.value[j];
        }
      }
    }
  }

  /** Once an iteration dies, the whole call dies with that error. */
  lemma {:induction false} BatchAbortSticks<T, S>(step: (S, T, nat) -> (Outcome<Entry>, S), s: S, files: seq<T>,
                                                  k: nat, n: nat)
    requires k <= n <= |files|
    requires BatchPrefix(step, s, files, k).0.Aborted?
    ensures BatchPrefix(step, s, files, n) == BatchPrefix(step, s, files, k)
    decreases n - k
  {
    if k < n {
      BatchAbortSticks(step, s, files, k, n - 1);
    }
  }

  /** The second entry of a two-file batch is what the step gives for the
      second file in the state the first one left. */
  lemma {:induction false} BatchOfTwo<T, S>(step: (S, T, nat) -> (Outcome<Entry>, S), s: S, x: T, y: T)
    ensures var (o, _) := BatchPrefix(step, s, [x, y], 2);
      o.Returned? ==>
        && step(s, x, 0).0.Returned? && step(step(s, x, 0).1, y, 1).0.Returned?
        && o.value == [step(s, x, 0).0.value, step(step(s, x, 0).1, y, 1).0.value]
  {
    var files := [x, y];
    var (e1, s1) := step(s, x, 0);
    assert BatchPrefix(step, s, files, 0) == (Returned([]), s);
    assert files[0] == x && files[1] == y;
    if e1.Returned? {
      assert [] + [e1.value] == [e1.value];
      assert BatchPrefix(step, s, files, 1) == (Returned([e1.value]), s1);
    } else {
      assert BatchPrefix(step, s, files, 1) == (Aborted(e1.error), s1);
    }
  }

  /** An empty batch is the TypeError; any other batch returns what the loop
      collected. */
  lemma {:induction false} BatchResultEmpty<T, S>(step: (S, T, nat) -> (Outcome<Entry>, S), s: S, files: seq<T>)
    ensures var r := BatchResult(BatchPrefix(step, s, files, |files|));
      && (files == [] ==> r == (Aborted(EmptyBatchResult), s))
      && (r.0.Returned? ==> r.0.value != [])
  {
  }

  /** `move_uploaded_file`, `imagejpeg` or `imagepng` writing `bytes` to
      `path`, replacing any file already there; `ok` is whether the call
      succeeds. */
  function WriteFile(fs: FileSystem, path: string, bytes: seq<byte>, ok: bool): (r: (bool, FileSystem))
    ensures r.0 <==> ok && path !in fs.dirs
    ensures r.1.dirs == fs.dirs
    ensures r.0 ==> path in r.1.files && r.1.files[path] == bytes
    ensures forall p :: p != path ==>
      (p in r.1.files <==> p in fs.files) && (p in fs.files ==> r.1.files[p] == fs.files[p])
    ensures !r.0 ==> r.1 == fs
  {
    if ok && path !in fs.dirs then (true, fs.(files := fs.files[path := bytes])) else (false, fs)
  }

  // ---------------------------------------------------------------------------
  // The uploader object

  /** `Upload`: the settings the constructor fixes, and the fields the naming
      and trash operations update in place. A field that was never assigned
      holds `""`. */
  class Upload {
    const directory: string
    const createDir: bool
    const maxFilesize: int
    const slug: string
    const sizeText: string
    const cc: CharClasses
    var fileLimit: int
    var fileToDelete: string
    var deletedFile: string
    var trashFolder: string
    var name: string
    var extension: string
    var fileType: string
    var fs: FileSystem

    function Cfg(): Config
    {
      Config(directory, slug, maxFilesize, sizeText, cc)
    }

    function State(): Fields
      reads this
    {
      Fields(name, extension, fileType, fileToDelete, deletedFile, trashFolder, fs)
    }

    /** The object as `__construct` leaves it once the directory is valid. */
    constructor Init(directory: string, createDir: bool, maxFilesize: int, slug: string, fileLimit: int,
                     sizeText: string, cc: CharClasses, fs: FileSystem)
      ensures this.directory == directory && this.createDir == createDir && this.maxFilesize == maxFilesize
      ensures this.slug == slug && this.fileLimit == fileLimit && this.sizeText == sizeText && this.cc == cc
      ensures State() == Fields("", "", "", "", "", "", fs)
    {
      this.directory := directory;
      this.createDir := createDir;
      this.maxFilesize := maxFilesize;
      this.slug := slug;
      this.fileLimit := fileLimit;
      this.sizeText := sizeText;
      this.cc := cc;
      this.fs := fs;
      fileToDelete, deletedFile, trashFolder := "", "", "";
      name, extension, fileType := "", "", "";
    }

    /** `new Upload($directory, $createDir, $maxFilesize, $slug)` in the
      corrected order: the settings are assigned before the directory is
      validated, so a failed check fails with its own message.
      `ini_get('max_file_uploads')` is `iniMaxFileUploads`. The constructor as
      written validates first, so every failed check ends in the engine error
      of `ValidateDirectoryAsWritten` instead. */
    static method New(directory: string, createDir: bool, maxFilesize: int, slug: string, iniMaxFileUploads: int,
                      sizeText: string, cc: CharClasses, fs: FileSystem, mkdirOk: bool) returns (r: Result<Upload>)
      ensures var v := ValidateDirectory(cc, directory, createDir, fs, mkdirOk, sizeText);
        && (r.Err? <==> v.Err?)
        && (r.Err? ==> r.message == v.message)
        && (r.Ok? ==> fresh(r.value) && r.value.directory == v.value.0 && r.value.State() == Fields("", "", "", "", "", "", v.value.1))
      ensures r.Ok? ==> r.value.maxFilesize == maxFilesize && r.value.slug == slug && r.value.fileLimit == iniMaxFileUploads
      ensures r.Ok? ==> r.value.cc == cc && r.value.sizeText == sizeText && r.value.createDir == createDir
    {
      var v := ValidateDirectory(cc, directory, createDir, fs, mkdirOk, sizeText);
      if v.Err? {
        return Err(v.message);
      }
      var u := new Upload.Init(v.value.0, createDir, maxFilesize, slug, iniMaxFileUploads, sizeText, cc, v.value.1);
      r := Ok(u);
    }

    /** `fileLimit($fileLimit)`. */
    method FileLimit(limit: int)
      modifies this`fileLimit
      ensures fileLimit == limit
    {
      fileLimit := limit;
    }

    /** `set_name($file, $name)`: the three `if`s in turn, each overwriting the
      candidate of the one before. */
    method SetName(file: string, h: Hint, rnd: nat -> byte) returns (r: Outcome<string>)
      modifies this`name
      ensures r == NewName(cc, slug, extension, file, h, rnd)
      ensures name == if r.Returned? then r.value else old(name)
    {
      var newName := "";
      if LooseNull(h) {
        newName := FormatCharacters(cc, PathFilename(file), slug, LowerCase);
      }
      if IsNumericHint(h) {
        var id := GenerateRandomId(IntVal(h), rnd);
        if id.Aborted? {
          return Aborted(id.error);
        }
        newName := id.value;
      }
      if h.StrHint? {
        newName := FormatCharacters(cc, h.s, slug, RemoveDirectorySeparator);
      }
      name := newName + "." + extension;
      r := Returned(name);
    }

    /** `search_file()`. */
    method SearchFile(rnd: nat -> byte)
      modifies this`name
      ensures name == SearchedName(directory, slug, old(name), extension, fs, rnd)
    {
      var file := Join(directory, name);
      if Exists(fs, file) {
        RandomIdShape(10, rnd);
        var id := GenerateRandomId(10, rnd);
        name := PathFilename(name) + slug + id.value + "." + extension;
      }
    }

    /** `enumerate_file()`: one pass over the glob listing, bumping the counter
      each time the entry is the current candidate. */
    method EnumerateFile(listing: seq<string>)
      modifies this`name
      ensures name == EnumeratedName(cc, directory, slug, old(name), extension, fs, listing)
    {
      var file := Join(directory, name);
      if Exists(fs, file) && file in fs.files {
        var fileNum: nat := 2;
        var filename := PathFilename(name);
        for k := 0 to |listing|
          invariant CountFrom(cc, listing[k..], filename, slug, extension, fileNum)
                 == CountFrom(cc, listing, filename, slug, extension, 2)
        {
          assert listing[k..][1..] == listing[k + 1..];
          var newName := Candidate(filename, slug, fileNum, extension);
          var entry := listing[k];
          if Basename(entry) == newName {
            if MbStrToLower(cc, ExtensionOrEmpty(entry)) == extension {
              fileNum := fileNum + 1;
            }
          }
        }
        name := Candidate(filename, slug, fileNum, extension);
      }
    }

    /** `set_name` and then `search_file` (a single upload) or
      `enumerate_file` (a batch), as the subclasses call them. */
    method Name(item: Incoming, h: Hint, env: Env, batch: bool) returns (r: Outcome<()>)
      modifies this`name
      ensures var n := Naming(Cfg(), old(State()), item, h, env, batch);
        && (n.Aborted? ==> r == Aborted(n.error) && State() == old(State()))
        && (n.Returned? ==> r == Returned(()) && State() == n.value)
    {
      var named := SetName(item.name, h, env.idBytes);
      if named.Aborted? {
        return Aborted(named.error);
      }
      assert name == named.value;
      if batch {
        EnumerateFile(env.listing);
      } else {
        SearchFile(env.suffixBytes);
      }
      assert State() == old(State()).(name := name);
      r := Returned(());
    }

    /** `delete_file($filename, $trashFolder)`; `thrown` is the message of the
      exception it lets escape. */
    method DeleteFile(filename: string, trash: string, mkdirOk: bool, stamp: string, renameOk: bool)
      returns (thrown: Option<string>)
      modifies this`fileToDelete, this`trashFolder, this`deletedFile, this`fs
      ensures var s := AfterDeleteFile(Cfg(), old(State()), filename, trash, mkdirOk, stamp, renameOk);
        && (s.Done? ==> thrown == None && State() == s.at)
        && (s.Thrown? ==> thrown == Some(s.message) && State() == s.at)
    {
      var file := Join(directory, filename);
      thrown := None;
      if Exists(fs, file) && file in fs.files {
        fileToDelete := file;
        var made := CreateDirectory(fs, Join(directory, trash), mkdirOk, sizeText);
        if made.Err? {
          return Some(made.message);
        }
        fs := made.value;
        trashFolder := Join(directory, trash);
        DeleteFileAction(stamp, renameOk);
      }
    }

    /** `delete_file_action()`. */
    method DeleteFileAction(stamp: string, ok: bool)
      modifies this`deletedFile, this`fs
      ensures State() == AfterDeleteFileAction(slug, old(State()), stamp, ok)
    {
      if !Empty(fileToDelete) {
        var trashFilename := TrashName(slug, fileToDelete, stamp);
        var moved := Rename(fs, fileToDelete, Join(trashFolder, trashFilename), ok);
        if moved.Some? {
          fs := moved.value;
          deletedFile := Join(trashFolder, trashFilename);
        }
      }
    }

    /** `undelete_file()`. */
    method UndeleteFile(ok: bool)
      modifies this`fs
      ensures State() == AfterUndeleteFile(old(State()), ok)
    {
      if !Empty(deletedFile) && !Empty(fileToDelete) {
        fs := RenameOrKeep(fs, deletedFile, fileToDelete, ok);
      }
    }
  }
}
