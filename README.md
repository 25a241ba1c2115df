# UploadFile in Dafny

A model of the PHP library Apophss/UploadFile. The library has three
classes:

- `Upload` (src/Core/Upload.php) is the base class. It derives a safe file
  name from the client's file name or from a caller-supplied hint, resolves
  collisions in the target directory, moves an old file to a trash folder
  and back, and looks up the messages of its failures.
- `Image` (src/Image.php) accepts JPEG, PNG and GIF. It resizes JPEG and
  PNG to a requested width; GIF is moved as it came.
- `File` (src/File.php) accepts a fixed list of document and archive types
  and moves the temporary file into the directory unchanged.

The model has five modules:

- `PhpStrings` (php_strings.dfy): the PHP builtins the code relies on.
  These are `str_replace`, `trim`, `pathinfo`/`basename`, `bin2hex`,
  rendering an int as a string, and `is_numeric`/`intval` for integer
  strings.
- `UploadText` (upload_text.dfy): the pure pipelines of `Upload`. These
  are the message table `error_messages`, the slug `format_characters` and
  the random identifier `generate_random_id`.
- `UploadCore` (upload_core.dfy): the stateful part of `Upload`.
  - An abstract filesystem: regular files with their bytes, plus
    directories.
  - The naming steps `set_name`, `search_file` and `enumerate_file`.
  - The trash operations `delete_file`, `delete_file_action` and
    `undelete_file`, and the directory check `validate_directory`.
  - The class `Upload`. Its fields are the PHP object's properties, and its
    methods update them in place.
- `ImageUpload` (image.dfy): `Image`. Its class holds the inherited state as
  a `base: Upload` object, plus the `imageCreated` handle.
- `FileUpload` (file.dfy): `File`, built the same way.

Each PHP method that runs step by step is a Dafny method of its class.
Its `ensures` ties the new state and the result to a function of the old
state. For example, `FileUpload.File.Upload` ties them to
`FileUpload.FileUploadResult`. The lemmas then prove what the library
promises about that function:

- the order of the checks;
- the first-key lookup of the MIME type;
- one result per batch index;
- the off-by-one limit check `i > fileLimit`;
- what a failure reports and undoes;
- what a success leaves on disk.

`enumerate_file` and `multiple_upload` keep their loops, with invariants.

The outside world is passed in as parameters:

- what `finfo` answers;
- the bytes `random_bytes` returns;
- the `glob` listing;
- the time stamp;
- whether `rename`, `mkdir`, `move_uploaded_file` and the GD encoder
  succeed;
- the sizes GD decodes.

PHP's own errors are a separate outcome, `Aborted`, and never a caught
failure. These are a TypeError or ValueError raised by the engine, and
reading a typed property that was never assigned. The uploader's own
`UploaderException` becomes a `Thrown` step and then a failure entry.

Some behaviour one might expect of an uploader does not hold in this
library. The model follows the code, and a member shows each case:

- The slug is not idempotent. `a___b` gives `a__b`, and slugging that
  again gives `a_b` (`UploadText.FormatCharactersNotIdempotent`).
- `enumerate_file` does not look for the smallest free number. It makes one
  pass over the glob listing in glob's order, so the number it picks can
  already be taken (`UploadCore.EnumerateSkipsOutOfOrder`).
- A numeric hint gives a random id only when it is not a string. A string
  hint, `"8"` included, is slugged (`FileUpload.DigitNameIsSlugged`), unless
  it is an integer string below 1. That one dies in `random_bytes` before the
  string branch runs (`UploadCore.NonPositiveNumericStringDies`). `File`
  declares `$name` as `string`, so it never produces a random id.
- In a batch, an item with a transport error does not add a failure entry.
  It passes the whole error array to `error_messages(string)`, and the
  resulting TypeError ends the call (`ImageUpload.ImageBatchTransportErrorDies`,
  `FileUpload.FileBatchTransportErrorDies`).
- A failed single upload undoes the last recorded deletion, even one made
  before this upload (`UploadCore.UndeleteAfterFailedDelete`). A batch never
  undoes anything.
- An empty batch returns an undefined variable, which is a TypeError
  (`FileUpload.FileBatchEmpty`).

## Model

| member | source | states |
|---|---|---|
| PhpStrings.ReplaceAll | src/Core/Upload.php:159 | every character of the result comes from the subject or the replacement, and a one-character needle missing from the replacement is gone from the result |
| PhpStrings.ReplacePairsChars | src/Core/Upload.php:151-159 | after a table of replacements, every character comes from the subject or satisfies a predicate every replacement satisfies |
| PhpStrings.LeftCut | src/Core/Upload.php:161 | the index where ltrim stops: every character before it is in the mask, and the one at it is not |
| PhpStrings.RightCut | src/Core/Upload.php:161 | the index where rtrim stops: every character after it is in the mask, and the one before it is not |
| PhpStrings.TrimSpec | src/Core/Upload.php:161 | trim keeps one contiguous piece of its input, and every character it drops on either side is in the mask |
| PhpStrings.TrimCompose | src/Core/Upload.php:161 | an ltrim followed by an rtrim keeps one contiguous piece of the input and drops only mask characters around it |
| PhpStrings.TrimEnds | src/Core/Upload.php:161 | the first and last characters of a trimmed string are outside the mask |
| PhpStrings.DigitChar | src/Core/Upload.php:113 | the digit character for 0-9 is a decimal digit whose code is that value above '0' |
| PhpStrings.DigitValue | src/Core/Upload.php:113 | a decimal digit's value is below ten |
| PhpStrings.NatToString | src/Core/Upload.php:113 | the rendering of a counter is a non-empty run of digits, without a leading zero unless it is 0, with two or more digits from 10 on |
| PhpStrings.ParseNatToString | src/Core/Upload.php:113 | reading the rendering of n back as digits gives n |
| PhpStrings.NatToStringInjective | src/Core/Upload.php:113 | different counters render differently |
| PhpStrings.IntToStringRoundTrip | src/Core/Upload.php:87-88 | an int rendered as a string is an integer string, and intval gives the int back |
| PhpStrings.HexDigit | src/Core/Upload.php:167 | a nibble's digit is a lowercase hex digit |
| PhpStrings.HexValue | src/Core/Upload.php:167 | a lowercase hex digit's value is below 16 |
| PhpStrings.HexValueOfDigit | src/Core/Upload.php:167 | reading a nibble's hex digit back gives the nibble |
| PhpStrings.Bin2Hex | src/Core/Upload.php:167 | bin2hex gives two lowercase hex digits per byte |
| PhpStrings.Hex2BinOfBin2Hex | src/Core/Upload.php:167 | hex2bin undoes bin2hex, so no byte is lost |
| PhpStrings.LastIndexOf | src/Core/Upload.php:112 | the index of the last occurrence of a character, with no occurrence after it, or -1 |
| PhpStrings.Basename | src/Core/Upload.php:115 | a basename holds no '/' |
| PhpStrings.BasenameOfJoin | src/Core/Upload.php:112-115 | a name without '/' is the basename of itself and of any directory joined with it |
| PhpStrings.PathInfoOfName | src/Core/Upload.php:109 | pathinfo splits `stem.ext` back into the stem and the extension when neither holds '/' and the extension holds no '.' |
| UploadText.ErrorMessage | src/Core/Upload.php:45-65 | definition of `error_messages`: the table lookup with its generic default. Its properties are proved in OwnKeyMessages, KnownKeyMessage and ErrorMessageUnknownIff |
| UploadText.OwnKeyMessages | src/Core/Upload.php:57-61 | each of the five own keys finds the message written beside it |
| UploadText.KnownCodeMessage | src/Core/Upload.php:48-55 | every transport code of the table has a message of its own, longer than the generic one |
| UploadText.KnownOwnKeyMessage | src/Core/Upload.php:57-61 | every own key has a message of its own, longer than the generic one |
| UploadText.KnownKeyMessage | src/Core/Upload.php:47-62 | no key of the table gets the generic message |
| UploadText.ErrorMessageUnknownIff | src/Core/Upload.php:64 | the generic message is returned if and only if the key is not in the table |
| UploadText.TransportCodeKnown | src/Core/Upload.php:48-55 | a transport code's rendering is a key of the table exactly for the codes 0-4 and 6-8 |
| UploadText.CodeMessage | src/Core/Upload.php:48-55 | definition: the table entry of an int transport code. CodeMessageIsCatalogue ties it to the lookup by key |
| UploadText.CodeMessageIsCatalogue | src/Core/Upload.php:45-64 | looking up an int code through its string rendering gives the entry the model uses for that code |
| UploadText.OnlyFormSizeMentionsLimit | src/Core/Upload.php:50 | only the FORM_SIZE message depends on the size limit |
| UploadText.LimitMessageDistinct | src/Core/Upload.php:50-61 | the limit message differs from the FORM_SIZE, INVALID_TYPE and SAVE_FAILED messages |
| UploadText.LowerOfFixed | src/Core/Upload.php:148 | text made of characters lower-casing fixes is its own lower case |
| UploadText.SkipMatched | src/Core/Upload.php:158 | skipping a run the slug regex matches leaves a suffix of the input that is empty or starts with a kept character |
| UploadText.SkippedChars | src/Core/Upload.php:158 | what the skip leaves comes from its input |
| UploadText.CollapseRunsChars | src/Core/Upload.php:158 | after the regex step every character is kept by the slug or comes from the separator, and comes from the input or the separator |
| UploadText.CollapseRunsOfKept | src/Core/Upload.php:158 | the regex step leaves text made only of kept characters unchanged |
| UploadText.LowerAccentsSlug | src/Core/Upload.php:151-152 | each lower-case accent pair has a non-empty needle and a one-character replacement that is an ASCII letter, `_` or `-` |
| UploadText.UpperAccentsSlug | src/Core/Upload.php:151-152 | the same for the upper-case accent pairs |
| UploadText.SeparatorRulesSlug | src/Core/Upload.php:151-152 | the same for the four separator rules |
| UploadText.AccentReplacements | src/Core/Upload.php:151-159 | the accent table only adds ASCII letters, `_` and `-` to a string |
| UploadText.FormatCharacters | src/Core/Upload.php:148-162 | definition of `format_characters`: casing, the regex, the accent table and the trim. Its properties are proved in SlugIsTrimmed, SlugCharsKept, SlugHasNoDirectorySeparator and FormatCharactersNotIdempotent |
| UploadText.SlugIsTrimmed | src/Core/Upload.php:161 | a slug neither starts nor ends with a space, `_`, `-`, a tab, CR, LF, NUL or a vertical tab |
| UploadText.TrimKeepsChars | src/Core/Upload.php:161 | every character of a trimmed string comes from the untrimmed one |
| UploadText.SlugCharsKept | src/Core/Upload.php:151-161 | with separator `_` or `-`, every character of a slug is a cased letter, a decimal digit, `\`, `/`, `-` or `_` |
| UploadText.SlugHasNoDirectorySeparator | src/Core/Upload.php:90-92 | with set_name's closure and a separator without `/` or `\`, the slug contains neither |
| UploadText.SlugOfSlashFreeText | src/Core/Upload.php:84-85 | with the default case function, a text and separator without `/` give a slug without `/` |
| UploadText.ReplaceAllAbsent | src/Core/Upload.php:159 | a needle with a character the subject lacks leaves the subject unchanged |
| UploadText.ReplacePairsAbsent | src/Core/Upload.php:159 | pairs whose needles start with a character the subject lacks leave it unchanged |
| UploadText.ReplacePairsMissingChar | src/Core/Upload.php:159 | pairs whose needles all contain a character the subject lacks leave it unchanged |
| UploadText.ReplacePairsAppend | src/Core/Upload.php:159 | applying two tables in turn is applying their concatenation |
| UploadText.LowerAccentsNonAscii | src/Core/Upload.php:151 | each lower-case accent needle is one non-ASCII character |
| UploadText.UpperAccentsNonAscii | src/Core/Upload.php:151 | each upper-case accent needle is one non-ASCII character |
| UploadText.AccentsOnAscii | src/Core/Upload.php:159 | a table of accent pairs leaves ASCII text unchanged |
| UploadText.AccentsOnAsciiPrefix | src/Core/Upload.php:159 | two leading tables of accent pairs can be dropped on ASCII text |
| UploadText.AccentTableOnAscii | src/Core/Upload.php:151-159 | on ASCII text the whole table acts as its separator rules alone |
| UploadText.AccentPassOnUnderscores | src/Core/Upload.php:151-159 | the separator rules turn `a___b` into `a__b` and `a__b` into `a_b`, one pass without overlap |
| UploadText.FormatCharactersOfAsciiSlug | src/Core/Upload.php:154-161 | ASCII text that the slug keeps and lower-casing fixes meets only the separator rules and the trim |
| UploadText.FormatCharactersOfFixedText | src/Core/Upload.php:154-161 | text that the slug keeps and lower-casing fixes goes straight to the accent table and the trim |
| UploadText.CasingsAgreeWithoutSeparators | src/Core/Upload.php:90-92 | on text without `/` and `\`, set_name's closure gives the same slug as the default case function |
| UploadText.SingleDigitSlug | src/Core/Upload.php:90-92 | a lone decimal digit that lower-casing fixes is its own slug under set_name's closure |
| UploadText.SeparatorRulesOnPlainText | src/Core/Upload.php:159 | text without `_` and `-` is left alone by the separator rules |
| UploadText.LettersOutsideTrimMask | src/Core/Upload.php:161 | trim never strips an ASCII letter |
| UploadText.TrimOfUntrimmed | src/Core/Upload.php:161 | a string whose ends are outside the mask is its own trim |
| UploadText.FormatCharactersOfUnderscores | src/Core/Upload.php:151-161 | the slug of `a___b` is `a__b`, and the slug of `a__b` is `a_b` |
| UploadText.FormatCharactersNotIdempotent | src/Core/Upload.php:151-161 | slugging `a___b` twice differs from slugging it once |
| UploadText.GenerateRandomId | src/Core/Upload.php:164-168 | definition of `generate_random_id`. Its properties are proved in RandomIdShape and RandomIdEncodesBytes |
| UploadText.RandomIdShape | src/Core/Upload.php:164-168 | a length below 1 dies in random_bytes; otherwise the id has exactly that many characters, all lowercase hex |
| UploadText.RandomIdEncodesBytes | src/Core/Upload.php:164-168 | for an even length the id is the full hex encoding of length/2 random bytes |
| UploadCore.JoinNotEmpty | src/Core/Upload.php:173-183 | a joined path is never empty, so a recorded file to delete passes `!empty` |
| UploadCore.Rename | src/Core/Upload.php:188-192 | rename succeeds exactly when allowed, the source is a regular file and the target is not a directory; it then moves the bytes and touches no other path |
| UploadCore.RenameRoundTrip | src/Core/Upload.php:188-202 | moving a file to a free path and back restores the filesystem |
| UploadCore.CreateDirectory | src/Core/Upload.php:126-133 | an existing directory is accepted; otherwise mkdir must succeed on a path that is no regular file; success adds only that directory and keeps every file; a failure gives the createDir_ERR message |
| UploadCore.NewStem | src/Core/Upload.php:82-93 | definition of the three `if`s of `set_name`. Their branches are proved in NewStemBranches, StringHintIsSlugged and StemIsPlain |
| UploadCore.NewName | src/Core/Upload.php:82-95 | definition of the name `set_name` assigns. NewNameSplits proves its split |
| UploadCore.NewStemBranches | src/Core/Upload.php:82-95 | only a numeric hint below 1 dies; a string hint is slugged with set_name's closure; a loosely null non-string hint slugs the client's file name; a non-zero int gives that many hex digits; `true` gives the empty stem |
| UploadCore.StringHintIsSlugged | src/Core/Upload.php:87-93 | a string hint, numeric or not, gives its own slug unless it is a numeric string below 1 |
| UploadCore.NonPositiveNumericStringDies | src/Core/Upload.php:87-88 | a string hint that is an integer below 1 dies in random_bytes |
| UploadCore.StemIsPlain | src/Core/Upload.php:82-94 | with separator `_` or `-`, a stem holds neither '.' nor '/' |
| UploadCore.NewNameSplits | src/Core/Upload.php:94 | the new name is stem, '.' and extension, and pathinfo splits it back into exactly those |
| UploadCore.SearchedName | src/Core/Upload.php:97-102 | definition of `search_file`. Its properties are proved in SearchedNameShape and SearchedNameNotRechecked |
| UploadCore.SearchedNameShape | src/Core/Upload.php:97-102 | a free name is kept; a taken one becomes stem, separator, ten lowercase hex digits, '.', extension |
| UploadCore.SuffixedNameShape | src/Core/Upload.php:101 | stem, separator, a ten-digit hex id, '.' and extension has the suffixed shape |
| UploadCore.SearchedNameNotRechecked | src/Core/Upload.php:99-101 | the result depends on the directory only through whether the first name exists, so a taken suffixed name goes unnoticed |
| UploadCore.CountFrom | src/Core/Upload.php:111-119 | definition of the counting loop of `enumerate_file`. Its properties are proved in CountFromBounds, CountBumps, CountSkips and ConsecutiveCount |
| UploadCore.EnumeratedName | src/Core/Upload.php:104-123 | definition of `enumerate_file`. Its properties are proved in EnumeratedNameShape, EnumerateAfterConsecutive and EnumerateSkipsOutOfOrder |
| UploadCore.CountFromBounds | src/Core/Upload.php:111-119 | the counter ends between its start and its start plus the listing's length |
| UploadCore.EnumeratedNameShape | src/Core/Upload.php:104-123 | a name that is free or not a regular file is kept; otherwise it becomes stem, separator, a counter from 2 to 2 plus the listing's length, '.', extension |
| UploadCore.CandidateParts | src/Core/Upload.php:112-116 | a listed candidate has itself as basename and the extension as extension |
| UploadCore.CandidateEntryMatches | src/Core/Upload.php:113-117 | a listed candidate bumps the counter exactly when the counter is its own number |
| UploadCore.CandidateInjective | src/Core/Upload.php:113 | different counters give different candidates |
| UploadCore.ConsecutiveTail | src/Core/Upload.php:113 | the consecutive listing from `from` without its head is the one from `from + 1` |
| UploadCore.CountBumps | src/Core/Upload.php:115-117 | a matching entry bumps the counter by one |
| UploadCore.CountSkips | src/Core/Upload.php:115-117 | an entry that does not match the current candidate leaves the counter alone |
| UploadCore.CountSkipsTwo | src/Core/Upload.php:115-117 | the same for two entries in a row |
| UploadCore.ConsecutiveCount | src/Core/Upload.php:108-119 | a listing of consecutive candidates is counted in full |
| UploadCore.OriginalNeverMatches | src/Core/Upload.php:106-117 | the original file never matches a candidate |
| UploadCore.EnumerateAfterConsecutive | src/Core/Upload.php:104-123 | with `foo.ext` and `foo_2.ext` to `foo_k.ext` listed in order, the counter ends at k + 1, the next free number |
| UploadCore.EnumerateSkipsOutOfOrder | src/Core/Upload.php:104-123 | an entry listed before its turn is passed over, so when it is `foo_(k+1).ext` the chosen name is already listed |
| UploadCore.AfterDeleteFileAction | src/Core/Upload.php:181-194 | with a file recorded, it is moved to the trash path and that path recorded, but only if the rename succeeds; nothing else changes |
| UploadCore.AfterDeleteFile | src/Core/Upload.php:171-179 | a no-op unless the file exists and is regular; otherwise the file is recorded, and a trash folder that cannot be made throws createDir_ERR |
| UploadCore.AfterUndeleteFile | src/Core/Upload.php:196-204 | only the filesystem changes, only when both paths are recorded, and then by the rename back |
| UploadCore.DeleteFileMoves | src/Core/Upload.php:171-194 | when the folder can be made and the rename succeeds, the file's bytes move to trash/stem, separator, stamp, extension, and both paths are recorded |
| UploadCore.DeleteUndeleteRoundTrip | src/Core/Upload.php:171-204 | a successful delete followed by undelete restores every regular file; only the trash folder remains |
| UploadCore.UndeleteMovesBack | src/Core/Upload.php:196-204 | with both records set, undo is the rename from the trash path to the original one |
| UploadCore.FailedDeleteKeepsOldRecord | src/Core/Upload.php:171-194 | a delete whose rename fails re-points the file to delete but keeps the trash path of an earlier delete |
| UploadCore.UndeleteAfterFailedDelete | src/Core/Upload.php:171-204 | an undo after such a delete moves the earlier trashed file onto the new file's path |
| UploadCore.ValidateDirectory | src/Core/Upload.php:67-80 | an existing directory is kept; otherwise, with creation enabled, the slugged path is created; a failure gives FOLDER_DIR_ERR, or createDir_ERR when creation failed |
| UploadCore.ValidateDirectoryAsWritten | src/Core/Upload.php:31-35 | as the constructor runs it, every failure is the engine error of reading the unassigned `$maxFilesize` |
| UploadCore.ValidateDirectoryAsWrittenDies | src/Core/Upload.php:31-35 | the two versions agree on success, and every failure with a message dies in the version as written |
| UploadCore.MissingDirectoryWithoutCreation | src/Core/Upload.php:69-79 | a missing directory without creation is FOLDER_DIR_ERR as intended and an engine error as written |
| UploadCore.FirstKey | src/File.php:106 | `array_keys($t, $v)[0]`: none if no value matches, otherwise the key of the first entry whose value is v |
| UploadCore.FirstKeyOfDistinct | src/File.php:106 | in a table with distinct values, the first key of entry i's value is entry i's key |
| UploadCore.Screen | src/File.php:28-32 | definition of the transport and size checks that open `upload` and `multiple_upload`. ScreenOrder proves their order |
| UploadCore.ScreenOrder | src/File.php:28-32 | the transport error is checked before the size; in a batch the transport error is an engine error; each failure throws its own message |
| UploadCore.Naming | src/Core/Upload.php:82-123 | definition: `set_name`, then `search_file` for a single upload or `enumerate_file` in a batch. NamingOnlyRenames proves what it changes |
| UploadCore.NamingOnlyRenames | src/Core/Upload.php:82-123 | naming dies exactly when set_name does, and otherwise changes only the name |
| UploadCore.BatchPrefix | src/Image.php:54-88 | definition of the first n iterations of the batch loop. Its properties are proved in BatchPrefixEntries, BatchAbortSticks and BatchOfTwo |
| UploadCore.BatchResult | src/Image.php:89 | definition of the returned `$uploadedFiles`. BatchResultEmpty proves the empty-batch TypeError |
| UploadCore.BatchPrefixEntries | src/Image.php:54-89 | a loop that does not die has one entry per file so far, each satisfying what the step promises for its file and index |
| UploadCore.BatchAbortSticks | src/Image.php:54-89 | once an iteration dies, the whole call ends with that error |
| UploadCore.BatchOfTwo | src/Image.php:54-89 | a two-file batch's second entry is the step's result in the state the first file left |
| UploadCore.BatchResultEmpty | src/Image.php:89 | an empty batch is the TypeError of the undefined array; any other batch returns at least one entry |
| UploadCore.WriteFile | src/File.php:40 | the move succeeds exactly when allowed and the target is not a directory; the target then holds exactly the bytes; no other path and no directory changes; a failure changes nothing |
| UploadCore.Upload.Init | src/Core/Upload.php:25-38 | the settings as given and every name field unset |
| UploadCore.Upload.New | src/Core/Upload.php:25-38 | the corrected constructor (see Findings): it fails exactly when the directory check does, with the check's message; otherwise the object holds the checked directory and the settings |
| UploadCore.Upload.FileLimit | src/Core/Upload.php:40-43 | sets the limit |
| UploadCore.Upload.SetName | src/Core/Upload.php:82-95 | the three `if`s in turn give the new name of the set_name function, assigned unless it dies |
| UploadCore.Upload.SearchFile | src/Core/Upload.php:97-102 | the name becomes search_file's result |
| UploadCore.Upload.EnumerateFile | src/Core/Upload.php:104-123 | the counting loop leaves the name enumerate_file's result |
| UploadCore.Upload.Name | src/Core/Upload.php:82-123 | set_name then search_file or enumerate_file: the fields become the naming result, or stay as they were when it dies |
| UploadCore.Upload.DeleteFile | src/Core/Upload.php:171-179 | the fields and filesystem become delete_file's result, and a throw is reported |
| UploadCore.Upload.DeleteFileAction | src/Core/Upload.php:181-194 | the fields become delete_file_action's result |
| UploadCore.Upload.UndeleteFile | src/Core/Upload.php:196-204 | the fields become undelete_file's result |
| ImageUpload.ImageInfo | src/Image.php:93-117 | definition of `set_image_info`. Its properties are proved in ImageInfoTypes and ImageExtensionIsKey |
| ImageUpload.ImageInfoTypes | src/Image.php:93-117 | jpeg, png and gif map to their extensions, GIF is never decoded, any other type throws INVALID_TYPE, and the type is recorded in every case |
| ImageUpload.ImageExtensionIsKey | src/Image.php:101-111 | the chosen extension is the allow-list key of the type |
| ImageUpload.TruncDiv | src/Image.php:129 | intval of a PHP quotient truncates toward zero |
| ImageUpload.ResizeDims | src/Image.php:126-129 | definition of the target size. Its properties are proved in ResizeWidth, ResizeKeepsRatio and ResizeFullWidth |
| ImageUpload.ResizeWidth | src/Image.php:128 | the requested width is used exactly when it is loosely non-null and below the source width, so the image is never enlarged |
| ImageUpload.ResizeKeepsRatio | src/Image.php:129 | the height is the largest integer keeping height/width at most the source ratio |
| ImageUpload.ResizeFullWidth | src/Image.php:129 | at full width the source height is kept |
| ImageUpload.ResizeExamples | src/Image.php:126-129 | 1000x500 gives 400x200 at width 400, and 1000x500 at width 2000, 0 or none |
| ImageUpload.ImageSave | src/Image.php:119-147 | definition of `save_image`. Its properties are proved in ImageSaveWrites, ImageSaveAborts and UndecodedImageAborts |
| ImageUpload.ImageSaveWrites | src/Image.php:119-147 | a write goes only to directory/name, a failed one changes nothing, and a GIF's bytes are written verbatim |
| ImageUpload.ImageSaveAborts | src/Image.php:125-147 | a decoded image dies exactly when a side would be below one pixel or the extension is neither jpg nor png |
| ImageUpload.UndecodedImageAborts | src/Image.php:121-124 | an undecodable JPEG or PNG makes save_image fall off its end |
| ImageUpload.ImageAttempt | src/Image.php:20-34 | definition of the `try` block of `upload`. Its properties are proved in ImageAttemptMessage, ImageAttemptStores and ImageAttemptThrownWritesNothing |
| ImageUpload.ImageStore | src/Image.php:29-34 | definition: naming, then saving |
| ImageUpload.ImageSaved | src/Image.php:33-34 | definition: `save_image` and the SAVE_FAILED throw |
| ImageUpload.ImageAttemptMessage | src/Image.php:20-34 | the transport error, the size, the type and the save are checked in that order, and the first failure decides the message |
| ImageUpload.ImageAttemptStores | src/Image.php:27-34 | a success stores the file under directory/name with the detected type and its extension; a GIF byte for byte |
| ImageUpload.ImageAttemptThrownWritesNothing | src/Image.php:20-34 | a thrown attempt leaves the filesystem and the trash records alone |
| ImageUpload.ImageUploadResult | src/Image.php:18-50 | definition of `upload`. Its properties are proved in ImageUploadReports |
| ImageUpload.ImageUploadReports | src/Image.php:35-49 | a failure undoes the last deletion and reports the client name under `error_file` with the type and extension; a success reports the stored name and its path |
| ImageUpload.BatchAttemptNotLimit | src/Image.php:56-72 | no batch attempt throws the limit message |
| ImageUpload.ImageBatchItem | src/Image.php:55-86 | definition of one iteration of `multiple_upload`. Its properties are proved in ImageBatchItemEntry and BatchItemTooLarge |
| ImageUpload.ImageBatch | src/Image.php:52-90 | definition of `multiple_upload`. Its properties are proved in ImageBatchEntries, ImageBatchEmpty, ImageBatchTransportErrorDies and ImageBatchCarriesType |
| ImageUpload.ImageBatchItemEntry | src/Image.php:55-86 | an item is the limit failure exactly when its index exceeds the limit, and a failure names the client file under `file_error` |
| ImageUpload.ImageStepEntries | src/Image.php:55-86 | every step of the loop satisfies the entry shape |
| ImageUpload.ImageBatchEntries | src/Image.php:54-89 | a batch that does not die has one entry per file in order, the limit failure exactly at indices above the limit, and failures named under `file_error` |
| ImageUpload.ImageBatchEmpty | src/Image.php:89 | an empty batch is the TypeError |
| ImageUpload.ImageBatchTransportErrorDies | src/Image.php:59-60 | a transport error in the first file ends the whole batch with the TypeError |
| ImageUpload.AttemptRecordsType | src/Image.php:65 | past the size check, the detected type stays in the type field whatever follows, with its extension when allowed |
| ImageUpload.BatchItemTooLarge | src/Image.php:62-63 | a too-large file reports the type and extension the previous files left |
| ImageUpload.ImageBatchCarriesType | src/Image.php:77-78 | a too-large second file reports the type detected for the first |
| ImageUpload.FirstItemRecordsType | src/Image.php:65 | the state the first file leaves holds its detected type |
| ImageUpload.Image.Init | src/Image.php:8-10 | the base object and no image |
| ImageUpload.Image.New | src/Core/Upload.php:25-38 | the corrected inherited constructor (see Findings): it fails exactly when the directory check does, otherwise it gives a fresh object with the checked directory |
| ImageUpload.Image.SetImageInfo | src/Image.php:93-117 | the fields become set_image_info's result, and a throw is reported |
| ImageUpload.Image.SaveImage | src/Image.php:119-147 | the filesystem and result are save_image's |
| ImageUpload.Image.Attempt | src/Image.php:20-34 | the state and result are those of the `try` block |
| ImageUpload.Image.Store | src/Image.php:29-34 | naming then saving, as the store step |
| ImageUpload.Image.Save | src/Image.php:33-34 | save_image and the SAVE_FAILED throw |
| ImageUpload.Image.Upload | src/Image.php:18-50 | the result and the new state are the single upload's |
| ImageUpload.Image.BatchItem | src/Image.php:55-86 | one loop iteration's entry and state |
| ImageUpload.Image.MultipleUpload | src/Image.php:52-90 | the loop's invariant ties the entries so far to the batch prefix, so the result and state are the batch's |
| FileUpload.FileTypesDistinct | src/File.php:11-23 | no two extensions share a MIME type |
| FileUpload.FileExtensionRoundTrip | src/File.php:11-23 | looking up any listed type gives back its own extension |
| FileUpload.FileInfo | src/File.php:98-107 | definition of `set_file_info`. Its properties are proved in FileInfoTypes |
| FileUpload.FileInfoTypes | src/File.php:98-107 | the type is recorded in every case; a listed type is accepted with its own extension, and any other throws INVALID_TYPE |
| FileUpload.FileAttempt | src/File.php:27-41 | definition of the `try` block of `upload`. Its properties are proved in FileAttemptMessage, FileAttemptStores and FileAttemptThrownWritesNothing |
| FileUpload.FileStore | src/File.php:36-41 | definition: naming, then the move |
| FileUpload.FileSaved | src/File.php:40-41 | definition: `move_uploaded_file` and the SAVE_FAILED throw |
| FileUpload.FileAttemptMessage | src/File.php:28-41 | the transport error, the size, the type and the move are checked in that order, and the first failure decides the message |
| FileUpload.FileAttemptStores | src/File.php:34-40 | a success leaves the uploaded bytes unchanged under directory/name, with the detected type and its allow-list extension |
| FileUpload.FileAttemptThrownWritesNothing | src/File.php:27-41 | a thrown attempt leaves the filesystem and the trash records alone |
| FileUpload.FileNameFromArgument | src/File.php:25-36 | the name argument alone decides the stem: a non-positive integer string dies, anything else is slugged |
| FileUpload.DigitNameIsSlugged | src/File.php:36 | `"8"` as name gives the stem `"8"`, not a random id |
| FileUpload.FileUploadResult | src/File.php:25-57 | definition of `upload`. Its properties are proved in FileUploadReports |
| FileUpload.FileUploadReports | src/File.php:42-56 | a failure undoes the last deletion and reports the client name under `file_error` with the type and extension; a success reports the stored name and a path that holds the bytes |
| FileUpload.FileAttemptNotLimit | src/File.php:62-78 | no batch attempt throws the limit message |
| FileUpload.FileBatchItem | src/File.php:61-92 | definition of one iteration of `multiple_upload`. Its properties are proved in FileBatchItemEntry and FileItemTooLarge |
| FileUpload.FileBatch | src/File.php:58-96 | definition of `multiple_upload`. Its properties are proved in FileBatchEntries, FileBatchEmpty, FileBatchTransportErrorDies and FileBatchCarriesType |
| FileUpload.FileBatchItemEntry | src/File.php:61-92 | an item is the limit failure exactly when its index exceeds the limit, and a failure names the client file under `file_error` |
| FileUpload.FileStepEntries | src/File.php:61-92 | every step of the loop satisfies the entry shape |
| FileUpload.FileBatchEntries | src/File.php:58-96 | a batch that does not die has one entry per file in order, the limit failure exactly at indices above the limit, and failures named under `file_error` |
| FileUpload.FileBatchEmpty | src/File.php:95 | an empty batch is the TypeError |
| FileUpload.FileBatchTransportErrorDies | src/File.php:65-66 | a transport error in the first file ends the whole batch with the TypeError |
| FileUpload.FileAttemptRecordsType | src/File.php:71 | past the size check, the detected type stays in the type field whatever follows, with its extension when listed |
| FileUpload.FileItemTooLarge | src/File.php:68-69 | a too-large file reports the type and extension the previous files left |
| FileUpload.FirstFileRecordsType | src/File.php:71 | the state the first file leaves holds its detected type |
| FileUpload.FileBatchCarriesType | src/File.php:79-85 | a too-large second file reports the type detected for the first |
| FileUpload.File.Init | src/File.php:8 | the base object |
| FileUpload.File.New | src/Core/Upload.php:25-38 | the corrected inherited constructor (see Findings): it fails exactly when the directory check does, otherwise it gives a fresh object with the checked directory |
| FileUpload.File.SetFileInfo | src/File.php:98-107 | the fields become set_file_info's result, and a throw is reported |
| FileUpload.File.Attempt | src/File.php:27-41 | the state and result are those of the `try` block |
| FileUpload.File.Store | src/File.php:36-41 | naming then the move, as the store step |
| FileUpload.File.Save | src/File.php:40-41 | move_uploaded_file and the SAVE_FAILED throw, which never dies |
| FileUpload.File.Upload | src/File.php:25-57 | the result and the new state are the single upload's |
| FileUpload.File.BatchItem | src/File.php:61-92 | one loop iteration's entry and state |
| FileUpload.File.MultipleUpload | src/File.php:58-96 | the loop's invariant ties the entries so far to the batch prefix, so the result and state are the batch's |

## Left out

- `convert_bytes` uses floating-point `log`, `pow` and `round`. Its text is a parameter (`sizeText`) of the FORM_SIZE message.
- `finfo` is a parameter: the MIME type. When finfo fails it returns `false`, which a `string` property receives as `""`; the model covers this as the type `""`.
- The GD calls are foreign code. The decoded size and the encoders' output bytes are parameters. Alpha handling and `imagedestroy` have no visible effect in the model.
- `random_bytes` and `DateTime` are nondeterministic and are parameters. The time stamp's format is not modelled.
- Memory limits of `random_bytes` are not modelled. A large integer-string hint such as `"1000000000"` asks for about 500 MB of random bytes before the string branch replaces the id. PHP's memory limit can end the request there, but the model slugs the hint.
- The real filesystem is a map from path to bytes plus a set of directories. `glob`'s matching and ordering are given as the listing.
- `mkdir`'s recursive creation of parent directories is not modelled. It is one success flag.
- `filesize` returning `false`, and `$_FILES` arrays of unequal lengths, are not modelled. An upload is one record of name, code and bytes.
- `is_numeric` and `intval` are modelled only for ints and integer strings. Float strings, hex or whitespace forms and float hints are not.
- `max_file_uploads` is read from the ini file. It is a parameter of the constructor.
- The race between naming and saving needs concurrency, which is not modelled.
- The quality array is passed to the encoders unchecked. A missing `jpg`/`png` key is not modelled.
- Messages that throw are written with the resolved table entries (`CodeMessage`, `InvalidTypeMessage`). `UploadText.CodeMessageIsCatalogue` and `UploadText.OwnKeyMessages` tie these entries to the lookup by key.
- `UploadText.RandomIdShape`: the contract covers length and alphabet. It says which bytes only for even lengths, in `UploadText.RandomIdEncodesBytes`.
- UploadCore.Upload.New: models the constructor in the corrected order, where the settings come before the directory check. As written (src/Core/Upload.php:31-35), every failed check dies with the engine error of the unassigned `$maxFilesize`, so the message `New` promises is never produced. `UploadCore.ValidateDirectoryAsWritten` models the code as written.
- ImageUpload.Image.New: the same corrected order as `UploadCore.Upload.New`, for the same reason.
- FileUpload.File.New: the same corrected order as `UploadCore.Upload.New`, for the same reason.
- UploadText.FormatCharacters: the separator `slug` is put into the name as literal text. At src/Core/Upload.php:158 it is the replacement argument of `preg_replace`, so PHP expands `$n`, `${n}` and `\n` to the n-th group (`$1` is the matched run) and turns `\\` into `\`. A separator that contains `$` or `\` is therefore not modelled: with slug `$1`, PHP leaves `a b` as it is, but the model gives `a$1b`. Slugs made only of other characters, such as the default `_`, behave the same in both.
- UploadText.MbStrToLower: lower-casing is one character to one character. Since PHP 7.3, `mb_strtolower` does full case mapping, so `İ` (U+0130) becomes `i` followed by U+0307. U+0307 is not in `\p{L&}`, so the slug regex then turns it into the separator: `İzmir` becomes `i_zmir`. No choice of `lower` gives that result. Client names that are not valid UTF-8 cannot be written at all, because strings are sequences of characters.
- Array hints to `set_name` are not modelled. An empty array `[]` is loosely null and slugs the client's name. A non-empty array matches no branch and gives the empty stem. `Hint` covers null, bools, ints and strings only.

## Findings

| source | as written | input that shows it | evidently intended | confidence | as-written member | corrected member |
|---|---|---|---|---|---|---|
| src/Core/Upload.php:31-35 | the constructor calls `validate_directory()` before assigning `$maxFilesize`; on failure, `error_messages` builds its table from the still-unassigned typed property and PHP raises an Error | directory `uploads` missing, `createDir` false | the uploader's own exception with the FOLDER_DIR_ERR message | high (not executed) | UploadCore.ValidateDirectoryAsWritten | UploadCore.ValidateDirectory |
