/** The pure expression pipelines of the base uploader: the message catalogue
    (`error_messages`), the slug transform (`format_characters`) and the random
    identifier (`generate_random_id`). */
module UploadText {
  import opened PhpStrings

  /** A PHP engine error (TypeError, ValueError, Error). The uploader only
      catches its own exception class, so these abort the whole call. */
  datatype EngineError =
    | RandomBytesLength        // random_bytes() with a length below 1 (ValueError)
    | SaveImageReturnedNothing // save_image() falls off its end: bool return type (TypeError)
    | CanvasSize               // imagecreatetruecolor() with a side below 1 (ValueError)
    | ArrayAsMessageKey        // error_messages() given the whole error array (TypeError)
    | EmptyBatchResult         // multiple_upload() returns an undefined array (TypeError)
    | MaxFilesizeUninitialized // $maxFilesize read before the constructor sets it (Error)

  /** The result of a PHP call that either returns or dies with an engine error. */
  datatype Outcome<T> = Returned(value: T) | Aborted(error: EngineError)

  // ---------------------------------------------------------------------------
  // error_messages

  const UnknownError := "Erro desconhecido."

  const CreateDirKey := "createDir_ERR"
  const FolderDirKey := "FOLDER_DIR_ERR"
  const InvalidTypeKey := "INVALID_TYPE"
  const MultipleUploadLimitKey := "MULTIPLE_UPLOAD_LIMIT"
  const SaveFailedKey := "SAVE_FAILED"

  /** PHP's UPLOAD_ERR_* constants. */
  const UploadErrOk := 0
  const UploadErrIniSize := 1
  const UploadErrFormSize := 2
  const UploadErrPartial := 3
  const UploadErrNoFile := 4
  const UploadErrNoTmpDir := 6
  const UploadErrCantWrite := 7
  const UploadErrExtension := 8

  /** The FORM_SIZE message; `limitText` is `convert_bytes($maxFilesize)`. */
  function FormSizeMessage(limitText: string): string
  {
    "O arquivo ultrapassa o limite definido (" + limitText + ")."
  }

  /** The keys of the message array: the UPLOAD_ERR_* codes 0-4 and 6-8 and
      the uploader's own keys. The parameter is string-typed and PHP turns the
      string "3" into the array key 3, so the codes are written here as
      decimal strings. */
  const MessageKeys: set<string> :=
    {"0", "1", "2", "3", "4", "6", "7", "8",
     CreateDirKey, FolderDirKey, InvalidTypeKey, MultipleUploadLimitKey, SaveFailedKey}

  const NoErrorMessage := "Não há erro, o arquivo foi carregado com sucesso."
  const IniSizeMessage := "O arquivo enviado excede o limite definido no servidor"
  const PartialMessage := "O upload do arquivo foi feito parcialmente."
  const NoFileMessage := "Nenhum arquivo enviado."
  const NoTmpDirMessage := "Pasta temporária ausente."
  const CantWriteMessage := "Falha em escrever o arquivo em disco."
  const ExtensionMessage := "Uma extensão do PHP interrompeu o upload do arquivo."
  const CreateDirMessage := "O diretório escolhido não existe e a tentativa de criá-lo falhou."
  const FolderDirMessage := "O diretório escolhido não existe, experimente habilitar a criação de diretórios."
  const InvalidTypeMessage := "Tipo de arquivo ou extensão inválida."
  const LimitMessage := "O número de arquivos excedeu o limite definido."
  const SaveFailedMessage := "Erro ao salvar o arquivo."

  /** `error_messages($key)`: `$errors[$error] ?? 'Erro desconhecido.'`, the
      array literal's entries tried one key at a time. */
  function ErrorMessage(key: string, limitText: string): string
  {
    if key == "0" then NoErrorMessage
    else if key == "1" then IniSizeMessage
    else if key == "2" then FormSizeMessage(limitText)
    else if key == "3" then PartialMessage
    else if key == "4" then NoFileMessage
    else if key == "6" then NoTmpDirMessage
    else if key == "7" then CantWriteMessage
    else if key == "8" then ExtensionMessage
    else if key == CreateDirKey then CreateDirMessage
    else if key == FolderDirKey then FolderDirMessage
    else if key == InvalidTypeKey then InvalidTypeMessage
    else if key == MultipleUploadLimitKey then LimitMessage
    else if key == SaveFailedKey then SaveFailedMessage
    else UnknownError
  }

  /** The lengths of the uploader's own keys: all different, and none of
      them a one-digit code. */
  lemma {:induction false} KeyLengths()
    ensures |CreateDirKey| == 13 && |FolderDirKey| == 14 && |InvalidTypeKey| == 12
    ensures |MultipleUploadLimitKey| == 21 && |SaveFailedKey| == 11
  {
  }

  /** The messages of the uploader's own keys. */
  lemma {:induction false} OwnKeyMessages(limitText: string)
    ensures ErrorMessage(CreateDirKey, limitText) == CreateDirMessage
    ensures ErrorMessage(FolderDirKey, limitText) == FolderDirMessage
    ensures ErrorMessage(InvalidTypeKey, limitText) == InvalidTypeMessage
    ensures ErrorMessage(MultipleUploadLimitKey, limitText) == LimitMessage
    ensures ErrorMessage(SaveFailedKey, limitText) == SaveFailedMessage
  {
    KeyLengths();
  }

  /** Every transport code of the array has a message of its own, longer
      than the generic one. */
  lemma {:induction false} KnownCodeMessage(key: string, limitText: string)
    requires key in {"0", "1", "2", "3", "4", "6", "7", "8"}
    ensures |ErrorMessage(key, limitText)| > |UnknownError|
  {
  }

  /** So has every key of the uploader's own. */
  lemma {:induction false} KnownOwnKeyMessage(key: string, limitText: string)
    requires key in {CreateDirKey, FolderDirKey, InvalidTypeKey, MultipleUploadLimitKey, SaveFailedKey}
    ensures |ErrorMessage(key, limitText)| > |UnknownError|
  {
    OwnKeyMessages(limitText);
  }

  /** Every key of the array has a message of its own. */
  lemma {:induction false} KnownKeyMessage(key: string, limitText: string)
    requires key in MessageKeys
    ensures ErrorMessage(key, limitText) != UnknownError
  {
    if key in {"0", "1", "2", "3", "4", "6", "7", "8"} {
      KnownCodeMessage(key, limitText);
    } else {
      KnownOwnKeyMessage(key, limitText);
    }
  }

  /** The generic message is returned exactly for the keys outside the array. */
  lemma {:induction false} ErrorMessageUnknownIff(key: string, limitText: string)
    ensures ErrorMessage(key, limitText) == UnknownError <==> key !in MessageKeys
  {
    if key in MessageKeys {
      KnownKeyMessage(key, limitText);
    }
  }

  /** A transport error code has its own message exactly when it is one of
      PHP's UPLOAD_ERR_* codes 0-4 and 6-8; 5 and every other code fall back
      to the generic message. */
  lemma {:induction false} TransportCodeKnown(code: int, limitText: string)
    ensures IntToString(code) in MessageKeys <==> code in {0, 1, 2, 3, 4, 6, 7, 8}
  {
    var s := IntToString(code);
    KeyLengths();
    if 0 <= code < 10 {
      assert s == [DigitChar(code)];
    } else {
      assert |s| >= 2 && (IsDigit(s[0]) || s[0] == '-') by {
        if code >= 10 { assert s[0] in NatToString(code); }
      }
      assert CreateDirKey[0] == 'c' && FolderDirKey[0] == 'F' && InvalidTypeKey[0] == 'I';
      assert MultipleUploadLimitKey[0] == 'M' && SaveFailedKey[0] == 'S';
      assert s !in MessageKeys;
    }
  }

  /** The entry an UPLOAD_ERR_* code finds. The operations that throw a
      catalogue message use this function and the per-key message constants
      directly; CodeMessageIsCatalogue and the *KeyMessage lemmas show that
      each is `error_messages` of the key the uploader passes. */
  function CodeMessage(code: int, limitText: string): string
  {
    if code == UploadErrOk then NoErrorMessage
    else if code == UploadErrIniSize then IniSizeMessage
    else if code == UploadErrFormSize then FormSizeMessage(limitText)
    else if code == UploadErrPartial then PartialMessage
    else if code == UploadErrNoFile then NoFileMessage
    else if code == UploadErrNoTmpDir then NoTmpDirMessage
    else if code == UploadErrCantWrite then CantWriteMessage
    else if code == UploadErrExtension then ExtensionMessage
    else UnknownError
  }

  /** `error_messages($code)` for an int code: PHP renders the int as a
      decimal string, and the array lookup turns it back into the int key. */
  lemma {:induction false} CodeMessageIsCatalogue(code: int, limitText: string)
    ensures ErrorMessage(IntToString(code), limitText) == CodeMessage(code, limitText)
  {
    KeyLengths();
    if 0 <= code < 10 {
      assert IntToString(code) == [DigitChar(code)];
    } else {
      TransportCodeKnown(code, limitText);
      ErrorMessageUnknownIff(IntToString(code), limitText);
    }
  }

  /** Only the FORM_SIZE message depends on the size limit. */
  lemma {:induction false} OnlyFormSizeMentionsLimit(key: string, t1: string, t2: string)
    requires key != IntToString(UploadErrFormSize)
    ensures ErrorMessage(key, t1) == ErrorMessage(key, t2)
  {
    assert IntToString(UploadErrFormSize) == "2";
  }

  /** The MULTIPLE_UPLOAD_LIMIT message differs from every other message an
      upload in a batch can fail with: FORM_SIZE, INVALID_TYPE, SAVE_FAILED. */
  lemma {:induction false} LimitMessageDistinct(limitText: string)
    ensures LimitMessage != FormSizeMessage(limitText)
    ensures LimitMessage != InvalidTypeMessage && LimitMessage != SaveFailedMessage
  {
    var m := LimitMessage;
    assert m[|m| - 2] == 'o';
    assert FormSizeMessage(limitText)[|FormSizeMessage(limitText)| - 2] == ')';
    assert InvalidTypeMessage[|InvalidTypeMessage| - 2] == 'a';
    assert SaveFailedMessage[|SaveFailedMessage| - 2] == 'o';
    assert |SaveFailedMessage| < |m|;
  }


  // ---------------------------------------------------------------------------
  // format_characters

  /** The Unicode facts the slug depends on: membership in \p{L&} (cased
      letters) and \p{Nd} (decimal digits), and mb_strtolower, taken as a
      per-character mapping. */
  datatype CharClasses = CharClasses(
    isCasedLetter: char -> bool,
    isDecimalDigit: char -> bool,
    lower: char -> char)

  /** ASCII letters are cased letters: true of Unicode, needed because the
      accent table produces them. */
  predicate AsciiLettersCased(cc: CharClasses)
  {
    forall c :: ('a' <= c <= 'z' || 'A' <= c <= 'Z') ==> cc.isCasedLetter(c)
  }

  /** Lower-casing fixes the two directory separators and never turns another
      character into one. */
  predicate LowerKeepsSeparatorsOut(cc: CharClasses)
  {
    && cc.lower('/') == '/' && cc.lower('\\') == '\\'
    && forall c :: c != '/' && c != '\\' ==> cc.lower(c) != '/' && cc.lower(c) != '\\'
  }

  /** A character the slug regex `[^\p{L&}\p{Nd}\\\/\-\_]` does not match. */
  predicate KeptBySlug(cc: CharClasses, c: char)
  {
    cc.isCasedLetter(c) || cc.isDecimalDigit(c) || c == '\\' || c == '/' || c == '-' || c == '_'
  }

  /** `mb_strtolower`, character by character. */
  function MbStrToLower(cc: CharClasses, s: string): string
  {
    seq(|s|, i requires 0 <= i < |s| => cc.lower(s[i]))
  }

  /** Text whose every character lower-casing fixes is its own lower case. */
  lemma {:induction false} LowerOfFixed(cc: CharClasses, s: string)
    requires forall i :: 0 <= i < |s| ==> cc.lower(s[i]) == s[i]
    ensures MbStrToLower(cc, s) == s
  {
  }

  /** The case function handed to format_characters: its default
      `mb_strtolower`, or set_name's closure that first replaces `\` and then `/`
      by the separator and then lower-cases. */
  datatype Casing = LowerCase | RemoveDirectorySeparator

  function ApplyCasing(cc: CharClasses, casing: Casing, sep: string, s: string): string
  {
    match casing
    case LowerCase => MbStrToLower(cc, s)
    case RemoveDirectorySeparator => MbStrToLower(cc, ReplaceAll(ReplaceAll(s, "\\", sep), "/", sep))
  }

  /** Drop the run of characters the slug regex matches at the front of `s`. */
  function SkipMatched(cc: CharClasses, s: string): (r: string)
    ensures |r| <= |s| && r == s[|s| - |r|..]
    ensures r == [] || KeptBySlug(cc, r[0])
    decreases |s|
  {
    if |s| > 0 && !KeptBySlug(cc, s[0]) then SkipMatched(cc, s[1..]) else s
  }

  /** `preg_replace('/([^\p{L&}\p{Nd}\\\/\-\_]+)/u', $sep, $s)`: every maximal
      run of characters outside the kept classes becomes one separator.
      `sep` is inserted as literal text: PHP's expansion of `$n` and `\\`
      in a replacement string is not modelled. */
  function CollapseRuns(cc: CharClasses, s: string, sep: string): string
    decreases |s|
  {
    if s == [] then []
    else if KeptBySlug(cc, s[0]) then [s[0]] + CollapseRuns(cc, s[1..], sep)
    else sep + CollapseRuns(cc, SkipMatched(cc, s[1..]), sep)
  }

  /** What the skip leaves comes from its input. */
  lemma {:induction false} SkippedChars(cc: CharClasses, s: string)
    ensures forall c :: c in SkipMatched(cc, s) ==> c in s
  {
    var t := SkipMatched(cc, s);
    forall c | c in t ensures c in s {
      var k :| 0 <= k < |t| && t[k] == c;
      assert s[|s| - |t| + k] == c;
    }
  }

  /** After the collapse every character is kept by the slug or comes from
      the separator, and every kept one comes from the input. */
  lemma {:induction false} CollapseRunsChars(cc: CharClasses, s: string, sep: string)
    ensures forall c :: c in CollapseRuns(cc, s, sep) ==> KeptBySlug(cc, c) || c in sep
    ensures forall c :: c in CollapseRuns(cc, s, sep) ==> c in s || c in sep
    decreases |s|
  {
    if s != [] {
      if KeptBySlug(cc, s[0]) {
        CollapseRunsChars(cc, s[1..], sep);
      } else {
        SkippedChars(cc, s[1..]);
        CollapseRunsChars(cc, SkipMatched(cc, s[1..]), sep);
      }
    }
  }

  /** Text the slug keeps whole is left as it is. */
  lemma {:induction false} CollapseRunsOfKept(cc: CharClasses, s: string, sep: string)
    requires forall i :: 0 <= i < |s| ==> KeptBySlug(cc, s[i])
    ensures CollapseRuns(cc, s, sep) == s
    decreases |s|
  {
    if s != [] {
      assert KeptBySlug(cc, s[0]);
      CollapseRunsOfKept(cc, s[1..], sep);
      assert [s[0]] + s[1..] == s;
    }
  }

  /** The accent and separator table of format_characters, as (search,
      replace) pairs in the order str_replace applies them: lower-case accented
      letters, upper-case accented letters, then the doubled separators. */
  const AccentTable: seq<(string, string)> := LowerAccents + UpperAccents + SeparatorRules

  const LowerAccents: seq<(string, string)> := [
    ("à", "a"), ("á", "a"), ("â", "a"), ("ã", "a"), ("ä", "a"), ("å", "a"), ("ç", "c"),
    ("è", "e"), ("é", "e"), ("ê", "e"), ("ë", "e"), ("ì", "i"), ("í", "i"), ("î", "i"),
    ("ï", "i"), ("ñ", "n"), ("ò", "o"), ("ó", "o"), ("ô", "o"), ("õ", "o"), ("ö", "o"),
    ("ù", "u"), ("ü", "u"), ("ú", "u"), ("ÿ", "y")
  ]

  const UpperAccents: seq<(string, string)> := [
    ("À", "A"), ("Á", "A"), ("Â", "A"), ("Ã", "A"), ("Ä", "A"), ("Å", "A"), ("Ç", "C"),
    ("È", "E"), ("É", "E"), ("Ê", "E"), ("Ë", "E"), ("Ì", "I"), ("Í", "I"), ("Î", "I"),
    ("Ï", "I"), ("Ñ", "N"), ("Ò", "O"), ("Ó", "O"), ("Ô", "O"), ("Õ", "O"), ("Ö", "O"),
    ("Ù", "U"), ("Ü", "U"), ("Ú", "U")
  ]

  const SeparatorRules: seq<(string, string)> := [("__", "_"), ("--", "-"), ("_-", "-"), ("-_", "-")]

  /** The characters trim() strips from the slug: " _-\t\n\r\0\x0B". */
  const SlugTrimMask: set<char> := {' ', '_', '-', '\t', '\n', '\r', '\0', '\U{0B}'}

  /** An ASCII letter or one of the two separators. */
  predicate SlugChar(c: char)
  {
    'a' <= c <= 'z' || 'A' <= c <= 'Z' || c == '_' || c == '-'
  }

  /** A table pair whose needle is non-empty and whose replacement is a single
      slug character. */
  predicate SlugPair(p: (string, string))
  {
    p.0 != [] && |p.1| == 1 && SlugChar(p.1[0])
  }

  lemma {:induction false} LowerAccentsSlug()
    ensures forall i :: 0 <= i < |LowerAccents| ==> SlugPair(LowerAccents[i])
  {
  }

  lemma {:induction false} SeparatorRulesSlug()
    ensures forall i :: 0 <= i < |SeparatorRules| ==> SlugPair(SeparatorRules[i])
  {
  }

  lemma {:induction false} UpperAccentsSlug()
    ensures forall i :: 0 <= i < |UpperAccents| ==> SlugPair(UpperAccents[i])
  {
  }

  /** What the accent table can put into a string: ASCII letters, `_` and `-`. */
  lemma {:induction false} AccentReplacements(s: string)
    ensures forall c :: c in ReplacePairs(s, AccentTable) ==> c in s || SlugChar(c)
  {
    LowerAccentsSlug();
    UpperAccentsSlug();
    SeparatorRulesSlug();
    var t := AccentTable;
    assert forall i :: 0 <= i < |t| ==> forall c :: c in t[i].1 ==> SlugChar(c) by {
      forall i | 0 <= i < |t| ensures forall c :: c in t[i].1 ==> SlugChar(c) {
        if i < |LowerAccents| {
          assert t[i] == LowerAccents[i];
        } else if i < |LowerAccents| + |UpperAccents| {
          assert t[i] == UpperAccents[i - |LowerAccents|];
        } else {
          assert t[i] == SeparatorRules[i - |LowerAccents| - |UpperAccents|];
        }
        assert SlugPair(t[i]);
      }
    }
    ReplacePairsChars(s, t, SlugChar);
  }

  /** `format_characters($text, $sep, $casing)`. */
  function FormatCharacters(cc: CharClasses, text: string, sep: string, casing: Casing): string
  {
    var collapsed := CollapseRuns(cc, ApplyCasing(cc, casing, sep, text), sep);
    Trim(ReplacePairs(collapsed, AccentTable), SlugTrimMask)
  }

  /** A slug neither starts nor ends with a space, a separator or a control
      character of the trim mask. */
  lemma {:induction false} SlugIsTrimmed(cc: CharClasses, text: string, sep: string, casing: Casing)
    ensures var r := FormatCharacters(cc, text, sep, casing);
      r == [] || (r[0] !in SlugTrimMask && r[|r| - 1] !in SlugTrimMask)
  {
    TrimEnds(ReplacePairs(CollapseRuns(cc, ApplyCasing(cc, casing, sep, text), sep), AccentTable), SlugTrimMask);
  }

  /** Every character of a trimmed string comes from the untrimmed one. */
  lemma {:induction false} TrimKeepsChars(s: string, mask: set<char>)
    ensures forall c :: c in Trim(s, mask) ==> c in s
  {
    TrimSpec(s, mask);
    var r := Trim(s, mask);
    var i := |s| - |TrimLeft(s, mask)|;
    forall c | c in r ensures c in s {
      var k :| 0 <= k < |r| && r[k] == c;
      assert s[i + k] == c;
    }
  }

  /** With separator `_` or `-`, a slug is made only of cased letters, decimal
      digits, `\`, `/`, `-` and `_`. */
  lemma {:induction false} SlugCharsKept(cc: CharClasses, text: string, sep: string, casing: Casing)
    requires sep == "_" || sep == "-"
    requires AsciiLettersCased(cc)
    ensures forall c :: c in FormatCharacters(cc, text, sep, casing) ==> KeptBySlug(cc, c)
  {
    var collapsed := CollapseRuns(cc, ApplyCasing(cc, casing, sep, text), sep);
    CollapseRunsChars(cc, ApplyCasing(cc, casing, sep, text), sep);
    AccentReplacements(collapsed);
    var replaced := ReplacePairs(collapsed, AccentTable);
    TrimKeepsChars(replaced, SlugTrimMask);
  }

  /** With set_name's closure as case function and a separator without `/` or
      `\`, the slug contains neither. */
  lemma {:induction false} SlugHasNoDirectorySeparator(cc: CharClasses, text: string, sep: string)
    requires '/' !in sep && '\\' !in sep
    requires LowerKeepsSeparatorsOut(cc)
    ensures '/' !in FormatCharacters(cc, text, sep, RemoveDirectorySeparator)
    ensures '\\' !in FormatCharacters(cc, text, sep, RemoveDirectorySeparator)
  {
    var s1 := ReplaceAll(text, "\\", sep);
    var s2 := ReplaceAll(s1, "/", sep);
    assert '\\' !in s1 && '/' !in s2 && '\\' !in s2;
    var lowered := MbStrToLower(cc, s2);
    assert lowered == ApplyCasing(cc, RemoveDirectorySeparator, sep, text);
    assert '/' !in lowered && '\\' !in lowered by {
      forall i | 0 <= i < |lowered| ensures lowered[i] != '/' && lowered[i] != '\\' {
        assert s2[i] in s2;
      }
    }
    var collapsed := CollapseRuns(cc, lowered, sep);
    CollapseRunsChars(cc, lowered, sep);
    AccentReplacements(collapsed);
    var replaced := ReplacePairs(collapsed, AccentTable);
    assert '/' !in replaced && '\\' !in replaced;
    TrimKeepsChars(replaced, SlugTrimMask);
  }

  /** With the default case function, text and separator without `/` give a
      slug without `/`. */
  lemma {:induction false} SlugOfSlashFreeText(cc: CharClasses, text: string, sep: string)
    requires '/' !in text && '/' !in sep
    requires LowerKeepsSeparatorsOut(cc)
    ensures '/' !in FormatCharacters(cc, text, sep, LowerCase)
  {
    var lowered := MbStrToLower(cc, text);
    assert '/' !in lowered by {
      forall i | 0 <= i < |lowered| ensures lowered[i] != '/' {
        assert text[i] in text;
      }
    }
    var collapsed := CollapseRuns(cc, lowered, sep);
    CollapseRunsChars(cc, lowered, sep);
    AccentReplacements(collapsed);
    var replaced := ReplacePairs(collapsed, AccentTable);
    TrimKeepsChars(replaced, SlugTrimMask);
  }

  /** '.' is punctuation: neither a cased letter nor a decimal digit. */
  predicate DotIsPunctuation(cc: CharClasses)
  {
    !cc.isCasedLetter('.') && !cc.isDecimalDigit('.')
  }

  /** A needle with a character that never occurs leaves the string unchanged. */
  lemma {:induction false} ReplaceAllAbsent(s: string, needle: string, rep: string, j: nat)
    requires j < |needle| && needle[j] !in s
    ensures ReplaceAll(s, needle, rep) == s
    decreases |s|
  {
    if |s| >= |needle| {
      assert s[..|needle|] != needle by { assert s[..|needle|][j] == s[j]; assert s[j] in s; }
      assert needle[j] !in s[1..] by {
        forall k | 0 <= k < |s[1..]| ensures s[1..][k] != needle[j] { assert s[1..][k] == s[k + 1]; }
      }
      ReplaceAllAbsent(s[1..], needle, rep, j);
      assert [s[0]] + s[1..] == s;
    }
  }

  /** Pairs whose needles start with a character absent from `s` are no-ops. */
  lemma {:induction false} ReplacePairsAbsent(s: string, pairs: seq<(string, string)>)
    requires forall i :: 0 <= i < |pairs| ==> pairs[i].0 != [] && pairs[i].0[0] !in s
    ensures ReplacePairs(s, pairs) == s
    decreases |pairs|
  {
    if pairs != [] {
      ReplaceAllAbsent(s, pairs[0].0, pairs[0].1, 0);
      assert forall i :: 0 <= i < |pairs[1..]| ==> pairs[1..][i] == pairs[i + 1];
      ReplacePairsAbsent(s, pairs[1..]);
    }
  }

  /** Pairs whose needles all contain a character absent from `s` are no-ops. */
  lemma {:induction false} ReplacePairsMissingChar(s: string, pairs: seq<(string, string)>, c: char)
    requires c !in s
    requires forall i :: 0 <= i < |pairs| ==> c in pairs[i].0
    ensures ReplacePairs(s, pairs) == s
    decreases |pairs|
  {
    if pairs != [] {
      var j :| 0 <= j < |pairs[0].0| && pairs[0].0[j] == c;
      ReplaceAllAbsent(s, pairs[0].0, pairs[0].1, j);
      assert forall i :: 0 <= i < |pairs[1..]| ==> pairs[1..][i] == pairs[i + 1];
      ReplacePairsMissingChar(s, pairs[1..], c);
    }
  }

  /** Applying two tables in turn is applying their concatenation. */
  lemma {:induction false} ReplacePairsAppend(s: string, p: seq<(string, string)>, q: seq<(string, string)>)
    ensures ReplacePairs(s, p + q) == ReplacePairs(ReplacePairs(s, p), q)
    decreases |p|
  {
    if p != [] {
      assert (p + q)[0] == p[0];
      var step := if p[0].0 == [] then s else ReplaceAll(s, p[0].0, p[0].1);
      ReplacePairsAppend(step, p[1..], q);
      assert (p + q)[1..] == p[1..] + q;
    } else {
      assert p + q == q;
    }
  }

  /** Every accent needle is a single character outside ASCII. */
  predicate AccentPair(p: (string, string))
  {
    |p.0| == 1 && p.0[0] as int >= 128
  }

  lemma {:induction false} LowerAccentsNonAscii()
    ensures forall i :: 0 <= i < |LowerAccents| ==> AccentPair(LowerAccents[i])
  {
  }

  lemma {:induction false} UpperAccentsNonAscii()
    ensures forall i :: 0 <= i < |UpperAccents| ==> AccentPair(UpperAccents[i])
  {
  }

  /** A table of accent pairs leaves ASCII text unchanged. */
  lemma {:induction false} AccentsOnAscii(s: string, pairs: seq<(string, string)>)
    requires forall i :: 0 <= i < |s| ==> s[i] as int < 128
    requires forall i :: 0 <= i < |pairs| ==> AccentPair(pairs[i])
    ensures ReplacePairs(s, pairs) == s
  {
    forall i | 0 <= i < |pairs| ensures pairs[i].0 != [] && pairs[i].0[0] !in s {
      assert AccentPair(pairs[i]);
    }
    ReplacePairsAbsent(s, pairs);
  }

  /** Two leading tables of accent pairs leave ASCII text unchanged, so only
      the rules after them act. */
  lemma {:induction false} AccentsOnAsciiPrefix(s: string, p: seq<(string, string)>, q: seq<(string, string)>, rest: seq<(string, string)>)
    requires forall i :: 0 <= i < |s| ==> s[i] as int < 128
    requires forall i :: 0 <= i < |p| ==> AccentPair(p[i])
    requires forall i :: 0 <= i < |q| ==> AccentPair(q[i])
    ensures ReplacePairs(s, p + q + rest) == ReplacePairs(s, rest)
  {
    AccentsOnAscii(s, p);
    AccentsOnAscii(s, q);
    ReplacePairsAppend(s, p, q);
    ReplacePairsAppend(s, p + q, rest);
  }

  /** On ASCII text the accent rules change nothing: only the separator rules
      of the table act. */
  lemma {:induction false} AccentTableOnAscii(s: string)
    requires forall i :: 0 <= i < |s| ==> s[i] as int < 128
    ensures ReplacePairs(s, AccentTable) == ReplacePairs(s, SeparatorRules)
  {
    LowerAccentsNonAscii();
    UpperAccentsNonAscii();
    AccentsOnAsciiPrefix(s, LowerAccents, UpperAccents, SeparatorRules);
  }

  /** On `a___b` and `a__b` the separator rules only apply `__`, once and
      without overlap. */
  lemma {:induction false} AccentPassOnUnderscores(s: string)
    requires s == "a___b" || s == "a__b"
    ensures ReplacePairs(s, SeparatorRules) == if s == "a___b" then "a__b" else "a_b"
  {
    assert ReplaceAll("b", "__", "_") == "b";
    assert ReplaceAll("_b", "__", "_") == "_b" by {
      assert "_b"[..2][1] == 'b';
      assert "_b"[1..] == "b";
    }
    assert ReplaceAll("__b", "__", "_") == "_b" by {
      assert "__b"[..2] == "__";
      assert "__b"[2..] == "b";
    }
    assert ReplaceAll("___b", "__", "_") == "__b" by {
      assert "___b"[..2] == "__";
      assert "___b"[2..] == "_b";
    }
    var t := ReplaceAll(s, "__", "_");
    assert t == if s == "a___b" then "a__b" else "a_b" by {
      assert s[..2] != "__" by { assert s[..2][0] == s[0] == 'a'; }
      assert s[1..] == "___b" || s[1..] == "__b";
    }
    var rest := SeparatorRules[1..];
    assert rest == [("--", "-"), ("_-", "-"), ("-_", "-")];
    assert ReplacePairs(s, SeparatorRules) == ReplacePairs(t, rest);
    assert '-' !in t;
    assert forall i :: 0 <= i < |rest| ==> '-' in rest[i].0;
    ReplacePairsMissingChar(t, rest, '-');
  }

  /** Text made of ASCII characters that the slug keeps and lower-casing
      fixes only meets the separator rules, and then the trim. */
  lemma {:induction false} FormatCharactersOfAsciiSlug(cc: CharClasses, s: string, sep: string)
    requires forall i :: 0 <= i < |s| ==> s[i] as int < 128 && KeptBySlug(cc, s[i]) && cc.lower(s[i]) == s[i]
    ensures FormatCharacters(cc, s, sep, LowerCase) == Trim(ReplacePairs(s, SeparatorRules), SlugTrimMask)
  {
    FormatCharactersOfFixedText(cc, s, sep);
    AccentTableOnAscii(s);
  }

  /** Text that lower-casing fixes and the slug keeps goes to the accent table
      unchanged. */
  lemma {:induction false} FormatCharactersOfFixedText(cc: CharClasses, s: string, sep: string)
    requires forall i :: 0 <= i < |s| ==> KeptBySlug(cc, s[i]) && cc.lower(s[i]) == s[i]
    ensures FormatCharacters(cc, s, sep, LowerCase) == Trim(ReplacePairs(s, AccentTable), SlugTrimMask)
  {
    LowerOfFixed(cc, s);
    CollapseRunsOfKept(cc, s, sep);
  }

  /** Text without `\\` or `/` has the same slug under both case functions. */
  lemma {:induction false} CasingsAgreeWithoutSeparators(cc: CharClasses, s: string, sep: string)
    requires '/' !in s && '\\' !in s
    ensures FormatCharacters(cc, s, sep, RemoveDirectorySeparator) == FormatCharacters(cc, s, sep, LowerCase)
  {
    ReplaceAllAbsent(s, "\\", sep, 0);
    ReplaceAllAbsent(s, "/", sep, 0);
    assert ApplyCasing(cc, RemoveDirectorySeparator, sep, s) == ApplyCasing(cc, LowerCase, sep, s);
  }

  /** A lone decimal digit that lower-casing fixes is its own slug. */
  lemma {:induction false} SingleDigitSlug(cc: CharClasses, sep: string, d: char)
    requires IsDigit(d) && cc.isDecimalDigit(d) && cc.lower(d) == d
    ensures FormatCharacters(cc, [d], sep, RemoveDirectorySeparator) == [d]
  {
    var s := [d];
    assert d as int < 128 && KeptBySlug(cc, d) && d !in SlugTrimMask;
    assert forall i :: 0 <= i < |s| ==> s[i] == d;
    CasingsAgreeWithoutSeparators(cc, s, sep);
    FormatCharactersOfAsciiSlug(cc, s, sep);
    SeparatorRulesOnPlainText(s);
    TrimOfUntrimmed(s, SlugTrimMask);
  }

  /** Text without `_` or `-` is left alone by the separator rules. */
  lemma {:induction false} SeparatorRulesOnPlainText(s: string)
    requires '_' !in s && '-' !in s
    ensures ReplacePairs(s, SeparatorRules) == s
  {
    ReplacePairsAbsent(s, SeparatorRules);
  }

  /** trim() never strips a letter. */
  lemma {:induction false} LettersOutsideTrimMask()
    ensures forall c :: 'a' <= c <= 'z' || 'A' <= c <= 'Z' ==> c !in SlugTrimMask
  {
  }

  /** A string whose two ends lie outside the mask is its own trim. */
  lemma {:induction false} TrimOfUntrimmed(s: string, mask: set<char>)
    requires s != [] && s[0] !in mask && s[|s| - 1] !in mask
    ensures Trim(s, mask) == s
  {
  }

  /** The slug of `a___b` or `a__b` under a case function that fixes `a`,
      `b` and `_`. */
  lemma {:induction false} FormatCharactersOfUnderscores(cc: CharClasses, s: string)
    requires s == "a___b" || s == "a__b"
    requires cc.isCasedLetter('a') && cc.isCasedLetter('b')
    requires cc.lower('a') == 'a' && cc.lower('b') == 'b' && cc.lower('_') == '_'
    ensures FormatCharacters(cc, s, "_", LowerCase) == if s == "a___b" then "a__b" else "a_b"
  {
    assert forall i :: 0 <= i < |s| ==> s[i] == 'a' || s[i] == '_' || s[i] == 'b';
    FormatCharactersOfAsciiSlug(cc, s, "_");
    AccentPassOnUnderscores(s);
    var r := if s == "a___b" then "a__b" else "a_b";
    assert r[0] == 'a' && r[|r| - 1] == 'b';
    LettersOutsideTrimMask();
    TrimOfUntrimmed(r, SlugTrimMask);
  }

  /** The `__` rule is one non-overlapping pass, so the slug is not idempotent:
      `a___b` becomes `a__b`, and slugging that again gives `a_b`. */
  lemma {:induction false} FormatCharactersNotIdempotent(cc: CharClasses)
    requires cc.isCasedLetter('a') && cc.isCasedLetter('b')
    requires cc.lower('a') == 'a' && cc.lower('b') == 'b' && cc.lower('_') == '_'
    ensures FormatCharacters(cc, "a___b", "_", LowerCase) == "a__b"
    ensures FormatCharacters(cc, "a__b", "_", LowerCase) == "a_b"
    ensures FormatCharacters(cc, FormatCharacters(cc, "a___b", "_", LowerCase), "_", LowerCase)
      != FormatCharacters(cc, "a___b", "_", LowerCase)
  {
    FormatCharactersOfUnderscores(cc, "a___b");
    FormatCharactersOfUnderscores(cc, "a__b");
  }

  // ---------------------------------------------------------------------------
  // generate_random_id

  /** The random byte generator: the `i`-th byte handed out by random_bytes(). */
  function RandomBytes(rnd: nat -> byte, k: nat): seq<byte>
  {
    seq(k, (i: int) requires 0 <= i < k => rnd(i))
  }

  /** `generate_random_id($length)`: hex-encode `ceil($length / 2)` random bytes
      and keep the first `$length` digits. PHP 8's random_bytes rejects a
      length below 1 with a ValueError. */
  function GenerateRandomId(length: int, rnd: nat -> byte): Outcome<string>
  {
    if length < 1 then Aborted(RandomBytesLength)
    else Returned(Bin2Hex(RandomBytes(rnd, (length + 1) / 2))[..length])
  }

  /** The identifier has exactly the requested length and only lowercase hex
      digits; a length below 1 is the ValueError. */
  lemma {:induction false} RandomIdShape(length: int, rnd: nat -> byte)
    ensures var r := GenerateRandomId(length, rnd);
      && (r.Aborted? <==> length < 1)
      && (r.Aborted? ==> r.error == RandomBytesLength)
      && (r.Returned? ==> |r.value| == length && forall c :: c in r.value ==> IsLowerHex(c))
  {
    if length >= 1 {
      var hex := Bin2Hex(RandomBytes(rnd, (length + 1) / 2));
      assert forall c :: c in hex[..length] ==> c in hex;
    }
  }

  /** For an even length the identifier is the whole hex encoding of the
      random bytes it consumed, so it determines them. */
  lemma {:induction false} RandomIdEncodesBytes(length: int, rnd: nat -> byte)
    requires length >= 1 && length % 2 == 0
    ensures GenerateRandomId(length, rnd).Returned?
    ensures Hex2Bin(GenerateRandomId(length, rnd).value) == RandomBytes(rnd, length / 2)
  {
    var bytes := RandomBytes(rnd, length / 2);
    assert (length + 1) / 2 == length / 2;
    assert Bin2Hex(bytes)[..length] == Bin2Hex(bytes);
    Hex2BinOfBin2Hex(bytes);
  }
}
