/** Models of the PHP builtins the uploader is written against: `str_replace`,
    `trim`, `pathinfo`/`basename`, `bin2hex`, the decimal rendering of an int
    and the integer form of `is_numeric`/`intval` on strings.
    Strings are sequences of code points; every builtin modelled here only
    matches ASCII needles or whole UTF-8 sequences, so working on code points
    agrees with PHP's byte-wise behaviour on valid UTF-8 input. */
module PhpStrings {

  newtype byte = x: int | 0 <= x < 256

  datatype Option<T> = None | Some(value: T)

  // ---------------------------------------------------------------------------
  // str_replace

  /** `str_replace($needle, $rep, $s)` for one non-empty needle: every
      occurrence is replaced, scanning left to right without overlap. */
  function ReplaceAll(s: string, needle: string, rep: string): (r: string)
    requires needle != []
    ensures forall c :: c in r ==> c in s || c in rep
    ensures |needle| == 1 && needle[0] !in rep ==> needle[0] !in r
    decreases |s|
  {
    if |s| < |needle| then s
    else if s[..|needle|] == needle then rep + ReplaceAll(s[|needle|..], needle, rep)
    else [s[0]] + ReplaceAll(s[1..], needle, rep)
  }

  /** `str_replace($search, $replace, $s)` with two arrays: each pair is applied
      in turn to the whole result of the previous one; an empty search string
      is skipped, as PHP does. */
  function ReplacePairs(s: string, pairs: seq<(string, string)>): string
    decreases |pairs|
  {
    if pairs == [] then s
    else
      var step := if pairs[0].0 == [] then s else ReplaceAll(s, pairs[0].0, pairs[0].1);
      ReplacePairs(step, pairs[1..])
  }

  /** A character the result holds comes from the subject or from a
      replacement string; so if every replacement character satisfies `ok`,
      so does every character the subject did not already hold. */
  lemma {:induction false} ReplacePairsChars(s: string, pairs: seq<(string, string)>, ok: char -> bool)
    requires forall i :: 0 <= i < |pairs| ==> forall c :: c in pairs[i].1 ==> ok(c)
    ensures forall c :: c in ReplacePairs(s, pairs) ==> c in s || ok(c)
    decreases |pairs|
  {
    if pairs != [] {
      var step := if pairs[0].0 == [] then s else ReplaceAll(s, pairs[0].0, pairs[0].1);
      assert forall c :: c in step ==> c in s || ok(c);
      assert forall i :: 0 <= i < |pairs[1..]| ==> pairs[1..][i] == pairs[i + 1];
      ReplacePairsChars(step, pairs[1..], ok);
    }
  }

  // ---------------------------------------------------------------------------
  // trim

  /** The index of the first character at or after `from` outside `mask`
      (or `|s|`): how far `ltrim` strips. */
  function LeftCut(s: string, mask: set<char>, from: nat): (n: nat)
    requires from <= |s|
    ensures from <= n <= |s|
    ensures forall k :: from <= k < n ==> s[k] in mask
    ensures n == |s| || s[n] !in mask
    decreases |s| - from
  {
    if from < |s| && s[from] in mask then LeftCut(s, mask, from + 1) else from
  }

  /** The end of the longest prefix of `s[..to]` whose last character is
      outside `mask` (or 0): how far `rtrim` strips. */
  function RightCut(s: string, mask: set<char>, to: nat): (n: nat)
    requires to <= |s|
    ensures n <= to
    ensures forall k :: n <= k < to ==> s[k] in mask
    ensures n == 0 || s[n - 1] !in mask
  {
    if to > 0 && s[to - 1] in mask then RightCut(s, mask, to - 1) else to
  }

  /** `ltrim($s, $mask)`. */
  function TrimLeft(s: string, mask: set<char>): string
  {
    s[LeftCut(s, mask, 0)..]
  }

  /** `rtrim($s, $mask)`. */
  function TrimRight(s: string, mask: set<char>): string
  {
    s[..RightCut(s, mask, |s|)]
  }

  /** `trim($s, $mask)`: strip characters of `mask` from both ends. */
  function Trim(s: string, mask: set<char>): string
  {
    TrimRight(TrimLeft(s, mask), mask)
  }

  /** What trim keeps is a contiguous piece of its input, and everything it
      drops lies in the mask. */
  lemma {:induction false} TrimSpec(s: string, mask: set<char>)
    ensures var r := Trim(s, mask); var i := |s| - |TrimLeft(s, mask)|;
      && i + |r| <= |s| && r == s[i..i + |r|]
      && (forall k :: 0 <= k < i ==> s[k] in mask)
      && (forall k :: i + |r| <= k < |s| ==> s[k] in mask)
  {
    var l := TrimLeft(s, mask);
    var r := TrimRight(l, mask);
    TrimCompose(s, l, r, mask, |s| - |l|);
  }

  /** The two ends of what trim keeps lie outside the mask. */
  lemma {:induction false} TrimEnds(s: string, mask: set<char>)
    ensures var r := Trim(s, mask); r == [] || (r[0] !in mask && r[|r| - 1] !in mask)
  {
    var l := TrimLeft(s, mask);
    var r := TrimRight(l, mask);
    if r != [] {
      assert r[0] == l[0];
    }
  }

  /** Composing a left strip at `i` with a right strip of what is left. */
  lemma {:induction false} TrimCompose(s: string, l: string, r: string, mask: set<char>, i: nat)
    requires i <= |s| && l == s[i..] && forall k :: 0 <= k < i ==> s[k] in mask
    requires |r| <= |l| && r == l[..|r|] && forall k :: |r| <= k < |l| ==> l[k] in mask
    ensures i + |r| <= |s| && r == s[i..i + |r|]
    ensures forall k :: 0 <= k < i ==> s[k] in mask
    ensures forall k :: i + |r| <= k < |s| ==> s[k] in mask
  {
    forall k | i + |r| <= k < |s| ensures s[k] in mask {
      assert s[k] == l[k - i];
    }
  }

  // ---------------------------------------------------------------------------
  // Decimal rendering of integers ("{$n}", string coercion of an int)

  predicate IsDigit(c: char)
  {
    '0' <= c <= '9'
  }

  function DigitChar(d: nat): (c: char)
    requires d < 10
    ensures IsDigit(c) && c as int - '0' as int == d
  {
    ('0' as int + d) as char
  }

  function DigitValue(c: char): (d: nat)
    requires IsDigit(c)
    ensures d < 10
  {
    c as int - '0' as int
  }

  /** The decimal representation of a natural number, without leading zeros. */
  function NatToString(n: nat): (r: string)
    ensures |r| >= 1 && forall c :: c in r ==> IsDigit(c)
    ensures n >= 10 ==> |r| >= 2
    ensures n < 10 ==> r == [DigitChar(n)]
    ensures r[0] == '0' ==> n == 0
    decreases n
  {
    if n < 10 then [DigitChar(n)] else NatToString(n / 10) + [DigitChar(n % 10)]
  }

  /** The value of a string of decimal digits, read left to right. */
  function ParseDigits(s: string): nat
    requires forall c :: c in s ==> IsDigit(c)
    decreases |s|
  {
    if s == [] then 0
    else
      assert s[|s| - 1] in s;
      ParseDigits(s[..|s| - 1]) * 10 + DigitValue(s[|s| - 1])
  }

  /** Reading back the rendering of `n` gives `n`; hence the rendering is
      injective. */
  lemma {:induction false} ParseNatToString(n: nat)
    ensures ParseDigits(NatToString(n)) == n
    decreases n
  {
    if n >= 10 {
      var p := NatToString(n / 10);
      var s := p + [DigitChar(n % 10)];
      assert s[..|s| - 1] == p;
      ParseNatToString(n / 10);
    }
  }

  lemma {:induction false} NatToStringInjective(m: nat, n: nat)
    requires NatToString(m) == NatToString(n)
    ensures m == n
  {
    ParseNatToString(m);
    ParseNatToString(n);
  }

  /** How PHP renders an int in a string context. */
  function IntToString(i: int): (r: string)
  {
    if i < 0 then "-" + NatToString(-i) else NatToString(i)
  }

  // ---------------------------------------------------------------------------
  // Integer-form numeric strings (is_numeric / intval)

  /** The digits of an integer string, after its optional sign. */
  function UnsignedPart(s: string): string
  {
    if |s| > 0 && (s[0] == '+' || s[0] == '-') then s[1..] else s
  }

  /** `s` is an optionally signed, non-empty run of decimal digits. */
  predicate IsIntegerString(s: string)
  {
    var u := UnsignedPart(s);
    |u| >= 1 && forall c :: c in u ==> IsDigit(c)
  }

  /** `intval($s)` for an integer string. */
  function IntValue(s: string): int
    requires IsIntegerString(s)
  {
    var v := ParseDigits(UnsignedPart(s));
    if s[0] == '-' then -(v as int) else v
  }

  /** The rendering of an int is an integer string that reads back as that int. */
  lemma {:induction false} IntToStringRoundTrip(i: int)
    ensures IsIntegerString(IntToString(i))
    ensures IntValue(IntToString(i)) == i
  {
    var n: nat := if i < 0 then -i else i;
    var d := NatToString(n);
    ParseNatToString(n);
    if i < 0 {
      assert UnsignedPart(IntToString(i)) == d;
    } else {
      assert d[0] != '-' && d[0] != '+' by { assert d[0] in d; }
      assert UnsignedPart(IntToString(i)) == d;
    }
  }

  // ---------------------------------------------------------------------------
  // bin2hex

  predicate IsLowerHex(c: char)
  {
    ('0' <= c <= '9') || ('a' <= c <= 'f')
  }

  function HexDigit(d: nat): (c: char)
    requires d < 16
    ensures IsLowerHex(c)
  {
    "0123456789abcdef"[d]
  }

  function HexValue(c: char): (d: nat)
    requires IsLowerHex(c)
    ensures d < 16
  {
    if c <= '9' then c as int - '0' as int else c as int - 'a' as int + 10
  }

  lemma {:induction false} HexValueOfDigit(d: nat)
    requires d < 16
    ensures HexValue(HexDigit(d)) == d
  {
  }

  /** `bin2hex`: two lowercase hex digits per byte, high nibble first. */
  function Bin2Hex(bs: seq<byte>): (r: string)
    ensures |r| == 2 * |bs|
    ensures forall c :: c in r ==> IsLowerHex(c)
    decreases |bs|
  {
    if bs == [] then []
    else [HexDigit(bs[0] as int / 16), HexDigit(bs[0] as int % 16)] + Bin2Hex(bs[1..])
  }

  /** `hex2bin` on a string of lowercase hex digits of even length. */
  function Hex2Bin(s: string): seq<byte>
    requires |s| % 2 == 0 && forall c :: c in s ==> IsLowerHex(c)
    decreases |s|
  {
    if s == [] then []
    else
      assert s[0] in s && s[1] in s;
      [(HexValue(s[0]) * 16 + HexValue(s[1])) as byte] + Hex2Bin(s[2..])
  }

  /** bin2hex loses nothing: hex2bin undoes it. */
  lemma {:induction false} Hex2BinOfBin2Hex(bs: seq<byte>)
    ensures Hex2Bin(Bin2Hex(bs)) == bs
    decreases |bs|
  {
    if bs != [] {
      var h := Bin2Hex(bs);
      var b := bs[0] as int;
      HexValueOfDigit(b / 16);
      HexValueOfDigit(b % 16);
      assert h[2..] == Bin2Hex(bs[1..]);
      Hex2BinOfBin2Hex(bs[1..]);
    }
  }

  // ---------------------------------------------------------------------------
  // pathinfo / basename (Unix: only '/' separates directories)

  /** Index of the last occurrence of `c` in `s`, or -1. */
  function LastIndexOf(s: string, c: char): (r: int)
    ensures -1 <= r < |s|
    ensures r >= 0 ==> s[r] == c
    ensures forall k :: r < k < |s| ==> s[k] != c
    decreases |s|
  {
    if s == [] then -1
    else if s[|s| - 1] == c then |s| - 1
    else LastIndexOf(s[..|s| - 1], c)
  }

  /** `basename($p)`: trailing slashes are dropped, then the last component is kept. */
  function Basename(p: string): (r: string)
    ensures '/' !in r
  {
    var t := TrimRight(p, {'/'});
    t[LastIndexOf(t, '/') + 1..]
  }

  /** `pathinfo($p)['extension']`: what follows the last '.' of the basename, if any. */
  function PathExtension(p: string): Option<string>
  {
    var b := Basename(p);
    var i := LastIndexOf(b, '.');
    if i < 0 then None else Some(b[i + 1..])
  }

  /** `pathinfo($p, PATHINFO_FILENAME)`: the basename up to its last '.'. */
  function PathFilename(p: string): string
  {
    var b := Basename(p);
    var i := LastIndexOf(b, '.');
    if i < 0 then b else b[..i]
  }

  /** A name without '/' is its own basename, also below any directory. */
  lemma {:induction false} BasenameOfJoin(dir: string, b: string)
    requires '/' !in b && b != []
    ensures Basename(b) == b
    ensures Basename(dir + "/" + b) == b
  {
    assert b[|b| - 1] in b;
    var p := dir + "/" + b;
    assert TrimRight(p, {'/'}) == p by { assert p[|p| - 1] == b[|b| - 1]; }
    assert TrimRight(b, {'/'}) == b;
    var i := LastIndexOf(p, '/');
    assert p[|dir|] == '/';
    assert forall k :: |dir| < k < |p| ==> p[k] != '/' by {
      forall k | |dir| < k < |p| ensures p[k] != '/' { assert p[k] == b[k - |dir| - 1]; }
    }
    assert i == |dir|;
    assert p[i + 1..] == b;
    assert LastIndexOf(b, '/') == -1;
  }

  /** `pathinfo` splits `stem.ext` back into `stem` and `ext` when the extension
      has no dot and neither part has a slash. */
  lemma {:induction false} PathInfoOfName(stem: string, ext: string)
    requires '/' !in stem && '/' !in ext && '.' !in ext
    ensures PathFilename(stem + "." + ext) == stem
    ensures PathExtension(stem + "." + ext) == Some(ext)
  {
    var n := stem + "." + ext;
    assert '/' !in n by {
      forall k | 0 <= k < |n| ensures n[k] != '/' {
        if k < |stem| { assert n[k] == stem[k]; }
        else if k > |stem| { assert n[k] == ext[k - |stem| - 1]; }
      }
    }
    assert TrimRight(n, {'/'}) == n by { assert n[|n| - 1] in n; }
    assert LastIndexOf(n, '/') == -1;
    assert Basename(n) == n;
    var i := LastIndexOf(n, '.');
    assert n[|stem|] == '.';
    assert forall k :: |stem| < k < |n| ==> n[k] != '.' by {
      forall k | |stem| < k < |n| ensures n[k] != '.' { assert n[k] == ext[k - |stem| - 1]; }
    }
    assert i == |stem|;
    assert n[..i] == stem;
    assert n[i + 1..] == ext;
  }
}
