/**
 * The string operations of the JavaScript host that the front end relies on,
 * written out over `seq<char>`: white space as `trim` and the pattern class `\s`
 * see it, ASCII case mapping, `indexOf`/`includes`, `split` and its inverse
 * `join`, `padStart`, printing integers, `parseInt`, and the order `<` on strings.
 */
module Text {
  import opened Wrappers

  // ---------------------------------------------------------------------------
  // White space and trimming
  // ---------------------------------------------------------------------------

  /** The ECMAScript WhiteSpace and LineTerminator characters: what `trim` removes and `\s` matches. */
  predicate IsSpace(c: char) {
    c == ' ' || c == '\t' || c == '\n' || c == '\U{B}' || c == '\U{C}' || c == '\r'
    || c == '\U{A0}' || c == '\U{1680}' || ('\U{2000}' <= c <= '\U{200A}')
    || c == '\U{2028}' || c == '\U{2029}' || c == '\U{202F}' || c == '\U{205F}'
    || c == '\U{3000}' || c == '\U{FEFF}'
  }

  /** Every character of `s` is white space (the empty string included). */
  predicate IsBlank(s: string) {
    forall i :: 0 <= i < |s| ==> IsSpace(s[i])
  }

  /** `s.trimStart()`: the longest suffix of `s` that does not start with white space. */
  function TrimStart(s: string): (r: string)
    ensures |r| <= |s| && r == s[|s| - |r|..]
    ensures IsBlank(s[..|s| - |r|])
    ensures r != [] ==> !IsSpace(r[0])
  {
    if s != [] && IsSpace(s[0]) then TrimStart(s[1..]) else s
  }

  /** `s.trimEnd()`: the longest prefix of `s` that does not end with white space. */
  function TrimEnd(s: string): (r: string)
    ensures |r| <= |s| && r == s[..|r|]
    ensures IsBlank(s[|r|..])
    ensures r != [] ==> !IsSpace(r[|r| - 1])
  {
    if s != [] && IsSpace(s[|s| - 1]) then TrimEnd(s[..|s| - 1]) else s
  }

  /** `s.trim()`. */
  function Trim(s: string): (r: string)
    ensures |r| <= |s|
    ensures r != [] ==> !IsSpace(r[0]) && !IsSpace(r[|r| - 1])
    ensures CutAround(s, r)
  {
    var t := TrimStart(s);
    var r := TrimEnd(t);
    TrimmedPiece(s, t, r);
    var i := |s| - |t|;
    assert Around(s, r, i);
    r
  }

  /** `r` sits at index `i` of `s` with only white space before and after it. */
  predicate Around(s: string, r: string, i: int) {
    0 <= i <= |s| - |r| && r == s[i..i + |r|] && IsBlank(s[..i]) && IsBlank(s[i + |r|..])
  }

  /** `r` is `s` with some white space cut off at each end. */
  ghost predicate CutAround(s: string, r: string) {
    exists i :: Around(s, r, i)
  }

  /** What `trimEnd` keeps of what `trimStart` kept is a piece of `s` with only white space around it. */
  lemma TrimmedPiece(s: string, t: string, r: string)
    requires |t| <= |s| && t == s[|s| - |t|..]
    requires |r| <= |t| && r == t[..|r|] && IsBlank(t[|r|..])
    ensures var i := |s| - |t|; r == s[i..i + |r|] && IsBlank(s[i + |r|..])
  {
    var i := |s| - |t|;
    assert s[i..i + |r|] == t[..|r|];
    assert s[i + |r|..] == t[|r|..];
  }

  /** A string trims to nothing exactly when it is all white space. */
  lemma TrimEmptyIffBlank(s: string)
    ensures Trim(s) == [] <==> IsBlank(s)
  {
    var t := TrimStart(s);
    if t != [] {
      assert t[0] == s[|s| - |t|];
      assert TrimEnd(t) != [];
    } else {
      assert s[..|s|] == s;
    }
  }

  // ---------------------------------------------------------------------------
  // Case mapping (ASCII letters only)
  // ---------------------------------------------------------------------------

  function LowerChar(c: char): char {
    if 'A' <= c <= 'Z' then (c as int + 32) as char else c
  }

  function UpperChar(c: char): char {
    if 'a' <= c <= 'z' then (c as int - 32) as char else c
  }

  /** `s.toLowerCase()` restricted to ASCII letters. */
  function Lower(s: string): (r: string)
    ensures |r| == |s| && forall i :: 0 <= i < |s| ==> r[i] == LowerChar(s[i])
  {
    seq(|s|, i requires 0 <= i < |s| => LowerChar(s[i]))
  }

  /** `s.toUpperCase()` restricted to ASCII letters. */
  function Upper(s: string): (r: string)
    ensures |r| == |s| && forall i :: 0 <= i < |s| ==> r[i] == UpperChar(s[i])
  {
    seq(|s|, i requires 0 <= i < |s| => UpperChar(s[i]))
  }

  // ---------------------------------------------------------------------------
  // Searching: indexOf, includes, split, join
  // ---------------------------------------------------------------------------

  /** `t` occurs in `s` starting at index `j`. */
  predicate Occurs(s: string, t: string, j: int) {
    0 <= j && j + |t| <= |s| && s[j..j + |t|] == t
  }

  /** `s.indexOf(t)`, with `None` for -1: the first index where `t` occurs. */
  function IndexOf(s: string, t: string): (r: Option<nat>)
    ensures r.Some? ==> Occurs(s, t, r.value) && forall j :: 0 <= j < r.value ==> !Occurs(s, t, j)
    ensures r.None? ==> forall j :: !Occurs(s, t, j)
  {
    if |t| <= |s| && s[..|t|] == t then
      assert Occurs(s, t, 0);
      Some(0)
    else if s == [] then
      None
    else
      var r' := IndexOf(s[1..], t);
      assert forall j :: 0 <= j ==> (Occurs(s[1..], t, j) <==> Occurs(s, t, j + 1)) by {
        forall j | 0 <= j ensures Occurs(s[1..], t, j) <==> Occurs(s, t, j + 1) { OccursShift(s, t, j); }
      }
      assert !Occurs(s, t, 0);
      if r'.None? then
        assert forall j :: !Occurs(s, t, j) by {
          forall j ensures !Occurs(s, t, j) {
            if j >= 1 { assert !Occurs(s[1..], t, j - 1); }
          }
        }
        None
      else
        assert forall j :: 0 <= j < r'.value + 1 ==> !Occurs(s, t, j) by {
          forall j | 0 < j < r'.value + 1 ensures !Occurs(s, t, j) { assert !Occurs(s[1..], t, j - 1); }
        }
        Some(r'.value + 1)
  }

  lemma OccursShift(s: string, t: string, j: nat)
    requires s != []
    ensures Occurs(s[1..], t, j) <==> Occurs(s, t, j + 1)
  {
    if j + |t| <= |s| - 1 {
      assert s[1..][j..j + |t|] == s[j + 1..j + 1 + |t|];
    }
  }

  /** An occurrence in a prefix of `s` is an occurrence in `s`. */
  lemma OccursInPrefix(s: string, t: string, i: nat, j: nat)
    requires i <= |s| && Occurs(s[..i], t, j)
    ensures Occurs(s, t, j)
  {
    assert s[..i][j..j + |t|] == s[j..j + |t|];
  }

  /** `s.includes(t)`. */
  predicate Includes(s: string, t: string) {
    IndexOf(s, t).Some?
  }

  /** `s.split(sep)` for a non-empty separator string: the pieces between successive occurrences, left to right. */
  function Split(s: string, sep: string): (r: seq<string>)
    requires sep != []
    ensures |r| >= 1
    ensures forall k :: 0 <= k < |r| ==> !Includes(r[k], sep)
    decreases |s|
  {
    match IndexOf(s, sep)
    case None => [s]
    case Some(i) =>
      var head := s[..i];
      assert !Includes(head, sep) by {
        var r := IndexOf(head, sep);
        if r.Some? {
          OccursInPrefix(s, sep, i, r.value);
        }
      }
      [head] + Split(s[i + |sep|..], sep)
  }

  /** `parts.join(sep)`. */
  function Join(parts: seq<string>, sep: string): string {
    if |parts| == 0 then ""
    else if |parts| == 1 then parts[0]
    else parts[0] + sep + Join(parts[1..], sep)
  }

  /** Joining the pieces of a split with the same separator gives back the original string. */
  lemma {:induction false} JoinSplit(s: string, sep: string)
    requires sep != []
    ensures Join(Split(s, sep), sep) == s
    decreases |s|
  {
    var r := IndexOf(s, sep);
    if r.Some? {
      var i := r.value;
      var rest := s[i + |sep|..];
      JoinSplit(rest, sep);
      var tail := Split(rest, sep);
      var parts := [s[..i]] + tail;
      assert Split(s, sep) == parts;
      assert parts[1..] == tail;
      assert Join(parts, sep) == s[..i] + sep + Join(tail, sep);
      assert s == s[..i] + sep + rest by {
        assert s[i..i + |sep|] == sep;
        assert s == s[..i] + s[i..i + |sep|] + s[i + |sep|..];
      }
    }
  }

  /**
   * Each cut of `parts` is at the leftmost occurrence of the separator: in the
   * text rejoined from piece `k` on, the separator first occurs right after
   * piece `k`.
   */
  ghost predicate CutsLeftmost(parts: seq<string>, sep: string) {
    forall k :: 0 <= k < |parts| - 1 ==> IndexOf(Join(parts[k..], sep), sep) == Some(|parts[k]|)
  }

  /** `split` cuts at the leftmost occurrence every time, which fixes the pieces even for a separator that overlaps itself. */
  lemma {:induction false} SplitCutsLeftmost(s: string, sep: string)
    requires sep != []
    ensures CutsLeftmost(Split(s, sep), sep)
    decreases |s|
  {
    match IndexOf(s, sep)
    case None =>
    case Some(i) =>
      var rest := s[i + |sep|..];
      SplitCutsLeftmost(rest, sep);
      JoinSplit(s, sep);
      assert Split(s, sep) == [s[..i]] + Split(rest, sep);
      ConsCutsLeftmost(s[..i], Split(rest, sep), sep);
  }

  /** A piece put in front of pieces cut leftmost keeps them so, when the separator first occurs right after it. */
  lemma ConsCutsLeftmost(head: string, tail: seq<string>, sep: string)
    requires CutsLeftmost(tail, sep)
    requires IndexOf(Join([head] + tail, sep), sep) == Some(|head|)
    ensures CutsLeftmost([head] + tail, sep)
  {
    var parts := [head] + tail;
    forall k | 0 <= k < |parts| - 1
      ensures IndexOf(Join(parts[k..], sep), sep) == Some(|parts[k]|)
    {
      if k == 0 {
        assert parts[k..] == parts;
      } else {
        assert parts[k..] == tail[k - 1..];
      }
    }
  }

  /** A string without the separator does not split. */
  lemma SplitWithoutSeparator(s: string, sep: string)
    requires sep != [] && !Includes(s, sep)
    ensures Split(s, sep) == [s]
  {
  }

  // ---------------------------------------------------------------------------
  // Padding and printing integers
  // ---------------------------------------------------------------------------

  /** `s.padStart(n, c)`: `c` repeated in front of `s` until it is `n` long. */
  function PadStart(s: string, n: nat, c: char): (r: string)
    ensures |r| == if |s| >= n then |s| else n
    ensures r[|r| - |s|..] == s
    ensures forall i :: 0 <= i < |r| - |s| ==> r[i] == c
  {
    if |s| >= n then s else seq(n - |s|, _ => c) + s
  }

  predicate IsDigit(c: char) {
    '0' <= c <= '9'
  }

  predicate AllDigits(s: string) {
    forall i :: 0 <= i < |s| ==> IsDigit(s[i])
  }

  function DigitChar(d: nat): (c: char)
    requires d < 10
    ensures IsDigit(c) && c as int - '0' as int == d
  {
    ('0' as int + d) as char
  }

  /** `String(n)` for a natural number: its decimal digits, without leading zeros. */
  function NatToString(n: nat): (r: string)
    ensures r != [] && AllDigits(r)
    ensures r[0] == '0' ==> n == 0
    decreases n
  {
    if n < 10 then [DigitChar(n)] else NatToString(n / 10) + [DigitChar(n % 10)]
  }

  /** `String(i)` for an integer: a minus sign in front of negative numbers. */
  function IntToString(i: int): (r: string)
    ensures r != []
    ensures i >= 0 ==> AllDigits(r)
    ensures i < 0 ==> r[0] == '-' && AllDigits(r[1..])
  {
    if i < 0 then "-" + NatToString(-i) else NatToString(i)
  }

  // ---------------------------------------------------------------------------
  // parseInt
  // ---------------------------------------------------------------------------

  /** The value of a digit character in radix up to 36; 36 for anything that is not a digit. */
  function CharDigit(c: char): (d: nat)
    ensures d <= 36
  {
    if '0' <= c <= '9' then c as int - '0' as int
    else if 'a' <= c <= 'z' then c as int - 'a' as int + 10
    else if 'A' <= c <= 'Z' then c as int - 'A' as int + 10
    else 36
  }

  predicate IsRadixDigits(s: string, radix: nat) {
    forall i :: 0 <= i < |s| ==> CharDigit(s[i]) < radix
  }

  /** The number that the digits `s` denote in `radix`, most significant first. */
  function RadixValue(s: string, radix: nat): nat
    requires IsRadixDigits(s, radix)
  {
    if s == [] then 0 else RadixValue(s[..|s| - 1], radix) * radix + CharDigit(s[|s| - 1])
  }

  /** The length of the longest prefix of `s` made of digits of `radix`. */
  function DigitRun(s: string, radix: nat): (k: nat)
    ensures k <= |s| && IsRadixDigits(s[..k], radix)
    ensures k < |s| ==> CharDigit(s[k]) >= radix
  {
    if s != [] && CharDigit(s[0]) < radix then
      var k := DigitRun(s[1..], radix) + 1;
      assert s[..k] == [s[0]] + s[1..][..k - 1];
      k
    else 0
  }

  /** An optional sign in front of the digits, as `parseInt` reads it: the sign factor and the rest. */
  function SplitSign(t: string): (int, string) {
    if t != [] && t[0] == '-' then (-1, t[1..])
    else if t != [] && t[0] == '+' then (1, t[1..])
    else (1, t)
  }

  /** The value of the longest run of `radix` digits at the start of `rest`, times `sign`; `None` (NaN) when there is none. */
  function SignedDigitPrefix(sign: int, rest: string, radix: nat): Option<int> {
    var k := DigitRun(rest, radix);
    if k == 0 then None else Some(sign * RadixValue(rest[..k], radix))
  }

  /** `parseInt(s, 10)`: leading white space, an optional sign, then as many decimal digits as there are; NaN is `None`. */
  function ParseInt10(s: string): Option<int> {
    var (sign, rest) := SplitSign(TrimStart(s));
    SignedDigitPrefix(sign, rest, 10)
  }

  /** `parseInt(s)` without a radix: as `parseInt(s, 10)`, except that a `0x`/`0X` prefix selects hexadecimal. */
  function ParseIntAuto(s: string): Option<int> {
    var (sign, rest) := SplitSign(TrimStart(s));
    if |rest| >= 2 && rest[0] == '0' && (rest[1] == 'x' || rest[1] == 'X') then
      SignedDigitPrefix(sign, rest[2..], 16)
    else
      SignedDigitPrefix(sign, rest, 10)
  }

  /** `Number(s)` for the decimal text a form field holds: blank is 0, otherwise an optional sign and decimal digits; anything else is NaN (`None`). */
  function NumberValue(s: string): Option<int> {
    var t := Trim(s);
    if t == [] then Some(0)
    else
      var (sign, digits) := SplitSign(t);
      if digits != [] && IsRadixDigits(digits, 10) then Some(sign * RadixValue(digits, 10)) else None
  }

  /** `s.startsWith(prefix)`. */
  predicate StartsWith(s: string, prefix: string) {
    |prefix| <= |s| && s[..|prefix|] == prefix
  }

  function Pow10(k: nat): nat {
    if k == 0 then 1 else 10 * Pow10(k - 1)
  }

  /** A number below `10^k` prints with at most `k` digits. */
  lemma {:induction false} NatToStringWidth(n: nat, k: nat)
    requires 1 <= k && n < Pow10(k)
    ensures |NatToString(n)| <= k
  {
    if n >= 10 {
      assert n / 10 < Pow10(k - 1);
      NatToStringWidth(n / 10, k - 1);
    }
  }

  /** Reading back the decimal digits of `n` gives `n`. */
  lemma {:induction false} RadixValueOfNatToString(n: nat)
    ensures IsRadixDigits(NatToString(n), 10) && RadixValue(NatToString(n), 10) == n
    decreases n
  {
    var s := NatToString(n);
    assert IsRadixDigits(s, 10) by {
      forall i | 0 <= i < |s| ensures CharDigit(s[i]) < 10 { assert IsDigit(s[i]); }
    }
    if n >= 10 {
      RadixValueOfNatToString(n / 10);
      assert s[..|s| - 1] == NatToString(n / 10);
    }
  }

  /** A run of digits is read completely. */
  lemma DigitRunOfDigits(s: string)
    requires AllDigits(s)
    ensures IsRadixDigits(s, 10) && DigitRun(s, 10) == |s|
  {
    forall i | 0 <= i < |s|
      ensures CharDigit(s[i]) < 10
    {
      assert IsDigit(s[i]);
    }
  }

  /** `String(i)` has no white space in front, and splits into its sign and the digits of `|i|`. */
  lemma IntToStringShape(i: int)
    ensures TrimStart(IntToString(i)) == IntToString(i)
    ensures SplitSign(IntToString(i)) == (if i < 0 then -1 else 1, NatToString(if i < 0 then -i else i))
  {
    var s := IntToString(i);
    var digits := NatToString(if i < 0 then -i else i);
    assert !IsSpace(s[0]) by {
      if i >= 0 { assert IsDigit(s[0]); }
    }
    if i >= 0 {
      assert IsDigit(digits[0]);
    }
  }

  /** Text with nothing to trim in front, a sign and a non-empty run of digits is read by `parseInt` as the signed value. */
  lemma ReadsSignedDigits(s: string, sign: int, digits: string)
    requires digits != [] && AllDigits(digits)
    requires TrimStart(s) == s && SplitSign(s) == (sign, digits)
    ensures IsRadixDigits(digits, 10) && ParseInt10(s) == Some(sign * RadixValue(digits, 10))
  {
    DigitRunOfDigits(digits);
    assert digits[..|digits|] == digits;
  }

  /** `parseInt(String(i), 10) == i`: what `toString` stores, `parseInt` reads back. */
  lemma ParseIntOfIntToString(i: int)
    ensures ParseInt10(IntToString(i)) == Some(i)
  {
    var n: nat := if i < 0 then -i else i;
    RadixValueOfNatToString(n);
    IntToStringShape(i);
    ReadsSignedDigits(IntToString(i), if i < 0 then -1 else 1, NatToString(n));
  }

  /** `Number(String(i)) == i`: a number printed into a form field reads back as itself. */
  lemma NumberOfIntToString(i: int)
    ensures NumberValue(IntToString(i)) == Some(i)
  {
    var s := IntToString(i);
    var n: nat := if i < 0 then -i else i;
    RadixValueOfNatToString(n);
    IntToStringShape(i);
    assert TrimEnd(s) == s by { assert IsDigit(s[|s| - 1]); }
  }

  /** On a string of decimal digits, `parseInt` without a radix reads as `parseInt(s, 10)`: there is no `0x` prefix to see. */
  lemma ParseIntAutoOfDigits(s: string)
    requires AllDigits(s)
    ensures ParseIntAuto(s) == ParseInt10(s)
  {
    assert TrimStart(s) == s && SplitSign(s) == (1, s) by {
      if s != [] { assert IsDigit(s[0]); }
    }
    assert !(|s| >= 2 && s[1] == 'x') && !(|s| >= 2 && s[1] == 'X') by {
      if |s| >= 2 { assert IsDigit(s[1]); }
    }
    assert ParseInt10(s) == SignedDigitPrefix(1, s, 10);
  }

  /** A non-empty run of decimal digits is read by `parseInt` as its value. */
  lemma ParseDigits(t: string)
    requires t != [] && AllDigits(t)
    ensures IsRadixDigits(t, 10) && ParseInt10(t) == Some(RadixValue(t, 10))
  {
    assert TrimStart(t) == t && SplitSign(t) == (1, t) by { assert IsDigit(t[0]); }
    ReadsSignedDigits(t, 1, t);
  }

  /** `String(n).padStart(w, '0')` reads back as `n`: the padding zeros do not change the value. */
  lemma PaddedReadsBack(n: nat, width: nat)
    ensures ParseInt10(PadStart(NatToString(n), width, '0')) == Some(n)
  {
    var digits := NatToString(n);
    var t := PadStart(digits, width, '0');
    var z := |t| - |digits|;
    assert t == seq(z, _ => '0') + digits;
    RadixValueOfNatToString(n);
    RadixValueLeadingZeros(z, digits);
    assert AllDigits(t) by {
      forall i | 0 <= i < |t| ensures IsDigit(t[i]) {
        if i >= z { assert t[i] == digits[i - z]; }
      }
    }
    ParseDigits(t);
  }

  /** `parseInt` without a radix reads leading zeros and then the number: `parseInt("0042") == 42`. */
  lemma {:induction false} RadixValueLeadingZeros(z: nat, s: string)
    requires IsRadixDigits(s, 10)
    ensures IsRadixDigits(seq(z, _ => '0') + s, 10)
    ensures RadixValue(seq(z, _ => '0') + s, 10) == RadixValue(s, 10)
    decreases |s|
  {
    var t := seq(z, _ => '0') + s;
    assert IsRadixDigits(t, 10) by {
      forall i | 0 <= i < |t| ensures CharDigit(t[i]) < 10 {
        if i >= z { assert t[i] == s[i - z]; }
      }
    }
    if s == [] {
      assert t == seq(z, _ => '0');
      ZerosValue(z);
    } else {
      RadixValueLeadingZeros(z, s[..|s| - 1]);
      assert t[..|t| - 1] == seq(z, _ => '0') + s[..|s| - 1];
    }
  }

  /** A string of zeros has value zero. */
  lemma {:induction false} ZerosValue(z: nat)
    ensures IsRadixDigits(seq(z, _ => '0'), 10) && RadixValue(seq(z, _ => '0'), 10) == 0
  {
    var t := seq(z, _ => '0');
    if z > 0 {
      ZerosValue(z - 1);
      assert t[..z - 1] == seq(z - 1, _ => '0');
    }
  }

  // ---------------------------------------------------------------------------
  // The order `<` on strings
  // ---------------------------------------------------------------------------

  /** `a < b` on strings: lexicographic by character code, a proper prefix coming first. */
  predicate StrLess(a: string, b: string) {
    if a == [] then b != []
    else if b == [] then false
    else if a[0] != b[0] then a[0] < b[0]
    else StrLess(a[1..], b[1..])
  }

  lemma {:induction false} StrLessIrreflexive(a: string)
    ensures !StrLess(a, a)
  {
    if a != [] { StrLessIrreflexive(a[1..]); }
  }

  lemma {:induction false} StrLessTransitive(a: string, b: string, c: string)
    requires StrLess(a, b) && StrLess(b, c)
    ensures StrLess(a, c)
  {
    if a != [] && b != [] && c != [] && a[0] == b[0] && b[0] == c[0] {
      StrLessTransitive(a[1..], b[1..], c[1..]);
    }
  }

  /** Two different strings are always ordered one way or the other. */
  lemma {:induction false} StrLessTotal(a: string, b: string)
    requires a != b
    ensures StrLess(a, b) || StrLess(b, a)
  {
    if a != [] && b != [] && a[0] == b[0] {
      assert a == [a[0]] + a[1..] && b == [b[0]] + b[1..];
      StrLessTotal(a[1..], b[1..]);
    }
  }

  /** `<` on strings is a strict total order, so `!(a < b)` is transitive as well. */
  lemma StrLessNotTransitive(a: string, b: string, c: string)
    requires !StrLess(a, b) && !StrLess(b, c)
    ensures !StrLess(a, c)
  {
    if StrLess(a, c) {
      if a == b {
      } else if b == c {
      } else {
        StrLessTotal(a, b);
        StrLessTotal(b, c);
        StrLessTransitive(c, b, a);
        StrLessAsymmetric(a, c);
      }
    }
  }

  lemma StrLessAsymmetric(a: string, b: string)
    ensures StrLess(a, b) ==> !StrLess(b, a)
  {
    if StrLess(a, b) && StrLess(b, a) {
      StrLessTransitive(a, b, a);
      StrLessIrreflexive(a);
    }
  }
}
