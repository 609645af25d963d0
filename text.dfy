/** Python's text conversions used by the bin-file header and the hash:
    `str(int)`, `int(str)`, `str.split(" ")`, `'{0:0>8x}'.format(n)` and
    ASCII encoding and decoding. */
module Text {
  import opened Util

  // ---------------------------------------------------------------- ASCII

  predicate IsAscii(s: string)
  {
    forall i :: 0 <= i < |s| ==> s[i] as int < 128
  }

  /** `s.encode('ascii')` */
  function Ascii(s: string): (b: seq<byte>)
    requires IsAscii(s)
    ensures |b| == |s|
    ensures forall i :: 0 <= i < |s| ==> b[i] == s[i] as int
  {
    seq(|s|, i requires 0 <= i < |s| => s[i] as int)
  }

  /** `b.decode('ascii')`: fails on any byte of 128 or more. */
  function DecodeAscii(b: seq<byte>): (r: Option<string>)
    ensures r.Some? <==> forall i :: 0 <= i < |b| ==> b[i] < 128
    ensures r.Some? ==> |r.value| == |b| && forall i :: 0 <= i < |b| ==> r.value[i] as int == b[i]
  {
    if b == [] then Some("")
    else if b[0] >= 128 then None
    else match DecodeAscii(b[1..])
      case None => None
      case Some(rest) => Some([b[0] as char] + rest)
  }

  lemma DecodeAscii_Ascii(s: string)
    requires IsAscii(s)
    ensures DecodeAscii(Ascii(s)) == Some(s)
  {
    var r := DecodeAscii(Ascii(s));
    assert r.Some?;
    assert r.value == s;
  }

  // ------------------------------------------------------------- decimal

  predicate IsDigit(c: char) { '0' <= c <= '9' }

  predicate AllDigits(s: string)
  {
    forall i :: 0 <= i < |s| ==> IsDigit(s[i])
  }

  function DigitChar(d: nat): (c: char)
    requires d < 10
    ensures IsDigit(c) && c as int - '0' as int == d
  {
    ('0' as int + d) as char
  }

  /** `str(n)` for n >= 0: decimal digits without leading zeros. */
  function DecimalNat(n: nat): (s: string)
    ensures |s| > 0 && AllDigits(s)
    decreases n
  {
    if n < 10 then [DigitChar(n)] else DecimalNat(n / 10) + [DigitChar(n % 10)]
  }

  /** `str(n)`, also what `'{0}'.format(n)` writes. */
  function Decimal(n: int): (s: string)
    ensures IsAscii(s) && ' ' !in s && '\n' !in s
    ensures |s| > 0 && (n >= 0 ==> AllDigits(s))
  {
    var s := if n < 0 then "-" + DecimalNat(-n) else DecimalNat(n);
    assert forall i :: 0 <= i < |s| ==> s[i] == '-' || IsDigit(s[i]);
    s
  }

  function DigitsValue(s: string): nat
    requires AllDigits(s)
    decreases |s|
  {
    if s == [] then 0 else 10 * DigitsValue(s[..|s| - 1]) + (s[|s| - 1] as int - '0' as int)
  }

  lemma {:induction false} DigitsValue_DecimalNat(n: nat)
    ensures DigitsValue(DecimalNat(n)) == n
  {
    if n >= 10 {
      var s := DecimalNat(n);
      assert s[..|s| - 1] == DecimalNat(n / 10);
      DigitsValue_DecimalNat(n / 10);
    }
  }

  /** The characters Python's `int()` ignores around a number (ASCII part). */
  predicate IsIntSpace(c: char)
  {
    c as int == 32 || 9 <= c as int <= 13 || 28 <= c as int <= 31
  }

  function TrimLeft(s: string): (t: string)
    ensures |t| <= |s| && t == s[|s| - |t|..]
    ensures |t| > 0 ==> !IsIntSpace(t[0])
  {
    if s != [] && IsIntSpace(s[0]) then TrimLeft(s[1..]) else s
  }

  function TrimRight(s: string): (t: string)
    ensures |t| <= |s| && t == s[..|t|]
    ensures |t| > 0 ==> !IsIntSpace(t[|t| - 1])
  {
    if s != [] && IsIntSpace(s[|s| - 1]) then TrimRight(s[..|s| - 1]) else s
  }

  /** `int(s)` for a decimal string: surrounding blanks, an optional sign and
      one or more ASCII digits (leading zeros allowed). */
  function ParseInt(s: string): (r: Option<int>)
    ensures AllDigits(s) && s != [] ==> r == Some(DigitsValue(s))
  {
    var t := TrimRight(TrimLeft(s));
    if |t| > 1 && (t[0] == '-' || t[0] == '+') && AllDigits(t[1..]) then
      var v: int := DigitsValue(t[1..]);
      Some(if t[0] == '-' then -v else v)
    else if t != [] && AllDigits(t) then
      Some(DigitsValue(t))
    else
      None
  }

  lemma ParseInt_Decimal(n: int)
    ensures ParseInt(Decimal(n)) == Some(n)
  {
    var s := Decimal(n);
    Trim_Decimal(n);
    if n < 0 {
      assert s == "-" + DecimalNat(-n);
      assert s[1..] == DecimalNat(-n);
      DigitsValue_DecimalNat(-n);
    } else {
      DigitsValue_DecimalNat(n);
    }
  }

  /** `str(n)` has no blanks around it to strip. */
  lemma Trim_Decimal(n: int)
    ensures TrimRight(TrimLeft(Decimal(n))) == Decimal(n)
  {
    var s := Decimal(n);
    assert s[0] == '-' || IsDigit(s[0]);
    assert TrimLeft(s) == s;
    assert s[|s| - 1] == '-' || IsDigit(s[|s| - 1]);
    assert TrimRight(s) == s;
  }

  // --------------------------------------------------------------- split

  /** `s.split(sep)` with an explicit one-character separator: never empty;
      adjacent separators give empty pieces. */
  function Split(s: string, sep: char): (parts: seq<string>)
    ensures |parts| >= 1
  {
    if s == [] then [""]
    else if s[0] == sep then [""] + Split(s[1..], sep)
    else
      var rest := Split(s[1..], sep);
      [[s[0]] + rest[0]] + rest[1..]
  }

  lemma {:induction false} Split_NoSep(s: string, sep: char)
    requires sep !in s
    ensures Split(s, sep) == [s]
  {
    if s != [] {
      Split_NoSep(s[1..], sep);
      assert [s[0]] + s[1..] == s;
    }
  }

  lemma {:induction false} Split_Pair(a: string, b: string, sep: char)
    requires sep !in a && sep !in b
    ensures Split(a + [sep] + b, sep) == [a, b]
  {
    if a == [] {
      assert a + [sep] + b == [sep] + b;
      assert ([sep] + b)[1..] == b;
      Split_NoSep(b, sep);
    } else {
      assert (a + [sep] + b)[1..] == a[1..] + [sep] + b;
      Split_Pair(a[1..], b, sep);
      assert [a[0]] + a[1..] == a;
    }
  }

  // ----------------------------------------------------------------- hex

  predicate IsHexDigit(c: char) { '0' <= c <= '9' || 'a' <= c <= 'f' }

  /** The lower-case hex digit for d < 16. */
  function HexDigit(d: nat): (c: char)
    requires d < 16
    ensures IsHexDigit(c)
  {
    if d < 10 then ('0' as int + d) as char else ('a' as int + d - 10) as char
  }

  predicate AllHex(s: string)
  {
    forall i :: 0 <= i < |s| ==> IsHexDigit(s[i])
  }

  function HexDigitValue(c: char): (d: nat)
    requires IsHexDigit(c)
    ensures d < 16 && HexDigit(d) == c
  {
    if '0' <= c <= '9' then c as int - '0' as int else c as int - 'a' as int + 10
  }

  /** Lower-case hexadecimal of n >= 0, no leading zeros. */
  function HexNat(n: nat): (s: string)
    ensures |s| > 0 && AllHex(s)
    decreases n
  {
    if n < 16 then [HexDigit(n)] else HexNat(n / 16) + [HexDigit(n % 16)]
  }

  function HexValue(s: string): nat
    requires AllHex(s)
    decreases |s|
  {
    if s == [] then 0 else 16 * HexValue(s[..|s| - 1]) + HexDigitValue(s[|s| - 1])
  }

  lemma {:induction false} HexValue_HexNat(n: nat)
    ensures HexValue(HexNat(n)) == n
  {
    if n >= 16 {
      var s := HexNat(n);
      assert s[..|s| - 1] == HexNat(n / 16);
      HexValue_HexNat(n / 16);
    }
  }

  function Repeat(c: char, k: nat): (s: string)
    ensures |s| == k && forall i :: 0 <= i < k ==> s[i] == c
  {
    if k == 0 then "" else [c] + Repeat(c, k - 1)
  }

  /** `'{0:0>8x}'.format(n)`: hex with a leading '-' for negative numbers,
      then padded on the left with '0' to at least 8 characters (the fill
      goes before the sign with the '>' alignment). */
  function Hex8(n: int): (s: string)
    ensures |s| >= 8 && IsAscii(s)
  {
    var h := if n < 0 then "-" + HexNat(-n) else HexNat(n);
    var s := if |h| >= 8 then h else Repeat('0', 8 - |h|) + h;
    assert forall i :: 0 <= i < |s| ==> s[i] == '-' || IsHexDigit(s[i]);
    s
  }

  function Pow16(k: nat): nat
  {
    if k == 0 then 1 else 16 * Pow16(k - 1)
  }

  lemma {:induction false} HexNat_Length(n: nat, k: nat)
    requires k >= 1 && n < Pow16(k)
    ensures |HexNat(n)| <= k
  {
    if n >= 16 {
      HexNat_Length(n / 16, k - 1);
    }
  }

  lemma {:induction false} HexValue_Zeros(k: nat, s: string)
    requires AllHex(s)
    ensures AllHex(Repeat('0', k) + s)
    ensures HexValue(Repeat('0', k) + s) == HexValue(s)
  {
    var z := Repeat('0', k);
    assert forall i :: 0 <= i < |z + s| ==> IsHexDigit((z + s)[i]) by {
      forall i | 0 <= i < |z + s| ensures IsHexDigit((z + s)[i]) {
        if i < k { assert (z + s)[i] == '0'; } else { assert (z + s)[i] == s[i - k]; }
      }
    }
    if s == [] {
      assert z + s == z;
      HexValue_AllZeros(k);
    } else {
      assert (z + s)[..|z + s| - 1] == z + s[..|s| - 1];
      HexValue_Zeros(k, s[..|s| - 1]);
    }
  }

  lemma {:induction false} HexValue_AllZeros(k: nat)
    ensures AllHex(Repeat('0', k)) && HexValue(Repeat('0', k)) == 0
  {
    var z := Repeat('0', k);
    assert forall i :: 0 <= i < k ==> z[i] == HexDigit(0);
    if k > 0 {
      assert z[..k - 1] == Repeat('0', k - 1);
      HexValue_AllZeros(k - 1);
    }
  }

  /** On the 32-bit range the eight-character field is exact and can be read back. */
  lemma Hex8_Exact(n: int)
    requires 0 <= n < 0x1_0000_0000
    ensures |Hex8(n)| == 8 && AllHex(Hex8(n)) && HexValue(Hex8(n)) == n
  {
    Pow16_8();
    HexNat_Length(n, 8);
    HexValue_HexNat(n);
    Hex8_Padded(n);
    Padded_Exact(HexNat(n));
  }

  /** On n >= 0 with at most eight digits, the field is the zero-padded digits. */
  lemma Hex8_Padded(n: int)
    requires n >= 0 && |HexNat(n)| <= 8
    ensures Hex8(n) == Repeat('0', 8 - |HexNat(n)|) + HexNat(n)
  {
    var h := HexNat(n);
    assert Repeat('0', 0) + h == h;
  }

  lemma Padded_Exact(h: string)
    requires |h| <= 8 && AllHex(h)
    ensures |Repeat('0', 8 - |h|) + h| == 8 && AllHex(Repeat('0', 8 - |h|) + h)
    ensures HexValue(Repeat('0', 8 - |h|) + h) == HexValue(h)
  {
    HexValue_Zeros(8 - |h|, h);
  }

  lemma Pow16_8()
    ensures Pow16(8) == 0x1_0000_0000
  {
  }

  lemma Hex8_Injective(a: int, b: int)
    requires 0 <= a < 0x1_0000_0000 && 0 <= b < 0x1_0000_0000
    requires Hex8(a) == Hex8(b)
    ensures a == b
  {
    Hex8_Exact(a);
    Hex8_Exact(b);
  }

  /** `bytes.hex()`: two lower-case hex digits per byte. */
  function HexBytes(b: seq<byte>): (s: string)
    ensures |s| == 2 * |b| && AllHex(s)
  {
    if b == [] then "" else [HexDigit(b[0] / 16), HexDigit(b[0] % 16)] + HexBytes(b[1..])
  }
}
