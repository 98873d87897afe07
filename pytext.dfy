/** The Python built-ins the SynScan layer relies on, written out:
    `str(n)` of an integer, `hex(n)[2:].upper()`, `int(s, 16)`,
    the `'%Ns' % s` right-justification and `bytes(s, 'utf8')`. */
module PyText {

  newtype byte = x: int | 0 <= x < 256

  /** Python's `a & b` on non-negative integers. */
  function BitAnd(a: nat, b: nat): (r: nat)
    ensures r <= a && r <= b
  {
    if a == 0 || b == 0 then 0
    else 2 * BitAnd(a / 2, b / 2) + (if a % 2 == 1 && b % 2 == 1 then 1 else 0)
  }

  /** Masking with 1, 2 or 4 keeps bit 0, 1 or 2. */
  lemma BitAndLowBits(a: nat)
    ensures BitAnd(a, 1) == a % 2
    ensures BitAnd(a, 2) == 2 * ((a / 2) % 2)
    ensures BitAnd(a, 4) == 4 * ((a / 4) % 2)
  {
    if a > 0 {
      assert BitAnd(a, 1) == 2 * BitAnd(a / 2, 0) + a % 2;
      if a / 2 > 0 {
        assert BitAnd(a / 2, 1) == (a / 2) % 2;
        assert BitAnd(a / 2, 2) == 2 * BitAnd(a / 4, 1);
        if a / 4 > 0 {
          assert BitAnd(a / 4, 1) == (a / 4) % 2;
        }
      }
    }
  }

  // ---------------------------------------------------------------------------
  // Decimal rendering: str(n)

  predicate IsDigit(c: char) {
    '0' <= c <= '9'
  }

  predicate AllDigits(s: string) {
    forall i :: 0 <= i < |s| ==> IsDigit(s[i])
  }

  function DigitChar(d: int): (c: char)
    requires 0 <= d < 10
    ensures IsDigit(c) && c as int - '0' as int == d
  {
    ('0' as int + d) as char
  }

  /** The decimal digits of `n`, most significant first, without leading zeros. */
  function NatToString(n: nat): (s: string)
    ensures |s| >= 1 && AllDigits(s)
    ensures |s| == 1 <==> n < 10
    ensures s[0] == '0' ==> n == 0
    decreases n
  {
    if n < 10 then [DigitChar(n)] else NatToString(n / 10) + [DigitChar(n % 10)]
  }

  /** Python's `str(n)` for an `int`. */
  function IntToString(n: int): (s: string)
    ensures |s| >= 1
    ensures s[0] == '-' <==> n < 0
  {
    if n < 0 then "-" + NatToString(-n) else NatToString(n)
  }

  /** The value of a string of decimal digits (`int(s)` on such a string). */
  function DecimalValue(s: string): nat
    requires AllDigits(s)
  {
    if s == [] then 0 else DecimalValue(s[..|s| - 1]) * 10 + (s[|s| - 1] as int - '0' as int)
  }

  /** Reads back what `IntToString` renders. */
  function ParseInt(s: string): int
    requires |s| >= 1
    requires if s[0] == '-' then AllDigits(s[1..]) else AllDigits(s)
  {
    if s[0] == '-' then -(DecimalValue(s[1..]) as int) else DecimalValue(s)
  }

  lemma {:induction false} DecimalRoundTrip(n: nat)
    ensures DecimalValue(NatToString(n)) == n
    decreases n
  {
    if n >= 10 {
      var s := NatToString(n);
      DecimalRoundTrip(n / 10);
      assert s[..|s| - 1] == NatToString(n / 10);
    }
  }

  /** `str` is injective on integers: `ParseInt` recovers the number. */
  lemma IntToStringRoundTrip(n: int)
    ensures var s := IntToString(n);
      (if s[0] == '-' then AllDigits(s[1..]) else AllDigits(s)) && ParseInt(s) == n
  {
    if n < 0 {
      DecimalRoundTrip(-n);
      assert IntToString(n)[1..] == NatToString(-n);
    } else {
      DecimalRoundTrip(n);
    }
  }

  // ---------------------------------------------------------------------------
  // Hexadecimal: int(s, 16) and hex(n)[2:].upper()

  predicate IsHexDigit(c: char) {
    ('0' <= c <= '9') || ('a' <= c <= 'f') || ('A' <= c <= 'F')
  }

  predicate AllHex(s: string) {
    forall i :: 0 <= i < |s| ==> IsHexDigit(s[i])
  }

  predicate IsUpperHexDigit(c: char) {
    ('0' <= c <= '9') || ('A' <= c <= 'F')
  }

  predicate AllUpperHex(s: string) {
    forall i :: 0 <= i < |s| ==> IsUpperHexDigit(s[i])
  }

  function HexDigitValue(c: char): (v: nat)
    requires IsHexDigit(c)
    ensures v < 16
  {
    if '0' <= c <= '9' then c as int - '0' as int
    else if 'a' <= c <= 'f' then c as int - 'a' as int + 10
    else c as int - 'A' as int + 10
  }

  /** `int(s, 16)` on a string of hexadecimal digits: `k` digits read as
      less than 16^k. */
  function HexValue(s: string): (v: nat)
    requires AllHex(s)
    ensures v < Pow16(|s|)
  {
    if s == [] then 0 else HexValue(s[..|s| - 1]) * 16 + HexDigitValue(s[|s| - 1])
  }

  function HexDigit(d: nat): (c: char)
    requires d < 16
    ensures IsUpperHexDigit(c) && IsHexDigit(c) && HexDigitValue(c) == d
  {
    "0123456789ABCDEF"[d]
  }

  /** `hex(n)[2:].upper()` for `n >= 0`: upper-case digits, no zero padding. */
  function HexUpper(n: nat): (s: string)
    ensures |s| >= 1 && AllUpperHex(s) && AllHex(s)
    decreases n
  {
    if n < 16 then [HexDigit(n)] else HexUpper(n / 16) + [HexDigit(n % 16)]
  }

  lemma {:induction false} HexRoundTrip(n: nat)
    ensures HexValue(HexUpper(n)) == n
    decreases n
  {
    if n >= 16 {
      var s := HexUpper(n);
      HexRoundTrip(n / 16);
      assert s[..|s| - 1] == HexUpper(n / 16);
    }
  }

  function Pow16(k: nat): (p: nat)
    ensures p >= 1
  {
    if k == 0 then 1 else 16 * Pow16(k - 1)
  }

  /** `hex` prints exactly `k` digits for `16^(k-1) <= n < 16^k`. */
  lemma {:induction false} HexUpperLength(n: nat, k: nat)
    requires 1 <= k
    ensures n < Pow16(k) ==> |HexUpper(n)| <= k
    ensures Pow16(k - 1) <= n ==> |HexUpper(n)| >= k
    decreases k
  {
    if k > 1 {
      if n >= 16 {
        HexUpperLength(n / 16, k - 1);
      } else {
        assert Pow16(k - 1) >= 16 by { PowMonotone(1, k - 1); }
      }
    }
  }

  lemma {:induction false} PowMonotone(i: nat, j: nat)
    requires i <= j
    ensures Pow16(i) <= Pow16(j)
    decreases j
  {
    if i < j {
      PowMonotone(i, j - 1);
    }
  }

  /** `'%0*X' % (w, n)`-style zero padding to width `w`. */
  function ZeroPad(s: string, w: nat): (r: string)
    ensures |r| == if |s| >= w then |s| else w
    ensures r[|r| - |s|..] == s
    ensures forall i :: 0 <= i < |r| - |s| ==> r[i] == '0'
  {
    if |s| >= w then s else seq(w - |s|, _ => '0') + s
  }

  /** Leading zeros do not change the value `int(s, 16)` reads. */
  lemma {:induction false} HexValueZeroPad(s: string, w: nat)
    requires AllHex(s)
    ensures AllHex(ZeroPad(s, w)) && HexValue(ZeroPad(s, w)) == HexValue(s)
    decreases w
  {
    if |s| < w {
      ZeroPadStep(s, w);
      HexValueZeroPad(s, w - 1);
      LeadingZero(ZeroPad(s, w - 1));
    }
  }

  /** One more column of padding is one more leading zero. */
  lemma ZeroPadStep(s: string, w: nat)
    requires |s| < w
    ensures ZeroPad(s, w) == ['0'] + ZeroPad(s, w - 1)
  {
    var z := ZeroPad(s, w);
    var y := ['0'] + ZeroPad(s, w - 1);
    assert |z| == |y|;
    forall i | 0 <= i < |z| ensures z[i] == y[i] {
      if i >= w - |s| {
        assert z[i] == s[i - (w - |s|)];
      }
    }
  }

  lemma {:induction false} LeadingZero(s: string)
    requires AllHex(s)
    ensures AllHex(['0'] + s) && HexValue(['0'] + s) == HexValue(s)
    decreases |s|
  {
    if s != [] {
      var t := ['0'] + s;
      assert t[..|t| - 1] == ['0'] + s[..|s| - 1];
      LeadingZero(s[..|s| - 1]);
    }
  }

  // ---------------------------------------------------------------------------
  // '%Ns' % s: right-justify in a field of width N

  function RightJustify(s: string, w: nat): (r: string)
    ensures |r| == if |s| >= w then |s| else w
    ensures r[|r| - |s|..] == s
  {
    if |s| >= w then s else seq(w - |s|, _ => ' ') + s
  }

  /** What `RightJustify` puts in front of the text is spaces only. */
  lemma RightJustifyPads(s: string, w: nat)
    ensures var r := RightJustify(s, w);
      forall i :: 0 <= i < |r| - |s| ==> r[i] == ' '
  {
  }

  // ---------------------------------------------------------------------------
  // bytes(s, 'utf8')

  function Utf8Char(c: char): (b: seq<byte>)
    ensures 1 <= |b| <= 4
    ensures (c as int < 0x80) <==> |b| == 1
    ensures c as int < 0x80 ==> b[0] as int == c as int
  {
    var n := c as int;
    if n < 0x80 then [n as byte]
    else if n < 0x800 then [(0xC0 + n / 64) as byte, (0x80 + n % 64) as byte]
    else if n < 0x10000 then
      [(0xE0 + n / 4096) as byte, (0x80 + (n / 64) % 64) as byte, (0x80 + n % 64) as byte]
    else
      [(0xF0 + n / 262144) as byte, (0x80 + (n / 4096) % 64) as byte,
       (0x80 + (n / 64) % 64) as byte, (0x80 + n % 64) as byte]
  }

  function Utf8(s: string): (b: seq<byte>)
    ensures |b| >= |s|
  {
    if s == [] then [] else Utf8Char(s[0]) + Utf8(s[1..])
  }

  predicate IsAscii(s: string) {
    forall i :: 0 <= i < |s| ==> s[i] as int < 0x80
  }

  /** On ASCII text the UTF-8 bytes are the character codes, one per character. */
  lemma {:induction false} Utf8Ascii(s: string)
    requires IsAscii(s)
    ensures |Utf8(s)| == |s|
    ensures forall i :: 0 <= i < |s| ==> Utf8(s)[i] as int == s[i] as int
  {
    if s != [] {
      Utf8Ascii(s[1..]);
    }
  }

  /** A character outside ASCII takes more than one byte, so indices shift. */
  lemma Utf8Longer(s: string, i: int)
    requires 0 <= i < |s| && s[i] as int >= 0x80
    ensures |Utf8(s)| > |s|
    decreases |s|
  {
    if i > 0 {
      Utf8Longer(s[1..], i - 1);
    }
  }
}
