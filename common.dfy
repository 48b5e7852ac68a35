/** Shared vocabulary: byte-sized integers, Option/Result, and the small text
    renderings (hex digits, decimal numbers) the component prints with printf. */
module Common {

  /** An unsigned 8-bit value (`uint8_t`). */
  type Byte = x: int | 0 <= x < 256

  /** An unsigned 16-bit value (`uint16_t`). */
  type Uint16 = x: int | 0 <= x < 65536

  /** A 4-bit value: a CEC logical address. */
  type Nibble = x: int | 0 <= x < 16

  datatype Option<+T> = None | Some(value: T)

  datatype Result<+T, +E> = Ok(value: T) | Err(error: E)

  lemma AppendAssoc<T>(a: seq<T>, b: seq<T>, c: seq<T>)
    ensures (a + b) + c == a + (b + c)
  {
  }

  /** 2 to the power n. */
  function Pow2(n: nat): (r: nat)
    ensures r >= 1
  {
    if n == 0 then 1 else 2 * Pow2(n - 1)
  }

  /** The digit `%X` prints for a nibble. */
  function UpperHexDigit(n: Nibble): char
  {
    "0123456789ABCDEF"[n]
  }

  /** The digit `%x` prints for a nibble. */
  function LowerHexDigit(n: Nibble): char
  {
    "0123456789abcdef"[n]
  }

  /** The value of a hexadecimal digit of either case. */
  function HexValue(c: char): Option<Nibble>
  {
    if '0' <= c <= '9' then Some(c as int - '0' as int)
    else if 'A' <= c <= 'F' then Some(c as int - 'A' as int + 10)
    else if 'a' <= c <= 'f' then Some(c as int - 'a' as int + 10)
    else None
  }

  lemma UpperHexDigitRoundTrip(n: Nibble)
    ensures HexValue(UpperHexDigit(n)) == Some(n)
  {
  }

  lemma LowerHexDigitRoundTrip(n: Nibble)
    ensures HexValue(LowerHexDigit(n)) == Some(n)
  {
  }

  /** `%02X`: two upper-case hex digits, high nibble first. */
  function Hex2Upper(b: Byte): (s: string)
    ensures |s| == 2
  {
    [UpperHexDigit(b / 16), UpperHexDigit(b % 16)]
  }

  /** Reads two hex digits back into a byte. */
  function ParseHex2(s: string): Option<Byte>
    requires |s| == 2
  {
    match (HexValue(s[0]), HexValue(s[1]))
    case (Some(hi), Some(lo)) => var b: Byte := hi as int * 16 + lo as int; Some(b)
    case _ => None
  }

  lemma Hex2UpperRoundTrip(b: Byte)
    ensures ParseHex2(Hex2Upper(b)) == Some(b)
  {
    UpperHexDigitRoundTrip(b / 16);
    UpperHexDigitRoundTrip(b % 16);
  }

  /** `%d` of a non-negative number: decimal digits, no leading zeros. */
  function Decimal(n: nat): (s: string)
    ensures |s| >= 1
    ensures forall i :: 0 <= i < |s| ==> '0' <= s[i] <= '9'
    decreases n
  {
    if n < 10 then ["0123456789"[n]] else Decimal(n / 10) + ["0123456789"[n % 10]]
  }

  /** The value of a string of decimal digits. */
  function DecimalValue(s: string): int
    decreases |s|
  {
    if s == [] then 0 else DecimalValue(s[..|s| - 1]) * 10 + (s[|s| - 1] as int - '0' as int)
  }

  lemma DigitValue(k: int)
    requires 0 <= k < 10
    ensures "0123456789"[k] as int - '0' as int == k
  {
  }

  lemma {:induction false} DecimalRoundTrip(n: nat)
    ensures DecimalValue(Decimal(n)) == n
    decreases n
  {
    if n < 10 {
      DigitValue(n);
    } else {
      DecimalRoundTrip(n / 10);
      DigitValue(n % 10);
      var s := Decimal(n);
      assert s[..|s| - 1] == Decimal(n / 10);
      assert s[|s| - 1] == "0123456789"[n % 10];
      assert DecimalValue(s) == DecimalValue(Decimal(n / 10)) * 10 + n % 10;
    }
  }
}
