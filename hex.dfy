/** Node's `buffer.toString('hex')`: two lower-case hexadecimal digits per
    byte, high nibble first, and its inverse. */
module Hex {

  type Byte = b: int | 0 <= b < 256

  /** The 16 bytes `crypto.randomBytes(16)` yields. */
  type RandomBytes = s: seq<Byte> | |s| == 16
    witness [0, 0, 0, 0, 0, 0, 0, 0, 0, 0, 0, 0, 0, 0, 0, 0]

  predicate IsHexDigit(c: char)
  {
    '0' <= c <= '9' || 'a' <= c <= 'f'
  }

  /** The lower-case digit of a nibble. */
  function HexDigit(n: int): (c: char)
    requires 0 <= n < 16
    ensures IsHexDigit(c)
  {
    if n < 10 then ('0' as int + n) as char else ('a' as int + n - 10) as char
  }

  /** The nibble a lower-case digit stands for. */
  function DigitValue(c: char): (n: int)
    requires IsHexDigit(c)
    ensures 0 <= n < 16
  {
    if c <= '9' then c as int - '0' as int else c as int - 'a' as int + 10
  }

  lemma DigitRoundTrip(n: int)
    requires 0 <= n < 16
    ensures DigitValue(HexDigit(n)) == n
  {
  }

  /** A string of lower-case hex digits of even length: what `toString('hex')` produces. */
  predicate IsHex(s: string)
  {
    |s| % 2 == 0 && forall i :: 0 <= i < |s| ==> IsHexDigit(s[i])
  }

  function ToHex(bytes: seq<Byte>): (s: string)
    ensures |s| == 2 * |bytes|
    ensures IsHex(s)
  {
    if |bytes| == 0 then ""
    else [HexDigit(bytes[0] / 16), HexDigit(bytes[0] % 16)] + ToHex(bytes[1..])
  }

  function FromHex(s: string): (bytes: seq<Byte>)
    requires IsHex(s)
    ensures |bytes| == |s| / 2
  {
    if |s| == 0 then []
    else
      assert IsHex(s[2..]) by {
        forall i | 0 <= i < |s[2..]| ensures IsHexDigit(s[2..][i]) {
          assert s[2..][i] == s[i + 2];
        }
      }
      [DigitValue(s[0]) * 16 + DigitValue(s[1])] + FromHex(s[2..])
  }

  /** Decoding the hex text of a byte string gives the bytes back, so the
      token text carries the whole random value. */
  lemma {:induction false} HexRoundTrip(bytes: seq<Byte>)
    ensures FromHex(ToHex(bytes)) == bytes
  {
    if |bytes| > 0 {
      var s := ToHex(bytes);
      var b := bytes[0];
      DigitRoundTrip(b / 16);
      DigitRoundTrip(b % 16);
      assert s[2..] == ToHex(bytes[1..]);
      HexRoundTrip(bytes[1..]);
      assert [bytes[0]] + bytes[1..] == bytes;
    }
  }
}
