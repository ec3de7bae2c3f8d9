/**
 * The decoded-size estimate of the inspector's image view (`ImageView.js`,
 * `_base64ToSize`): the byte count of Base64 content is three quarters of its
 * length, less one for each of the last two characters that is a '=' pad.
 * JavaScript numbers are modelled as `real`, since the quotient is not
 * rounded. The encoding of section 4 of RFC 4648 is given as the reference
 * the estimate is measured against.
 */
module ImageView {
  import SourceMap

  type Byte = x: int | 0 <= x < 256

  /** `_base64ToSize`: 0 for empty content, else 3/4 of the length less the trailing pads. */
  function Base64ToSize(content: string): (size: real)
    ensures content == [] ==> size == 0.0
    ensures content != [] ==> (3 * |content|) as real / 4.0 - 2.0 <= size <= (3 * |content|) as real / 4.0
    ensures content != [] && content[|content| - 1] != '=' && (|content| == 1 || content[|content| - 2] != '=') ==>
              size == (3 * |content|) as real / 4.0
  {
    if |content| == 0 then 0.0
    else
      var whole := (|content| * 3) as real / 4.0;
      var afterLast := if content[|content| - 1] == '=' then whole - 1.0 else whole;
      if |content| > 1 && content[|content| - 2] == '=' then afterLast - 1.0 else afterLast
  }

  /** Apart from the length, only the last two characters decide the size. */
  lemma OnlyLastTwoCount(a: string, b: string)
    requires |a| == |b| >= 2 && a[|a| - 2..] == b[|b| - 2..]
    ensures Base64ToSize(a) == Base64ToSize(b)
  {
    assert a[|a| - 1] == a[|a| - 2..][1] && a[|a| - 2] == a[|a| - 2..][0];
    assert b[|b| - 1] == b[|b| - 2..][1] && b[|b| - 2] == b[|b| - 2..][0];
  }

  /** For whole four-character quanta the size is a whole number within two of 3/4 of the length. */
  lemma WholeQuanta(content: string)
    requires |content| % 4 == 0
    ensures Base64ToSize(content).Floor as real == Base64ToSize(content)
    ensures 3 * (|content| / 4) - 2 <= Base64ToSize(content).Floor <= 3 * (|content| / 4)
  {
    var m := |content| / 4;
    assert (|content| * 3) as real / 4.0 == (3 * m) as real;
    if content == [] {
      assert Base64ToSize(content) == 0 as real;
    } else {
      var k := 3 * m - (if content[|content| - 1] == '=' then 1 else 0)
                     - (if |content| > 1 && content[|content| - 2] == '=' then 1 else 0);
      assert Base64ToSize(content) == k as real;
    }
  }

  /** One full quantum: three bytes as four alphabet characters. */
  function Quantum(b0: Byte, b1: Byte, b2: Byte): string
  {
    [SourceMap.Base64Char(b0 / 4), SourceMap.Base64Char((b0 % 4) * 16 + b1 / 16),
     SourceMap.Base64Char((b1 % 16) * 4 + b2 / 64), SourceMap.Base64Char(b2 % 64)]
  }

  /** The number of '=' pads that complete `n` bytes to whole quanta. */
  function Padding(n: nat): nat
  {
    if n % 3 == 0 then 0 else 3 - n % 3
  }

  /**
   * Base64 encoding by section 4 of RFC 4648: whole quanta, then a final one
   * or two bytes padded with "==" or "=".
   */
  function Encode(bytes: seq<Byte>): (s: string)
    ensures 3 * |s| == 4 * (|bytes| + Padding(|bytes|))
    decreases |bytes|
  {
    if |bytes| == 0 then []
    else if |bytes| == 1 then
      [SourceMap.Base64Char(bytes[0] / 4), SourceMap.Base64Char((bytes[0] % 4) * 16), '=', '=']
    else if |bytes| == 2 then
      [SourceMap.Base64Char(bytes[0] / 4), SourceMap.Base64Char((bytes[0] % 4) * 16 + bytes[1] / 16),
       SourceMap.Base64Char((bytes[1] % 16) * 4), '=']
    else Quantum(bytes[0], bytes[1], bytes[2]) + Encode(bytes[3..])
  }

  /** The alphabet has no '=': only padding is '='. */
  lemma NotPad(i: int)
    requires 0 <= i < 64
    ensures SourceMap.Base64Char(i) != '='
  {
  }

  /** An encoding ends in "==" after one leftover byte, in one '=' after two, and in no pad otherwise. */
  lemma {:induction false} EncodePadding(bytes: seq<Byte>)
    requires |bytes| > 0
    ensures var s := Encode(bytes);
            (s[|s| - 1] == '=' <==> |bytes| % 3 != 0) && (s[|s| - 2] == '=' <==> |bytes| % 3 == 1)
    decreases |bytes|
  {
    var s := Encode(bytes);
    if |bytes| == 1 {
      NotPad(bytes[0] / 4);
      NotPad((bytes[0] % 4) * 16);
    } else if |bytes| == 2 {
      NotPad((bytes[0] % 4) * 16 + bytes[1] / 16);
      NotPad((bytes[1] % 16) * 4);
    } else if |bytes| == 3 {
      NotPad((bytes[1] % 16) * 4 + bytes[2] / 64);
      NotPad(bytes[2] % 64);
      assert s == Quantum(bytes[0], bytes[1], bytes[2]);
    } else {
      var rest := Encode(bytes[3..]);
      EncodePadding(bytes[3..]);
      assert s == Quantum(bytes[0], bytes[1], bytes[2]) + rest;
      assert s[|s| - 1] == rest[|rest| - 1] && s[|s| - 2] == rest[|rest| - 2];
      assert |bytes[3..]| % 3 == |bytes| % 3;
    }
  }

  /** On a correct encoding the estimate is exact: it is the number of bytes encoded. */
  lemma EncodedSize(bytes: seq<Byte>)
    ensures Base64ToSize(Encode(bytes)) == |bytes| as real
  {
    var s := Encode(bytes);
    if bytes != [] {
      EncodePadding(bytes);
      assert (|s| * 3) as real / 4.0 == (|bytes| + Padding(|bytes|)) as real;
    }
  }
}
